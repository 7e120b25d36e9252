/** What the provider's rules promise, proved about the effect functions of module Movies.
    Each lemma about a single operation is what a caller of the corresponding provider
    method may rely on, since the methods are proved to produce exactly those effects. */
module MovieProperties {
  import opened Movies

  // ---------------------------------------------------------------------------------------
  // Title uniqueness

  /** For an add there is no current id: the title is unique exactly when no stored document
      has it. */
  lemma UniqueWithoutCurrentId(store: Store, title: string, ids: seq<string>)
    requires Answers(store, title, ids)
    ensures TitleIsUnique(QueryAnswered(ids), None) <==> !TitleTaken(store, title)
  {
    if TitleTaken(store, title) {
      var k :| k in store && store[k].title == title;
      var i :| 0 <= i < |ids| && ids[i] == k;
      assert None != Some(ids[i]);
    }
  }

  /** For an update the title is unique exactly when every stored document that has it is the
      movie being updated. */
  lemma UniqueWithCurrentId(store: Store, title: string, ids: seq<string>, current: string)
    requires Answers(store, title, ids)
    ensures TitleIsUnique(QueryAnswered(ids), Some(current)) <==>
            forall k :: k in store && store[k].title == title ==> k == current
  {
    if TitleIsUnique(QueryAnswered(ids), Some(current)) {
      forall k | k in store && store[k].title == title ensures k == current {
        var i :| 0 <= i < |ids| && ids[i] == k;
        assert Some(current) == Some(ids[i]);
      }
    }
  }

  // ---------------------------------------------------------------------------------------
  // addMovie

  /** A title that some stored document already has is refused with the duplicate-title message;
      neither the movie object nor the collection changes. */
  lemma AddDuplicateTitle(store: Store, m: MovieRecord, freshId: string, ids: seq<string>, write: WriteResult)
    requires Answers(store, m.title, ids) && TitleTaken(store, m.title)
    ensures AddMovieEffect(store, m, freshId, QueryAnswered(ids), write) == Effect(Failure(DuplicateTitle), m, store)
  {
    UniqueWithoutCurrentId(store, m.title, ids);
  }

  /** With a unique title the movie takes the new document's id before it is validated, so
      validity comes down to title, genre and year: a valid movie is stored under that id
      (once the write completes), an invalid one is refused with "Invalid Movie!" and nothing
      is written. */
  lemma AddUniqueTitle(store: Store, m: MovieRecord, freshId: string, query: QueryResult, write: WriteResult)
    requires TitleIsUnique(query, None)
    ensures var e := AddMovieEffect(store, m, freshId, query, write);
      && e.movie == m.(id := freshId)
      && ValidMovie(e.movie, freshId) == HasContent(m)
      && (!HasContent(m) ==> e.outcome == Failure(InvalidMovie) && e.store == store)
      && (HasContent(m) && write.WriteSucceeded? ==> e.outcome == Success && e.store == store[freshId := e.movie])
      && (HasContent(m) && write.WriteFailed? ==>
            e.outcome == Failure(AddFailedPrefix + write.reason) && e.store == store)
  {
  }

  /** An add that reports success has written exactly one document, the movie under its new id. */
  lemma AddSuccessWritesOneDocument(store: Store, m: MovieRecord, freshId: string, query: QueryResult, write: WriteResult)
    requires AddMovieEffect(store, m, freshId, query, write).outcome == Success
    ensures var e := AddMovieEffect(store, m, freshId, query, write);
      && e.movie.id == freshId
      && e.store.Keys == store.Keys + {freshId}
      && e.store[freshId] == e.movie
      && (forall k :: k in store && k != freshId ==> e.store[k] == store[k])
      && (freshId !in store ==> |e.store| == |store| + 1)
  {
    var e := AddMovieEffect(store, m, freshId, query, write);
    assert e.store == store[freshId := e.movie];
  }

  /** After a successful add, adding any movie with the same title is refused as a duplicate,
      provided the second title query is answered. */
  lemma AddThenAddSameTitle(store: Store, m1: MovieRecord, id1: string, q1: QueryResult, w1: WriteResult,
                            m2: MovieRecord, id2: string, ids2: seq<string>, w2: WriteResult)
    requires AddMovieEffect(store, m1, id1, q1, w1).outcome == Success
    requires m2.title == m1.title
    requires Answers(AddMovieEffect(store, m1, id1, q1, w1).store, m2.title, ids2)
    ensures var s1 := AddMovieEffect(store, m1, id1, q1, w1).store;
      AddMovieEffect(s1, m2, id2, QueryAnswered(ids2), w2) == Effect(Failure(DuplicateTitle), m2, s1)
  {
    var s1 := AddMovieEffect(store, m1, id1, q1, w1).store;
    AddSuccessWritesOneDocument(store, m1, id1, q1, w1);
    assert s1[id1].title == m2.title;
    AddDuplicateTitle(s1, m2, id2, ids2, w2);
  }

  /** Deleting the movie that a successful add has just stored under a new id gives back the
      collection as it was. */
  lemma AddThenDelete(store: Store, m: MovieRecord, freshId: string, query: QueryResult, write: WriteResult)
    requires freshId !in store
    requires AddMovieEffect(store, m, freshId, query, write).outcome == Success
    ensures var e := AddMovieEffect(store, m, freshId, query, write);
      e.store - {e.movie.id} == store
  {
    var e := AddMovieEffect(store, m, freshId, query, write);
    AddSuccessWritesOneDocument(store, m, freshId, query, write);
    assert (e.store - {e.movie.id}).Keys == store.Keys;
  }

  // ---------------------------------------------------------------------------------------
  // updateMovie / updateMovieData

  /** updateMovieData always overwrites title, genre and year and keeps the id; it writes the
      document named by the id only for a valid result and otherwise refuses with
      "Invalid Movie!", leaving the stored document as it was. */
  lemma UpdateDataOverwrites(store: Store, m: MovieRecord, title: string, genre: string, year: Int32, write: WriteResult)
    ensures var e := UpdateMovieDataEffect(store, m, title, genre, year, write);
      && e.movie == MovieRecord(m.id, title, genre, year)
      && ValidMovie(e.movie, m.id) == HasContent(e.movie)
      && (!HasContent(e.movie) ==> e.outcome == Failure(InvalidMovie) && e.store == store)
      && (HasContent(e.movie) && write.WriteSucceeded? ==> e.outcome == Success && e.store == store[m.id := e.movie])
      && (HasContent(e.movie) && write.WriteFailed? ==>
            e.outcome == Failure(UpdateFailedPrefix + write.reason) && e.store == store)
  {
  }

  /** With the title unchanged the title query plays no part. */
  lemma UpdateSameTitleSkipsCheck(store: Store, m: MovieRecord, genre: string, year: Int32,
                                  q1: QueryResult, q2: QueryResult, write: WriteResult)
    ensures UpdateMovieEffect(store, m, m.title, genre, year, q1, write) ==
            UpdateMovieEffect(store, m, m.title, genre, year, q2, write)
    ensures UpdateMovieEffect(store, m, m.title, genre, year, q1, write) ==
            UpdateMovieDataEffect(store, m, m.title, genre, year, write)
  {
  }

  /** A new title that another document already holds is refused with the duplicate-title
      message, and neither the movie object nor the collection changes. */
  lemma UpdateDuplicateTitle(store: Store, m: MovieRecord, title: string, genre: string, year: Int32,
                             ids: seq<string>, write: WriteResult, other: string)
    requires m.title != title
    requires Answers(store, title, ids)
    requires other in store && other != m.id && store[other].title == title
    ensures UpdateMovieEffect(store, m, title, genre, year, QueryAnswered(ids), write) ==
            Effect(Failure(DuplicateTitle), m, store)
  {
    UniqueWithCurrentId(store, title, ids, m.id);
  }

  /** A new title that only the movie itself (or no document) holds goes on to updateMovieData. */
  lemma UpdateNewUniqueTitle(store: Store, m: MovieRecord, title: string, genre: string, year: Int32,
                             ids: seq<string>, write: WriteResult)
    requires m.title != title
    requires Answers(store, title, ids)
    requires forall k :: k in store && store[k].title == title ==> k == m.id
    ensures UpdateMovieEffect(store, m, title, genre, year, QueryAnswered(ids), write) ==
            UpdateMovieDataEffect(store, m, title, genre, year, write)
  {
    UniqueWithCurrentId(store, title, ids, m.id);
  }

  // ---------------------------------------------------------------------------------------
  // Invariants of the collection

  /** An add either leaves the collection alone or writes its valid movie, with the new id,
      under that id after the title was found unique. */
  lemma AddWritesAtMostItsMovie(store: Store, m: MovieRecord, freshId: string, query: QueryResult, write: WriteResult)
    ensures var e := AddMovieEffect(store, m, freshId, query, write);
      || e.store == store
      || (&& TitleIsUnique(query, None) && e.movie == m.(id := freshId) && ValidMovie(e.movie, freshId)
          && e.store == store[freshId := e.movie])
  {
  }

  /** An update either leaves the collection alone or writes its valid updated movie under the
      movie's id, and a changed title was found unique first. */
  lemma UpdateWritesAtMostItsMovie(store: Store, m: MovieRecord, title: string, genre: string, year: Int32,
                                   query: QueryResult, write: WriteResult)
    ensures var e := UpdateMovieEffect(store, m, title, genre, year, query, write);
      || e.store == store
      || (&& (m.title != title ==> TitleIsUnique(query, Some(m.id)))
          && e.movie == MovieRecord(m.id, title, genre, year) && ValidMovie(e.movie, m.id)
          && e.store == store[m.id := e.movie])
  {
  }

  lemma WriteKeepsConsistency(store: Store, key: string, r: MovieRecord)
    requires StoreConsistent(store) && ValidMovie(r, key)
    ensures StoreConsistent(store[key := r])
  {
  }

  lemma WriteKeepsDistinctTitles(store: Store, key: string, r: MovieRecord)
    requires DistinctTitles(store)
    requires forall k :: k in store && k != key ==> store[k].title != r.title
    ensures DistinctTitles(store[key := r])
  {
    var s := store[key := r];
    forall k, j | k in s && j in s && s[k].title == s[j].title ensures k == j {
      if k != key && j != key {
        assert s[k] == store[k] && s[j] == store[j];
      }
    }
  }

  /** Only movies that pass validMovie against their own document id are ever written, so a
      collection in which every document does is kept that way by add, update and delete. */
  lemma OperationsPreserveConsistency(store: Store, m: MovieRecord, title: string, genre: string, year: Int32,
                                      freshId: string, query: QueryResult, write: WriteResult)
    requires StoreConsistent(store)
    ensures StoreConsistent(AddMovieEffect(store, m, freshId, query, write).store)
    ensures StoreConsistent(UpdateMovieEffect(store, m, title, genre, year, query, write).store)
    ensures StoreConsistent(store - {m.id})
  {
    var a := AddMovieEffect(store, m, freshId, query, write);
    AddWritesAtMostItsMovie(store, m, freshId, query, write);
    if a.store != store {
      WriteKeepsConsistency(store, freshId, a.movie);
    }
    var u := UpdateMovieEffect(store, m, title, genre, year, query, write);
    UpdateWritesAtMostItsMovie(store, m, title, genre, year, query, write);
    if u.store != store {
      WriteKeepsConsistency(store, m.id, u.movie);
    }
  }

  /** While the title query is answered, an add never creates a second document with a title
      already in use. */
  lemma AddPreservesDistinctTitles(store: Store, m: MovieRecord, freshId: string, ids: seq<string>, write: WriteResult)
    requires DistinctTitles(store)
    requires Answers(store, m.title, ids)
    ensures DistinctTitles(AddMovieEffect(store, m, freshId, QueryAnswered(ids), write).store)
  {
    var e := AddMovieEffect(store, m, freshId, QueryAnswered(ids), write);
    AddWritesAtMostItsMovie(store, m, freshId, QueryAnswered(ids), write);
    if e.store != store {
      UniqueWithoutCurrentId(store, m.title, ids);
      WriteKeepsDistinctTitles(store, freshId, e.movie);
    }
  }

  /** While the title query is answered and the movie object carries the title of its stored
      document, an update never creates a second document with a title already in use. */
  lemma UpdatePreservesDistinctTitles(store: Store, m: MovieRecord, title: string, genre: string, year: Int32,
                                      ids: seq<string>, write: WriteResult)
    requires DistinctTitles(store)
    requires InSync(store, m)
    requires Answers(store, title, ids)
    ensures DistinctTitles(UpdateMovieEffect(store, m, title, genre, year, QueryAnswered(ids), write).store)
  {
    var e := UpdateMovieEffect(store, m, title, genre, year, QueryAnswered(ids), write);
    UpdateWritesAtMostItsMovie(store, m, title, genre, year, QueryAnswered(ids), write);
    if e.store != store {
      if m.title != title {
        UniqueWithCurrentId(store, title, ids, m.id);
      } else {
        forall k | k in store && k != m.id ensures store[k].title != title {
          assert store[m.id].title == title;
        }
      }
      WriteKeepsDistinctTitles(store, m.id, e.movie);
    }
  }

  /** Deleting a document keeps titles distinct. */
  lemma DeletePreservesDistinctTitles(store: Store, id: string)
    requires DistinctTitles(store)
    ensures DistinctTitles(store - {id})
  {
  }

  // ---------------------------------------------------------------------------------------
  // Where the rules let a duplicate title through

  /** Because a failed title query counts as unique, an add can store a second movie with a
      title already in use. */
  lemma FailedQueryAdmitsDuplicate()
    ensures var old1 := MovieRecord("a", "Oppenheimer", "Drama", 2023);
            var store := map["a" := old1];
            var m := MovieRecord("", "Oppenheimer", "Thriller", 2023);
            var e := AddMovieEffect(store, m, "b", QueryFailed, WriteSucceeded);
            && DistinctTitles(store)
            && e.outcome == Success
            && !DistinctTitles(e.store)
  {
    var old1 := MovieRecord("a", "Oppenheimer", "Drama", 2023);
    var store := map["a" := old1];
    var m := MovieRecord("", "Oppenheimer", "Thriller", 2023);
    var e := AddMovieEffect(store, m, "b", QueryFailed, WriteSucceeded);
    assert e.store == store["b" := m.(id := "b")];
    assert "a" in e.store && "b" in e.store && e.store["a"].title == e.store["b"].title;
  }

  /** Because the unchanged-title shortcut compares with the movie object and not with its
      stored document, a stale object can write a title that another document holds even
      when the title query would have been answered. */
  lemma StaleObjectAdmitsDuplicate(ids: seq<string>)
    ensures var store := map["a" := MovieRecord("a", "Oppenheimer", "Drama", 2023),
                             "b" := MovieRecord("b", "Barbie", "Comedy", 2023)];
            var stale := MovieRecord("b", "Oppenheimer", "Comedy", 2023);
            var e := UpdateMovieEffect(store, stale, "Oppenheimer", "Comedy", 2023, QueryAnswered(ids), WriteSucceeded);
            && DistinctTitles(store)
            && e.outcome == Success
            && !DistinctTitles(e.store)
  {
    var store := map["a" := MovieRecord("a", "Oppenheimer", "Drama", 2023),
                     "b" := MovieRecord("b", "Barbie", "Comedy", 2023)];
    var stale := MovieRecord("b", "Oppenheimer", "Comedy", 2023);
    var e := UpdateMovieEffect(store, stale, "Oppenheimer", "Comedy", 2023, QueryAnswered(ids), WriteSucceeded);
    assert store["a"].title != store["b"].title;
    assert e.store == store["b" := stale];
    assert "a" in e.store && "b" in e.store && e.store["a"].title == e.store["b"].title;
  }

  /** The provider itself leaves a movie object out of step with its stored document: an update
      refused by validMovie keeps the new title on the object. Once another movie is added
      under that title, a second update of the stale object sees no title change, skips the
      check and writes a duplicate title, although every title query was answered. */
  lemma RefusedUpdateThenDuplicate()
    ensures var store0 := map["b" := MovieRecord("b", "Barbie", "Comedy", 2023)];
            var b := store0["b"];
            var e1 := UpdateMovieEffect(store0, b, "X", "", 2023, QueryAnswered([]), WriteSucceeded);
            var e2 := AddMovieEffect(e1.store, MovieRecord("", "X", "Drama", 2023), "a", QueryAnswered([]), WriteSucceeded);
            var e3 := UpdateMovieEffect(e2.store, e1.movie, "X", "Comedy", 2023, QueryAnswered(["a"]), WriteSucceeded);
            && DistinctTitles(store0) && InSync(store0, b)
            && Answers(store0, "X", []) && e1.outcome == Failure(InvalidMovie)
            && e1.store == store0 && !InSync(e1.store, e1.movie)
            && Answers(e1.store, "X", []) && e2.outcome == Success
            && Answers(e2.store, "X", ["a"]) && e3.outcome == Success
            && !DistinctTitles(e3.store)
  {
    var store0 := map["b" := MovieRecord("b", "Barbie", "Comedy", 2023)];
    var b := store0["b"];
    var e1 := UpdateMovieEffect(store0, b, "X", "", 2023, QueryAnswered([]), WriteSucceeded);
    assert e1 == Effect(Failure(InvalidMovie), MovieRecord("b", "X", "", 2023), store0);
    var e2 := AddMovieEffect(e1.store, MovieRecord("", "X", "Drama", 2023), "a", QueryAnswered([]), WriteSucceeded);
    var s2 := store0["a" := MovieRecord("a", "X", "Drama", 2023)];
    assert e2.store == s2;
    assert forall k :: k in s2 && s2[k].title == "X" ==> k == "a";
    var e3 := UpdateMovieEffect(e2.store, e1.movie, "X", "Comedy", 2023, QueryAnswered(["a"]), WriteSucceeded);
    assert e3.store == s2["b" := MovieRecord("b", "X", "Comedy", 2023)];
    assert "a" in e3.store && "b" in e3.store && e3.store["a"].title == e3.store["b"].title;
  }
}
