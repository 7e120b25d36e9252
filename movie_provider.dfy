/** The provider and the movie objects it updates in place. The asynchronous callback
    chains of the provider run here as straight-line methods: the title query's result,
    the new document id and the completion of each write are parameters, and the value
    handed to the caller's callback is the method's result. */
module Provider {
  import opened Movies

  /** A movie object, as the provider reads and writes it through its getters and setters. */
  class Movie {
    var id: string
    var title: string
    var genre: string
    var year: Int32

    /** The fields as they would be stored in a document. */
    function Record(): MovieRecord
      reads this
    {
      MovieRecord(id, title, genre, year)
    }
  }

  class MovieProvider {
    /** The remote "movies" collection. */
    var docs: Store
    /** The local list of movies that the snapshot listener keeps filled. */
    var movies: seq<MovieRecord>

    constructor (collection: Store)
      ensures docs == collection && movies == []
    {
      docs := collection;
      movies := [];
    }

    /** checkTitleUniqueness(title, currentMovieId, callback): scans the documents the title
        query found, stops at the first one that is not the current movie, and reports a
        failed query as unique. */
    method CheckTitleUniqueness(title: string, currentId: Option<string>, query: QueryResult) returns (isUnique: bool)
      requires query.QueryAnswered? ==> Answers(docs, title, query.ids)
      ensures isUnique == TitleIsUnique(query, currentId)
      ensures query.QueryFailed? ==> isUnique
      ensures query.QueryAnswered? ==>
                (isUnique <==> forall k :: k in docs && docs[k].title == title ==> currentId == Some(k))
    {
      match query
      case QueryFailed =>
        isUnique := true;
      case QueryAnswered(ids) =>
        isUnique := true;
        var i := 0;
        while i < |ids|
          invariant 0 <= i <= |ids|
          invariant isUnique
          invariant forall j :: 0 <= j < i ==> currentId == Some(ids[j])
        {
          if currentId.None? || ids[i] != currentId.value {
            assert currentId != Some(ids[i]);
            isUnique := false;
            break;
          }
          i := i + 1;
        }
    }

    /** docRef.set(movie): stores the record under `key` when the write completes. */
    method SetDocument(key: string, m: MovieRecord, write: WriteResult, failurePrefix: string) returns (outcome: Outcome)
      modifies this`docs
      ensures Effect(outcome, m, docs) == WriteEffect(old(docs), key, m, write, failurePrefix)
    {
      match write
      case WriteSucceeded =>
        docs := docs[key := m];
        outcome := Success;
      case WriteFailed(reason) =>
        outcome := Failure(failurePrefix + reason);
    }

    /** addMovie(movie, callback). `freshId` is the id of the new document reference. */
    method AddMovie(movie: Movie, freshId: string, query: QueryResult, write: WriteResult) returns (outcome: Outcome)
      requires query.QueryAnswered? ==> Answers(docs, movie.title, query.ids)
      modifies movie, this`docs
      ensures Effect(outcome, movie.Record(), docs) == AddMovieEffect(old(docs), old(movie.Record()), freshId, query, write)
    {
      var isUnique := CheckTitleUniqueness(movie.title, None, query);
      if isUnique {
        movie.id := freshId;
        if ValidMovie(movie.Record(), freshId) {
          outcome := SetDocument(freshId, movie.Record(), write, AddFailedPrefix);
        } else {
          outcome := Failure(InvalidMovie);
        }
      } else {
        outcome := Failure(DuplicateTitle);
      }
    }

    /** updateMovie(movie, title, genre, year, callback). */
    method UpdateMovie(movie: Movie, title: string, genre: string, year: Int32, query: QueryResult, write: WriteResult)
      returns (outcome: Outcome)
      requires query.QueryAnswered? ==> Answers(docs, title, query.ids)
      modifies movie, this`docs
      ensures Effect(outcome, movie.Record(), docs) ==
              UpdateMovieEffect(old(docs), old(movie.Record()), title, genre, year, query, write)
    {
      if movie.title != title {
        var isUnique := CheckTitleUniqueness(title, Some(movie.id), query);
        if isUnique {
          outcome := UpdateMovieData(movie, title, genre, year, write);
        } else {
          outcome := Failure(DuplicateTitle);
        }
      } else {
        outcome := UpdateMovieData(movie, title, genre, year, write);
      }
    }

    /** updateMovieData(movie, title, genre, year, callback): overwrites the object's fields,
        then writes the document named by its id if the result is valid. */
    method UpdateMovieData(movie: Movie, title: string, genre: string, year: Int32, write: WriteResult)
      returns (outcome: Outcome)
      modifies movie, this`docs
      ensures Effect(outcome, movie.Record(), docs) ==
              UpdateMovieDataEffect(old(docs), old(movie.Record()), title, genre, year, write)
    {
      movie.title := title;
      movie.genre := genre;
      movie.year := year;
      var key := movie.id;
      if ValidMovie(movie.Record(), key) {
        outcome := SetDocument(key, movie.Record(), write, UpdateFailedPrefix);
      } else {
        outcome := Failure(InvalidMovie);
      }
    }

    /** deleteMovie(movie): deletes the document named by the movie's id. */
    method DeleteMovie(movie: Movie)
      modifies this`docs
      ensures docs.Keys == old(docs).Keys - {movie.id}
      ensures forall k :: k in docs ==> docs[k] == old(docs)[k]
    {
      docs := docs - {movie.id};
    }

    /** The snapshot listener that listenForUpdates registers, run on one delivery: an error
        is forwarded and the list left alone; otherwise the list is cleared and, when a
        snapshot came, refilled with its documents in order. */
    method HandleSnapshot(event: SnapshotEvent) returns (status: DataStatusCall)
      modifies this`movies
      ensures event.SnapshotFailed? ==> movies == old(movies) && status == DataError(event.message)
      ensures event.NoSnapshot? ==> movies == [] && status == NoCall
      ensures event.Snapshot? ==> movies == event.documents && status == DataUpdated
    {
      if event.SnapshotFailed? {
        status := DataError(event.message);
        return;
      }
      movies := [];
      if event.Snapshot? {
        var i := 0;
        while i < |event.documents|
          invariant 0 <= i <= |event.documents|
          invariant movies == event.documents[..i]
        {
          movies := movies + [event.documents[i]];
          i := i + 1;
        }
        status := DataUpdated;
      } else {
        status := NoCall;
      }
    }
  }

  /** One call of the snapshot listener: `(snapshot, error)` with an error, with neither,
      or with a snapshot whose documents are already turned into movie records. */
  datatype SnapshotEvent = SnapshotFailed(message: string) | NoSnapshot | Snapshot(documents: seq<MovieRecord>)

  /** Which DataStatus callback the listener calls, if any. */
  datatype DataStatusCall = DataUpdated | DataError(message: string) | NoCall
}
