/** The values the movie data-access layer works with, and the rules it applies to them.

    The remote "movies" collection is a map from document id to the stored movie record.
    Each operation of the provider is given here as a pure function from the collection
    (and the local movie object's fields) to an `Effect`: what the caller is told, what the
    local movie object holds afterwards, and what the collection holds afterwards.
    The provider's imperative methods (module Provider) are proved to produce exactly
    these effects, and module MovieProperties proves what the effects promise. */
module Movies {

  /** A Java `int`. */
  newtype Int32 = x: int | -0x8000_0000 <= x < 0x8000_0000

  datatype Option<T> = None | Some(value: T)

  /** The fields of a movie, as read through its getters and as stored in a document. */
  datatype MovieRecord = MovieRecord(id: string, title: string, genre: string, year: Int32)

  /** The "movies" collection: document id to stored movie. */
  type Store = map<string, MovieRecord>

  /** What a `MovieOperationCallback` is told: `onSuccess()` or `onError(message)`. */
  datatype Outcome = Success | Failure(message: string)

  /** The completed query `whereEqualTo("title", title).get()`: either the task failed,
      or it yields the ids of the documents it found, in the order it returns them. */
  datatype QueryResult = QueryFailed | QueryAnswered(ids: seq<string>)

  /** The completion of a `set` of one document. */
  datatype WriteResult = WriteSucceeded | WriteFailed(reason: string)

  /** What one provider operation leaves behind. */
  datatype Effect = Effect(outcome: Outcome, movie: MovieRecord, store: Store)

  const DuplicateTitle: string := "A movie with this title already exists"
  const InvalidMovie: string := "Invalid Movie!"
  const AddFailedPrefix: string := "Failed to add movie: "
  const UpdateFailedPrefix: string := "Failed to update movie: "

  /** The fields validMovie checks besides the id: a title, a genre and a positive year. */
  predicate HasContent(m: MovieRecord)
  {
    m.title != [] && m.genre != [] && m.year > 0
  }

  /** validMovie(movie, docRef): the movie carries the document's id and has content. */
  predicate ValidMovie(m: MovieRecord, docId: string)
  {
    m.id == docId && HasContent(m)
  }

  /** A successful query for `title` returns exactly the documents whose stored title is `title`. */
  predicate Answers(store: Store, title: string, ids: seq<string>)
  {
    && (forall i :: 0 <= i < |ids| ==> ids[i] in store && store[ids[i]].title == title)
    && (forall k :: k in store && store[k].title == title ==> k in ids)
  }

  /** Reference definition of the verdict of checkTitleUniqueness: a failed query counts as
      unique; otherwise every document found must be the current movie itself, and with no
      current id (an add) every document found is a clash. */
  predicate TitleIsUnique(query: QueryResult, currentId: Option<string>)
  {
    match query
    case QueryFailed => true
    case QueryAnswered(ids) => forall i :: 0 <= i < |ids| ==> currentId == Some(ids[i])
  }

  /** Some stored document has this title. */
  predicate TitleTaken(store: Store, title: string)
  {
    exists k :: k in store && store[k].title == title
  }

  /** No two stored documents share a title. */
  predicate DistinctTitles(store: Store)
  {
    forall k, j :: k in store && j in store && store[k].title == store[j].title ==> k == j
  }

  /** Every stored document passes validMovie against its own document id. */
  predicate StoreConsistent(store: Store)
  {
    forall k :: k in store ==> ValidMovie(store[k], k)
  }

  /** The local movie object agrees with its stored document on the title. */
  predicate InSync(store: Store, m: MovieRecord)
  {
    m.id in store && store[m.id].title == m.title
  }

  /** docRef.set(movie) with its success and failure listeners. */
  function WriteEffect(store: Store, key: string, m: MovieRecord, write: WriteResult, failurePrefix: string): Effect
  {
    match write
    case WriteSucceeded => Effect(Success, m, store[key := m])
    case WriteFailed(reason) => Effect(Failure(failurePrefix + reason), m, store)
  }

  /** addMovie(movie, callback), with the title query's result, the id the collection hands
      out for a new document and the completion of the write. */
  function AddMovieEffect(store: Store, m: MovieRecord, freshId: string, query: QueryResult, write: WriteResult): Effect
  {
    if !TitleIsUnique(query, None) then
      Effect(Failure(DuplicateTitle), m, store)
    else
      var withId := m.(id := freshId);
      if ValidMovie(withId, freshId) then WriteEffect(store, freshId, withId, write, AddFailedPrefix)
      else Effect(Failure(InvalidMovie), withId, store)
  }

  /** updateMovieData(movie, title, genre, year, callback). */
  function UpdateMovieDataEffect(store: Store, m: MovieRecord, title: string, genre: string, year: Int32, write: WriteResult): Effect
  {
    var updated := m.(title := title, genre := genre, year := year);
    if ValidMovie(updated, m.id) then WriteEffect(store, m.id, updated, write, UpdateFailedPrefix)
    else Effect(Failure(InvalidMovie), updated, store)
  }

  /** updateMovie(movie, title, genre, year, callback): the title query is consulted only
      when the title differs from the movie object's current title. */
  function UpdateMovieEffect(store: Store, m: MovieRecord, title: string, genre: string, year: Int32,
                             query: QueryResult, write: WriteResult): Effect
  {
    if m.title != title then
      if TitleIsUnique(query, Some(m.id)) then UpdateMovieDataEffect(store, m, title, genre, year, write)
      else Effect(Failure(DuplicateTitle), m, store)
    else
      UpdateMovieDataEffect(store, m, title, genre, year, write)
  }
}
