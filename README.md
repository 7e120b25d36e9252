# MovieProvider, modelled in Dafny

`MovieProvider` is the data-access layer of a small Android app. It sits between the UI and the
Firestore collection `movies`. It adds, updates and deletes `Movie` documents. It checks that
titles are unique before writing. It also keeps a local list of movies that a snapshot listener
refreshes.

This project models those decision rules and proves what they promise.

- `movies.dfy`, module `Movies`: the values.
  - A movie record has an id, a title, a genre and a year. The year is a Java 32-bit `int`.
  - The collection is `map<string, MovieRecord>`, from document id to stored movie.
  - `validMovie` is modelled as the predicate `ValidMovie`.
  - The verdict of `checkTitleUniqueness` has a reference definition, `TitleIsUnique`.
  - Each operation has a pure *effect function*. It gives the callback outcome, the movie
    object's fields afterwards, and the collection afterwards.
- `movie_provider.dfy`, module `Provider`: the classes.
  - `Movie` holds the fields that the setters change.
  - `MovieProvider` holds the collection (`docs`) and the cached list (`movies`).
  - Its methods follow the Java step by step, with the callback chains made sequential.
  - `AddMovie`, `UpdateMovie`, `UpdateMovieData` and `SetDocument` are proved to produce exactly
    their effect function's result. `CheckTitleUniqueness` is proved to return the reference
    verdict `TitleIsUnique`. `DeleteMovie`, `HandleSnapshot` and the constructor state the new
    state directly.
- `movie_properties.dfy`, module `MovieProperties`: lemmas about the effect functions. They cover
  the error messages, when something is written, which fields change, and how the collection's
  invariants are preserved.

The SDK's asynchronous results become parameters:

- the title query's result: failed, or the list of document ids it found;
- the id of the new document reference;
- the completion of each write: succeeded, or failed with a reason;
- each delivery to the snapshot listener.

`Answers(store, title, ids)` states what a successful title query returns: exactly the stored
documents with that title. The methods that run the query require it of their query argument.

Two ways in which the rules let a duplicate title into the collection are proved as concrete
lemmas.

- A failed title query counts as "unique", so an add can store a duplicate title
  (`FailedQueryAdmitsDuplicate`). The source marks this fail-open choice as deliberate.
- `updateMovie` decides whether the title changed by comparing with the local movie object, not
  with the stored document. A stale object can therefore write a title that another document
  holds (`StaleObjectAdmitsDuplicate`). `UpdatePreservesDistinctTitles` shows that titles stay
  distinct when the object agrees with its stored document.
- The provider produces such stale objects itself. `updateMovieData` sets the new fields before
  it validates, so an update that is refused with "Invalid Movie!" or whose write fails leaves
  the object's title out of step with its stored document. `RefusedUpdateThenDuplicate` traces
  this with every title query answered: an update to title "X" with an empty genre is refused,
  another movie titled "X" is then added, and a second update of the same object to "X" skips
  the check and writes a second document titled "X".

`Movie.java` is not part of this model. The record is inferred from the getters and setters the
provider calls. It is assumed to be stored with all four fields.

## Model

| member | source | states |
|---|---|---|
| Movies.ValidMovie | code/app/src/main/java/com/example/androidcicd/movie/MovieProvider.java:152-154 | a movie is valid when its id is the document's id, its title and genre are non-empty and its year is positive |
| Movies.TitleIsUnique | code/app/src/main/java/com/example/androidcicd/movie/MovieProvider.java:160-177 | reference verdict of the uniqueness check: a failed query is unique; otherwise every found document must be the current movie, and every found document is a clash when there is no current id |
| Movies.WriteEffect | code/app/src/main/java/com/example/androidcicd/movie/MovieProvider.java:135-137 | a completed write stores the movie under its key and reports success; a failed write changes nothing and reports the prefix plus the reason |
| Movies.AddMovieEffect | code/app/src/main/java/com/example/androidcicd/movie/MovieProvider.java:129-145 | effect of addMovie: uniqueness check, then the new id is set, then validation, then the write |
| Movies.UpdateMovieDataEffect | code/app/src/main/java/com/example/androidcicd/movie/MovieProvider.java:97-109 | effect of updateMovieData: overwrite title, genre and year, validate against the movie's own id, then write |
| Movies.UpdateMovieEffect | code/app/src/main/java/com/example/androidcicd/movie/MovieProvider.java:81-95 | effect of updateMovie: the uniqueness check runs only when the title differs from the object's title |
| Provider.MovieProvider.constructor | code/app/src/main/java/com/example/androidcicd/movie/MovieProvider.java:18-21 | the provider starts with an empty movie list over the existing collection |
| Provider.MovieProvider.CheckTitleUniqueness | code/app/src/main/java/com/example/androidcicd/movie/MovieProvider.java:160-177 | the scan with its early break returns the reference verdict; a failed query gives unique; for an answered query, unique exactly when every stored document with the title has the current id |
| Provider.MovieProvider.SetDocument | code/app/src/main/java/com/example/androidcicd/movie/MovieProvider.java:103-105 | the write changes the collection and reports exactly as WriteEffect says |
| Provider.MovieProvider.AddMovie | code/app/src/main/java/com/example/androidcicd/movie/MovieProvider.java:129-145 | the outcome, the movie object's new fields and the new collection are those of AddMovieEffect on the old state |
| Provider.MovieProvider.UpdateMovie | code/app/src/main/java/com/example/androidcicd/movie/MovieProvider.java:81-95 | the outcome, the object's new fields and the new collection are those of UpdateMovieEffect on the old state |
| Provider.MovieProvider.UpdateMovieData | code/app/src/main/java/com/example/androidcicd/movie/MovieProvider.java:97-109 | the outcome, the object's new fields and the new collection are those of UpdateMovieDataEffect on the old state |
| Provider.MovieProvider.DeleteMovie | code/app/src/main/java/com/example/androidcicd/movie/MovieProvider.java:147-150 | the document keyed by the movie's id is removed; every other document stays as it was |
| Provider.MovieProvider.HandleSnapshot | code/app/src/main/java/com/example/androidcicd/movie/MovieProvider.java:37-51 | on an error the list is unchanged and the error is forwarded; with no snapshot the list ends empty and no callback runs; with a snapshot the list is exactly its documents in order and onDataUpdated runs |
| MovieProperties.UniqueWithoutCurrentId | code/app/src/main/java/com/example/androidcicd/movie/MovieProvider.java:164-172 | with no current id and an answered query, a title is unique iff no stored document has it |
| MovieProperties.UniqueWithCurrentId | code/app/src/main/java/com/example/androidcicd/movie/MovieProvider.java:164-172 | with a current id and an answered query, a title is unique iff every stored document with it has that id |
| MovieProperties.AddDuplicateTitle | code/app/src/main/java/com/example/androidcicd/movie/MovieProvider.java:141-143 | with an answered title query, adding a title already stored reports exactly "A movie with this title already exists" and changes neither the object nor the collection |
| MovieProperties.AddUniqueTitle | code/app/src/main/java/com/example/androidcicd/movie/MovieProvider.java:131-140 | with a unique title the object takes the new id, so validity depends only on title, genre and year; a valid movie is stored under the new id when the write completes; an invalid one gives "Invalid Movie!" and nothing is written |
| MovieProperties.AddSuccessWritesOneDocument | code/app/src/main/java/com/example/androidcicd/movie/MovieProvider.java:132-136 | a successful add adds exactly one key, the new id, holding the movie; other documents are unchanged; the collection grows by one when the id was new |
| MovieProperties.AddThenAddSameTitle | code/app/src/main/java/com/example/androidcicd/movie/MovieProvider.java:129-145 | after a successful add, a second add with the same title and an answered query is refused as a duplicate |
| MovieProperties.AddThenDelete | code/app/src/main/java/com/example/androidcicd/movie/MovieProvider.java:147-150 | deleting the movie a successful add stored under a new id restores the collection |
| MovieProperties.UpdateDataOverwrites | code/app/src/main/java/com/example/androidcicd/movie/MovieProvider.java:97-108 | updateMovieData always sets title, genre and year and keeps the id; it writes only a valid result; otherwise it reports "Invalid Movie!" and the stored document is unchanged while the object stays changed |
| MovieProperties.UpdateSameTitleSkipsCheck | code/app/src/main/java/com/example/androidcicd/movie/MovieProvider.java:91-94 | with the title unchanged the query result plays no part and updateMovie is updateMovieData |
| MovieProperties.UpdateDuplicateTitle | code/app/src/main/java/com/example/androidcicd/movie/MovieProvider.java:83-90 | with an answered title query, a changed title held by another document reports the duplicate-title error and leaves the object and the collection untouched |
| MovieProperties.UpdateNewUniqueTitle | code/app/src/main/java/com/example/androidcicd/movie/MovieProvider.java:83-86 | a changed title held by no other document proceeds to updateMovieData |
| MovieProperties.AddWritesAtMostItsMovie | code/app/src/main/java/com/example/androidcicd/movie/MovieProvider.java:130-143 | an add either leaves the collection alone or, after a unique verdict, writes its valid movie carrying the new id under that id |
| MovieProperties.UpdateWritesAtMostItsMovie | code/app/src/main/java/com/example/androidcicd/movie/MovieProvider.java:81-109 | an update either leaves the collection alone or writes its valid updated movie under the movie's id, a changed title having been found unique first |
| MovieProperties.OperationsPreserveConsistency | code/app/src/main/java/com/example/androidcicd/movie/MovieProvider.java:97-150 | add, update and delete keep every stored document valid against its own document id |
| MovieProperties.AddPreservesDistinctTitles | code/app/src/main/java/com/example/androidcicd/movie/MovieProvider.java:129-145 | with an answered query, an add keeps titles distinct across the collection |
| MovieProperties.UpdatePreservesDistinctTitles | code/app/src/main/java/com/example/androidcicd/movie/MovieProvider.java:81-109 | with an answered query and an object whose title matches its stored document, an update keeps titles distinct |
| MovieProperties.DeletePreservesDistinctTitles | code/app/src/main/java/com/example/androidcicd/movie/MovieProvider.java:147-150 | a delete keeps titles distinct |
| MovieProperties.FailedQueryAdmitsDuplicate | code/app/src/main/java/com/example/androidcicd/movie/MovieProvider.java:173-176 | because a failed query counts as unique, a concrete add stores a second movie with a title already in use |
| MovieProperties.StaleObjectAdmitsDuplicate | code/app/src/main/java/com/example/androidcicd/movie/MovieProvider.java:83-94 | a concrete stale object whose title matches the new title skips the check and duplicates another document's title |
| MovieProperties.RefusedUpdateThenDuplicate | code/app/src/main/java/com/example/androidcicd/movie/MovieProvider.java:83-108 | a concrete update refused by validMovie leaves the object's new title unstored; after an add of that title, a second update of the object skips the check and duplicates the title, with every query answered |

## Left out

- The Firestore SDK (`CollectionReference`, `DocumentReference`, `Task`, the listeners) is not modelled. Its results are parameters, and the asynchronous ordering and dispatch of callbacks are not modelled.
- Java `null` is not modelled. Ids, titles and genres are always strings. In the source, a movie with a null id makes `updateMovieData`, `deleteMovie` and `validMovie` throw.
- The SDK's exception messages are modelled as an opaque `reason` string, appended to "Failed to add movie: " or "Failed to update movie: ".
- Provider.MovieProvider.DeleteMovie: the source ignores the result of the delete task, so the model assumes that the delete takes effect.
- Provider.MovieProvider.HandleSnapshot: the snapshot's documents are a parameter, already deserialised. The model does not tie them to `docs`, and `toObject` is not modelled.
- The cached list holds movie values, not fresh objects, so aliasing between list entries and movie objects is not modelled.
- The new document id is a parameter. Firestore's random id generation is not modelled, and an id that is already in use would be overwritten as `set` does.
- The overloads without callbacks (MovieProvider.java:64-78 and 112-126) are not modelled. They only wrap the callback versions and throw `IllegalArgumentException` on error.
- The static singleton (`getInstance`, `setInstanceForTesting`) is not modelled. It is global state with no decision logic.
- `getMovies` is not modelled as its own member, because it only returns the list. The model reads the `movies` field.
- The interfaces `DataStatus`, `MovieOperationCallback` and `TitleCheckCallback` become the datatypes `DataStatusCall` and `Outcome` and a boolean result.
