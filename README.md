# Online-cinema catalog services, modelled in Dafny

This project models the three services at the heart of the online-cinema
backend: the movie catalog (`MovieService`), the genre catalog
(`GenreService`) and the user service (`UserService`). Each service wraps one
document collection. Here each collection is a `seq` of records in the
store's natural order (insertion order), held by a class whose methods
perform the writes. The reads are functions over that sequence.

Files:

- `store.dfy` (module `Store`) holds the shared pieces: document ids, the single
  NotFound error kind, and the three document-store queries the services use.
  `FirstIndex` is `findOne`. `Filter` is `find`, which keeps natural order.
  `SortDesc` is `sort({field: 'desc'})`. It also holds the unique-key predicate
  `DistinctKeys`.
- `movies.dfy` (module `Movies`) holds the queries `byActor`, `byGenres`,
  `bySlug`, `byId` and `getMostPopular`. Its class `MovieService` holds the
  movies, the next fresh id and a ghost `outbox` of the calls made to the
  messaging bot. The class methods model `updateCountOpened`, `updateRating`,
  `create`, `update`, `delete` and `sendNotification`.
- `genres.dfy` (module `Genres`) holds `bySlug`, `byId`, `getAll`,
  `getCollections` and the class `GenreService` with `create`, `update` and
  `delete`.
- `users.dfy` (module `Users`) holds `byId`, `getCount`, `getAll` and the
  favourites toggle as a function. Its class `UserService` models
  `updateProfile`, `delete` and `toggleFavourite`.

Two behaviours of the code are easy to misread, and the model keeps them as written:

- `getCollections` keeps one slot per genre. A genre without movies leaves an
  empty slot (`undefined`), and the slot is not dropped.
- `update` decides whether to announce a movie from the flag in the request
  body, not from the stored movie. The announcement goes out before the id is
  looked up, so an unknown id still announces, and then fails with NotFound.

Outside inputs are parameters. The clock is `now`. bcrypt becomes
`hash(password, salt)` with the salt passed in. A regex search becomes
`matches(term, field)`.

## Model

| member | source | states |
|---|---|---|
| `Store.FirstIndex` | src/movie/movie.service.ts:52 | findOne: the result is None exactly when no document matches; otherwise it is the index of a matching document with no match before it |
| `Store.Filter` | src/movie/movie.service.ts:48 | find: a document is returned iff it is stored and matches, with its stored multiplicity, as a subsequence of the store (natural order kept) |
| `Store.SortDesc` | src/genre/genre.service.ts:43-48 | sort desc: the result is a permutation of the input, ordered by the key from largest to smallest |
| `Movies.ByActor` | src/movie/movie.service.ts:39-45 | never throws, because the `!doc` test on an array is dead; it returns exactly the stored movies whose actors include the id, each as often as it is stored, as a subsequence of the store (natural order kept) |
| `Movies.ByGenres` | src/movie/movie.service.ts:47-49 | returns exactly the movies that share at least one genre with the requested ids, each as often as it is stored, as a subsequence of the store (natural order kept) |
| `Movies.ByGenresOnce` | src/movie/movie.service.ts:47-49 | with unique ids, every matching movie appears exactly once, even when it has several of the requested genres |
| `Movies.ByGenresUnion` | src/movie/movie.service.ts:47-49 | byGenres(ids1 + ids2) returns the union of byGenres(ids1) and byGenres(ids2) |
| `Movies.BySlug` | src/movie/movie.service.ts:51-59 | fails with NotFound("Movies Not Found") iff no movie has the slug; otherwise returns the first movie in natural order with that slug |
| `Movies.MovieService.UpdateCountOpened` | src/movie/movie.service.ts:61-78 | the first movie with the slug gets countOpened + 1 and is returned; no other movie or field changes; an unknown slug gives NotFound("Movie not found") and leaves the store unchanged |
| `Movies.MostPopular` | src/movie/movie.service.ts:80-85 | returns exactly the movies with countOpened > 0, each with its stored multiplicity, in non-increasing countOpened order |
| `Movies.MovieService.UpdateRating` | src/movie/movie.service.ts:87-97 | only the rating of the movie with the id changes, and the updated movie is returned; an absent id returns None (null) and changes nothing |
| `Movies.ById` | src/movie/movie.service.ts:101-107 | fails with NotFound("Movie not found") iff no movie has the id; otherwise returns the stored movie with that id |
| `Movies.MovieService.Create` | src/movie/movie.service.ts:109-122 | appends one blank movie (empty title, slug, posters and video URL, no genres or actors) under an id no stored movie has, and returns that id |
| `Movies.MovieService.SendNotification` | src/movie/movie.service.ts:148-168 | appends the fixed photo, then the message `<b>title</b>` with the fixed link button, to the bot log; the store does not change |
| `Movies.Apply` | src/movie/movie.service.ts:129-131 | findByIdAndUpdate: the written movie carries exactly the body's fields, and keeps its id, rating, view count and creation time |
| `Movies.ApplyLastWins` | src/movie/movie.service.ts:129-131 | a second update replaces everything the first wrote; writing back a movie's own fields leaves it unchanged |
| `Movies.MovieService.Update` | src/movie/movie.service.ts:124-138 | sends one announcement iff the body's flag is false, before the lookup, so also for an unknown id; stores the body's fields with the flag set to true; an unknown id gives NotFound with the store unchanged |
| `Movies.MovieService.Delete` | src/movie/movie.service.ts:139-145 | removes and returns the movie with the id, so the store shrinks by one and no movie keeps that id; an absent id gives NotFound and no change |
| `Genres.BySlug` | src/genre/genre.service.ts:16-22 | fails with NotFound("Genre Not Found") iff no genre has the slug; otherwise returns the first genre in natural order with that slug |
| `Genres.Newest` | src/genre/genre.service.ts:43-48 | getAll() without a search term returns every genre (a permutation of the store) ordered by createdAt, newest first |
| `Genres.GetAll` | src/genre/genre.service.ts:24-49 | sorted newest first; with no search term or an empty one, all genres; otherwise exactly the genres whose name, slug or description matches |
| `Genres.CollectionOf` | src/genre/genre.service.ts:55-64 | the slot is empty iff no movie lists the genre; otherwise it is {genre id, bigPoster of the first such movie in natural order, genre slug, genre name} |
| `Genres.Collections` | src/genre/genre.service.ts:51-69 | one slot per genre, same length and order as getAll(); slot i is the collection of the i-th genre |
| `Genres.CollectionSlot` | src/genre/genre.service.ts:51-69 | slot i belongs to a stored genre; it is empty iff that genre has no movie; a filled slot carries that genre's id, slug and name |
| `Genres.ById` | src/genre/genre.service.ts:73-79 | fails with NotFound("Genre not found") iff no genre has the id; otherwise returns the stored genre with that id |
| `Genres.GenreService.Create` | src/genre/genre.service.ts:81-91 | appends one genre with empty name, slug, description and icon under a fresh id, and returns the id |
| `Genres.Apply` | src/genre/genre.service.ts:94-96 | findByIdAndUpdate: the written genre carries exactly the body's name, slug, description and icon, and keeps its id and creation time |
| `Genres.ApplyLastWins` | src/genre/genre.service.ts:94-96 | a second update replaces everything the first wrote; writing back a genre's own fields leaves it unchanged |
| `Genres.GenreService.Update` | src/genre/genre.service.ts:93-103 | overwrites name, slug, description and icon of the genre with the id and returns it; an absent id gives NotFound and no change |
| `Genres.GenreService.Delete` | src/genre/genre.service.ts:104-110 | removes and returns the genre with the id, so the store shrinks by one; an absent id gives NotFound and no change |
| `Users.ById` | src/user/user.service.ts:14-20 | fails with NotFound("User not found") iff no user has the id; otherwise returns the stored user with that id |
| `Users.UserService.UpdateProfile` | src/user/user.service.ts:22-41 | unknown id gives NotFound("User not found"); an email found on a user with another id gives NotFound("Email is already taken"); both errors save nothing; otherwise the password is rehashed only for a non-empty password, the email is always overwritten, isAdmin only when given (true or false), and nothing else changes; emails stay unique |
| `Users.EmailTaken` | src/user/user.service.ts:24-26 | the check fails exactly when the first user in natural order with that email has a different id |
| `Users.EmailTakenByOther` | src/user/user.service.ts:24-27 | with unique emails, the check fails exactly when another user owns the email |
| `Users.OwnEmailAllowed` | src/user/user.service.ts:24-27 | a user keeping their own email passes the check |
| `Users.NewEmailKeepsUnique` | src/user/user.service.ts:24-34 | writing an email that passed the check to the user keeps emails unique |
| `Users.Count` | src/user/user.service.ts:43-45 | getCount equals the number of distinct users while ids are unique |
| `Users.DistinctIdsCounted` | src/user/user.service.ts:43-45 | with unique ids, the number of documents equals the number of distinct ids |
| `Users.Publics` | src/user/user.service.ts:61 | select('-password'): one entry per user, in store order, each the stored user without its password; every stored user appears and every entry comes from a stored user |
| `Users.GetAll` | src/user/user.service.ts:47-66 | newest first, without passwords; with no search term or an empty one, every user; otherwise exactly the users whose email matches |
| `Users.UserService.Delete` | src/user/user.service.ts:68-70 | removes and returns the user with the id, so the count drops by one; an absent id returns None (null) without throwing |
| `Users.Toggled` | src/user/user.service.ts:78-80 | an absent id is appended at the end; a present id has every copy removed, other entries keep their order and counts; as sets, the result is the old list with the id flipped |
| `Users.ToggleTwice` | src/user/user.service.ts:74-82 | toggling twice restores the set of ids; an absent id restores the list exactly; a present one ends up once, at the end |
| `Users.ToggleTwiceLast` | src/user/user.service.ts:78-80 | when the id occurs only as the last entry, toggling twice restores the list order |
| `Users.ToggleTwiceReorders` | src/user/user.service.ts:78-80 | an id that is not last moves to the end: toggling 1 twice turns [1, 2] into [2, 1] |
| `Users.UserService.ToggleFavourite` | src/user/user.service.ts:74-82 | only the favourites of the stored user with the request user's id change, to the toggle of the request user's list; a missing user changes nothing |

## Left out

- `MovieService.getAll` and `UserService.getFavorites` are not part of this model. They are a listing with a regex search and a two-level `populate` join. The join is database behaviour that is not visible here.
- `populate` joins and `select` projections are treated as the identity. The one exception is the password, which `Users.Publics` removes for `Users.GetAll`.
- Regex search: `new RegExp(searchTerm, 'i')` is the abstract parameter `matches(term, field)`. The model says nothing about what a pattern matches.
- bcrypt `genSalt`/`hash` are the parameters `salt` and `hash`. The model does not claim the new hash differs from the old one or from the plain password.
- Mongoose timestamps: `createdAt` is a plain field set from the `now` parameter. ObjectId generation is a counter (`nextId`), so fresh ids grow.
- Mongoose does not fix the order of equal sort keys. `SortDesc` picks one stable order, and the contracts promise only "sorted and a permutation".
- The telegram service (network calls through Telegraf) is a ghost log of `Photo`/`Message` events. The chat id and the token come from configuration, and the HTML parse mode is fixed in the telegram service; none of the three is recorded. A failed bot call would abort `update` before the database write. Failures are not modelled.
- `async`/`Promise.all` in `getCollections` runs sequentially: the fan-out only reads. `console.log` calls are dropped.
- `String(genre._id)` in a collection entry is the id itself. The model has no textual rendering of ObjectIds.
- `favourites.includes` and the `String(id) !== String(movieId)` filter use one value equality on ids.
- Concurrency and last-writer-wins between requests are out of scope. Every call runs alone.
- The files `create-movie.dto.ts`, `movie.model.ts`, `genre-create.dto.ts` and `update-user.dto.ts` are not part of this model. The update body of a movie is taken to be the seven fields `create()` fills plus `IsSendTelegram`. The stored defaults are taken to be rating 0, countOpened 0 and flag false.
- `Movies.MovieService.Create`, `Movies.MovieService.Update`, `Genres.GenreService.Create`, `Genres.GenreService.Update`: the store's unique index on slug is not modelled, so these writes never fail with a duplicate-key error. Two blank creates leave two documents with the slug "", where the store would reject the second insert; an update to a slug another document holds is not refused either.
- `Movies.MovieService.Update`: the service sets `IsSendTelegram = true` on the request body object itself. The model writes the flag into a copy of the body, so a caller that reuses the body object afterwards is not modelled.
- `Movies.MovieService.Update`: the body's `IsSendTelegram` is taken to be the stored movie's flag. `movie.model.ts` is not part of this model; if the schema spells the field differently, Mongoose's strict mode drops it and the stored flag is not set.
- Email uniqueness is the store's unique index, which `UserService.Valid` assumes. Registration is outside these services, so `UserService` starts from a given list of users.
- The HTTP controllers, guards, validation pipes and module wiring are routing with no behaviour of their own.
