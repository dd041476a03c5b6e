# java_cine_api core, modelled in Dafny

java_cine_api is a Spring Boot service that keeps a local catalog of movies and TV series:
ratings, a wishlist flag, a watched flag, a review and a view count. It enriches that catalog
with metadata fetched from TMDB, which this README calls the Provider. This project models the
core of that service and proves properties about the model:

- the two tables and their finders (`MovieRepository`, `SerieRepository`);
- `MovieService` and `SerieService`: create, upsert from a TMDB id, partial update, remove,
  find one, the three listings, lookup by TMDB id, and search;
- `TmdbService`: how the Provider's answers are normalised;
- `AppController.searchMulti`, and the limit clamp of the movie and series search endpoints;
- `GlobalExceptionHandler`: how each failure becomes an HTTP status and an error body;
- the messages of `ResourceNotFoundException`;
- the bean-validation rules of the two create commands and of the stored record.

## Layout

| file | module | what it holds |
|---|---|---|
| `wrappers.dfy` | `Wrappers` | `Option` |
| `failures.dfy` | `Failures` | the exceptions the core throws, as values, and `Result` |
| `seqs.dfy` | `Seqs` | `limit` and `filter` on sequences |
| `java_text.dfy` | `JavaText` | `String.trim`, `StringUtils.hasText`, `@NotBlank`, `@Size`, SQL `LOWER`/`LIKE`, decimal rendering |
| `resource_not_found.dfy` | `ResourceNotFound` | the four exception constructors |
| `tmdb.dfy` | `Tmdb` | the Provider as an oracle, and `TmdbService` |
| `entities.dfy` | `Entities` | the stored record, its constructors and constraints, its projection |
| `dtos.dfy` | `Dtos` | the commands and the field errors their constraints raise |
| `catalog.dfy` | `Catalog` | class `Table`: the rows, the identity counter, the clock; `save`, `delete`, the finders |
| `reconcile.dfy` | `Reconcile` | the setter chains that fold a command into a record |
| `service_support.dfy` | `ServiceSupport` | what both services share: the search envelope, the bulk lookup |
| `movie_service.dfy` | `MovieService` | `MovieService` |
| `serie_service.dfy` | `SerieService` | `SerieService` |
| `app_controller.dfy` | `AppController` | `/search` and the clamp |
| `exception_handler.dfy` | `ExceptionHandler` | `GlobalExceptionHandler` |

## How the model is built

The table is a class. Its methods `Save` and `Delete` change its fields and state the whole new
state. Its invariant `Valid()` says four things:

- every row is stored under its own id, with valid columns and timestamps in the past;
- tmdbIds are unique;
- ids stay below the identity counter;
- creation stamps grow with the ids.

The finders are functions that read the table.

The service commands (`Create`, `CreateFromTmdb`, `Update`, `Remove`) are methods on a table.
The service queries are functions of the table and the Provider. The Provider is a datatype of
functions. Each function gives the outcome of one HTTP exchange: a transport failure, a null
body, or a decoded body.

A Java exception is an `Err` value, and the handler maps it to its reply.

Movie and series differ where the code differs. `SerieService` builds its answers with
`Map.of`, which throws on a null value and cannot be added to. The model therefore states three
things:

- A series query fails when a record lacks a tmdbId or a rating.
- The TMDB data a series answer would carry never appears.
- A series search fails as soon as one result is not stored locally (`UnknownSeriesFailsSearch`).

Three behaviours of the code a reader may not expect:

- A Provider search page whose result list is null does not give an empty answer. The debug
  log argument in `TmdbService` dereferences the list first, so the call ends in a
  NullPointerException (TmdbService.java:55-56, 84-85 and 122-123).
- Series listings and `findOne` carry neither a poster path nor the TMDB detail, and a null in
  a series search entry fails the whole search (the `Map.of` of SerieService.java:253 and
  320-333).
- `updated_at` moves only when a user column changed, not on every save (`@UpdateTimestamp`
  on a clean entity, Serie.java:56-58).

## Model

| member | source | states |
|---|---|---|
| JavaText.Trim | src/main/java/com/example/java_cine_api/service/MovieService.java:215 | the result is empty exactly when every char is at most U+0020; otherwise it starts and ends with a char above U+0020 and is no longer than the input |
| JavaText.TrimCutsAround | src/main/java/com/example/java_cine_api/service/MovieService.java:215 | the trimmed query is a contiguous slice of the input, and every char cut before or after it is at most U+0020 |
| JavaText.TrimIdempotent | src/main/java/com/example/java_cine_api/service/SerieService.java:215 | trimming a trimmed query changes nothing |
| JavaText.NotBlankIsTrimmedNonEmpty | src/main/java/com/example/java_cine_api/entity/Serie.java:26 | `@NotBlank`, stated as "not null and holding a char above U+0020", holds exactly when the value is not null and `trim` leaves something |
| JavaText.HasTextAndNotBlankDiffer | src/main/java/com/example/java_cine_api/service/SerieService.java:276 | `hasText`, which guards the title setter, and `@NotBlank`, which validates the title, disagree in both directions (U+0001 and U+2000) |
| JavaText.HasTextImpliesNotBlank | src/main/java/com/example/java_cine_api/service/SerieService.java:297-299 | on text without the C0 controls that `trim` removes but Java does not call whitespace, an update title with text passes `@NotBlank` |
| JavaText.Lower | src/main/java/com/example/java_cine_api/repository/SerieRepository.java:50 | same length, each char lower-cased |
| JavaText.LikeContains | src/main/java/com/example/java_cine_api/repository/SerieRepository.java:50-51 | for a wildcard-free title, `LIKE '%t%'` holds exactly when t occurs in the text |
| JavaText.DecimalRoundTrip | src/main/java/com/example/java_cine_api/exception/ResourceNotFoundException.java:14 | reading back the `%d` rendering of n gives n |
| JavaText.DecimalInjective | src/main/java/com/example/java_cine_api/exception/ResourceNotFoundException.java:14 | distinct integers render differently |
| Seqs.Take | src/main/java/com/example/java_cine_api/controller/AppController.java:72-74 | `limit(n)` keeps the first min(n, length) elements |
| Seqs.Filter | src/main/java/com/example/java_cine_api/service/TmdbService.java:116-118 | keeps exactly the elements that pass, and nothing else |
| Seqs.FilterAppend | src/main/java/com/example/java_cine_api/service/TmdbService.java:116-118 | filtering distributes over concatenation, so kept items stay in order |
| ResourceNotFound.WithMessage | src/main/java/com/example/java_cine_api/exception/ResourceNotFoundException.java:5-7 | a not-found failure carrying the message |
| ResourceNotFound.WithCause | src/main/java/com/example/java_cine_api/exception/ResourceNotFoundException.java:9-11 | the cause does not change the message |
| ResourceNotFound.ById | src/main/java/com/example/java_cine_api/exception/ResourceNotFoundException.java:13-15 | message "<type> avec l'ID <id> introuvable" |
| ResourceNotFound.ByExternalId | src/main/java/com/example/java_cine_api/exception/ResourceNotFoundException.java:17-19 | message "<type> avec l'<idType> <tmdbId> introuvable" |
| ResourceNotFound.ByIdIsByExternalIdNamedId | src/main/java/com/example/java_cine_api/exception/ResourceNotFoundException.java:13-19 | the (type, id) message is the (type, id, idType) message with idType "ID" |
| ResourceNotFound.ByIdInjective | src/main/java/com/example/java_cine_api/exception/ResourceNotFoundException.java:13-15 | two ids of the same type never share a message |
| Tmdb.NormaliseSearch | src/main/java/com/example/java_cine_api/service/TmdbService.java:38-62 | a transport failure becomes a TMDB failure with the fixed message; a null body is returned as null; a page without a result list fails with a NullPointerException; otherwise the page unchanged (movies at 38-62, series at 67-91) |
| Tmdb.SearchMovies | src/main/java/com/example/java_cine_api/service/TmdbService.java:38-62 | the Provider's movie search page: a transport failure gives the movie search message, a null body gives null, a page without a result list a NullPointerException, otherwise that page |
| Tmdb.SearchSeries | src/main/java/com/example/java_cine_api/service/TmdbService.java:67-91 | the same for the tv search page, with the series search message |
| Tmdb.SearchMulti | src/main/java/com/example/java_cine_api/service/TmdbService.java:96-129 | the same three outcomes, each an if-and-only-if; a page with results keeps every other field and only its "movie" and "tv" items, in order |
| Tmdb.SearchMultiKeepsMoviesAndSeries | src/main/java/com/example/java_cine_api/service/TmdbService.java:114-120 | every item returned is a movie or a series |
| Tmdb.MovieDetails | src/main/java/com/example/java_cine_api/service/TmdbService.java:134-155 | succeeds exactly on a body and returns it; a null body is a TMDB failure naming the id; a transport failure is a TMDB failure with the fixed message |
| Tmdb.SerieDetails | src/main/java/com/example/java_cine_api/service/TmdbService.java:160-181 | the same for series |
| Tmdb.JoinMovieDetailsAsync | src/main/java/com/example/java_cine_api/service/TmdbService.java:186-188 | `join()` of the async detail gives the same value, or the same failure wrapped in a CompletionException |
| Tmdb.JoinSerieDetailsAsync | src/main/java/com/example/java_cine_api/service/TmdbService.java:193-195 | the same for series |
| Entities.AllArgs | src/main/java/com/example/java_cine_api/entity/Serie.java:68-76 | four fields copied; a null wishlist, viewCount or watched defaults to false, 0 and false; no id and no timestamps |
| Entities.WithTitle | src/main/java/com/example/java_cine_api/entity/Serie.java:61-66 | the seven-argument constructor with every other argument null |
| Entities.EqualsByIdIsIdEquality | src/main/java/com/example/java_cine_api/entity/Serie.java:18-24 | Lombok's id-only equality is id equality, hence an equivalence |
| Entities.ToProjection | src/main/java/com/example/java_cine_api/service/SerieService.java:320-333 | every column carried over; a null review becomes "" |
| Entities.ToProjectionInjective | src/main/java/com/example/java_cine_api/service/MovieService.java:322-335 | a projection determines its record, except that a null and an empty review look alike |
| Dtos.RatingErrors | src/main/java/com/example/java_cine_api/dto/serie/CreateSerieDto.java:16-18 | at most one error; none exactly when the rating is null or in [0, 5]; the below-0 and above-5 messages on exactly their cases |
| Dtos.TitleErrors | src/main/java/com/example/java_cine_api/dto/serie/CreateSerieDto.java:10-12 | none exactly when the title is not blank and at most 255 chars; each message exactly on its violation |
| Dtos.SharedErrors | src/main/java/com/example/java_cine_api/dto/serie/CreateSerieFromTmdbDto.java:13-23 | none exactly when rating, review and viewCount are valid; each message exactly on its violation; only those three fields are named |
| Dtos.CreateDtoErrors | src/main/java/com/example/java_cine_api/dto/serie/CreateSerieDto.java:10-26 | none exactly when the command is valid; each message exactly on its violation |
| Dtos.CreateFromTmdbDtoErrors | src/main/java/com/example/java_cine_api/dto/serie/CreateSerieFromTmdbDto.java:10-28 | none exactly when the command is valid; a missing tmdbId and a long override each raise their message exactly on their violation |
| Dtos.ValidCreateDtoBuildsValidEntity | src/main/java/com/example/java_cine_api/service/SerieService.java:40-48 | a valid create command builds a record that passes the entity's constraints |
| Dtos.BlankOverrideAccepted | src/main/java/com/example/java_cine_api/dto/serie/CreateSerieFromTmdbDto.java:27-28 | a blank or null override is accepted; a missing tmdbId is not |
| Dtos.BlankAndNullTitles | src/main/java/com/example/java_cine_api/dto/serie/CreateSerieDto.java:10-12 | a title of spaces and a null title each raise only "Le titre est obligatoire" |
| Catalog.Table.FindById | src/main/java/com/example/java_cine_api/service/SerieService.java:144-145 | found exactly when a row has that id, and then that row |
| Catalog.Table.FindByTmdbId | src/main/java/com/example/java_cine_api/repository/SerieRepository.java:18 | the one stored row carrying that tmdbId, or nothing when no row carries it |
| Catalog.Table.ExistsByTmdbId | src/main/java/com/example/java_cine_api/repository/SerieRepository.java:23 | agrees with findByTmdbId |
| Catalog.Table.FindByWishlistTrue | src/main/java/com/example/java_cine_api/repository/SerieRepository.java:28 | exactly the wishlisted rows, each once, as stored |
| Catalog.Table.FindByRatingIsNotNull | src/main/java/com/example/java_cine_api/repository/SerieRepository.java:33-34 | exactly the rated rows, each once, as stored |
| Catalog.Table.FindByWatchedTrue | src/main/java/com/example/java_cine_api/repository/SerieRepository.java:39 | exactly the watched rows, each once, as stored |
| Catalog.Table.FindByTmdbIdIn | src/main/java/com/example/java_cine_api/repository/SerieRepository.java:44-45 | exactly the rows whose tmdbId is in the list, each once |
| Catalog.Table.FindByTitleContainingIgnoreCase | src/main/java/com/example/java_cine_api/repository/SerieRepository.java:50-51 | exactly the rows whose lower-cased title matches the lower-cased pattern; nothing for a null title |
| Catalog.TitleLikeIsCaseInsensitiveSubstring | src/main/java/com/example/java_cine_api/repository/SerieRepository.java:50-51 | for a search text without `%` or `_`, a row matches the title finder exactly when it has a title and the lower-cased text occurs in the lower-cased title |
| Catalog.Table.FindAllByOrderByCreatedAtDesc | src/main/java/com/example/java_cine_api/repository/MovieRepository.java:56 | every row once, as stored, with strictly decreasing creation stamps and strictly decreasing ids |
| Catalog.Table.Save | src/main/java/com/example/java_cine_api/entity/Serie.java:21-58 | a constraint violation or a duplicate tmdbId fails and changes nothing; a new entity is stored under the next identity with both stamps; a known one replaces its row, keeping created_at and moving updated_at only on a changed column; the invariant is kept |
| Catalog.Table.Delete | src/main/java/com/example/java_cine_api/service/SerieService.java:205 | removes exactly the entity's row and keeps the invariant |
| Catalog.Stamped | src/main/java/com/example/java_cine_api/entity/Serie.java:21-24 | the inserted row: same columns, the identity id, both stamps at the current clock |
| Catalog.Merged | src/main/java/com/example/java_cine_api/entity/Serie.java:52-58 | same columns and id; created_at kept; updated_at kept exactly when no column changed |
| Catalog.InsertKeepsValid | src/main/java/com/example/java_cine_api/entity/Serie.java:21-32 | inserting a valid, non-clashing entity under the next id keeps the table invariant |
| Catalog.MergeKeepsValid | src/main/java/com/example/java_cine_api/entity/Serie.java:31-58 | replacing a row by a valid, non-clashing version keeps the table invariant |
| Catalog.NewestFirst | src/main/java/com/example/java_cine_api/repository/SerieRepository.java:56 | reversing the rows in id order lists every row with strictly decreasing creation stamps and ids |
| Catalog.SelectedCount | src/main/java/com/example/java_cine_api/service/SerieService.java:126-135 | a selection holds one element per row satisfying its filter, so its size is the number of such rows |
| Catalog.TmdbHits | src/main/java/com/example/java_cine_api/repository/SerieRepository.java:18 | with unique tmdbIds, the rows carrying x number at most one |
| Reconcile.OverlayFromTmdb | src/main/java/com/example/java_cine_api/service/SerieService.java:275-294 | each field takes the command's value when it has text or is non-null, else keeps its own; id, tmdbId and stamps untouched |
| Reconcile.OverlayUpdate | src/main/java/com/example/java_cine_api/service/SerieService.java:296-318 | the same, and a non-null tmdbId replaces the stored one |
| Reconcile.ApplyFromTmdbDto | src/main/java/com/example/java_cine_api/service/MovieService.java:277-296 | the setter chain computes the upsert overlay |
| Reconcile.ApplyUpdateDto | src/main/java/com/example/java_cine_api/service/MovieService.java:298-320 | the setter chain computes the update overlay |
| Reconcile.ChosenTitle | src/main/java/com/example/java_cine_api/service/MovieService.java:75-77 | the override when it has text, else the Provider's title |
| Reconcile.FreshFromTmdb | src/main/java/com/example/java_cine_api/service/MovieService.java:79-87 | the seven-argument record with the chosen title and the command's tmdbId |
| Reconcile.OverlayFromTmdbIdempotent | src/main/java/com/example/java_cine_api/service/SerieService.java:275-294 | applying the upsert overlay twice is applying it once |
| Reconcile.OverlayUpdateIdempotent | src/main/java/com/example/java_cine_api/service/SerieService.java:296-318 | applying the update twice is applying it once |
| Reconcile.OverlayFixesFresh | src/main/java/com/example/java_cine_api/service/MovieService.java:75-87 | a record created by the upsert is a fixed point of the same command |
| Reconcile.NullOrBlankUpdateIsIdentity | src/main/java/com/example/java_cine_api/service/SerieService.java:296-318 | an update whose fields are null or blank changes nothing |
| Reconcile.OverlaysAgree | src/main/java/com/example/java_cine_api/service/SerieService.java:275-318 | the two setter chains agree on a command that keeps the tmdbId |
| ServiceSupport.TrimmedQuery | src/main/java/com/example/java_cine_api/service/MovieService.java:215 | "" for null, the trimmed query otherwise; empty exactly when null or all chars at most U+0020 |
| ServiceSupport.Limit | src/main/java/com/example/java_cine_api/service/MovieService.java:239-241 | a negative limit throws IllegalArgumentException with the limit as message; otherwise the first min(limit, length) results |
| ServiceSupport.NonNullIds | src/main/java/com/example/java_cine_api/service/MovieService.java:243-246 | exactly the non-null ids |
| ServiceSupport.ToMapByTmdbId | src/main/java/com/example/java_cine_api/service/MovieService.java:249-250 | succeeds exactly when no tmdbId repeats, else IllegalStateException; each record under its own tmdbId and nothing else |
| ServiceSupport.BulkLookupAgreesWithFinder | src/main/java/com/example/java_cine_api/service/MovieService.java:248-262 | the bulk lookup never meets a repeated key, and tagging through the map gives what findByTmdbId gives |
| ServiceSupport.LocalFor | src/main/java/com/example/java_cine_api/service/MovieService.java:262 | nothing for a null id; otherwise the stored row with that tmdbId, or nothing when no row has it |
| ServiceSupport.Locals | src/main/java/com/example/java_cine_api/service/SerieService.java:243-261 | one bulk lookup gives each result what `findByTmdbId` gives for its tmdbId |
| ServiceSupport.SameKeysNoClash | src/main/java/com/example/java_cine_api/service/MovieService.java:66-72 | re-saving a stored row under its own id and tmdbId is an update that cannot clash |
| ServiceSupport.RepeatedUpsertIsFixed | src/main/java/com/example/java_cine_api/service/MovieService.java:59-93 | a second identical upsert saves the row unchanged, stamps included |
| MovieService.Create | src/main/java/com/example/java_cine_api/service/MovieService.java:37-53 | succeeds exactly when the built record is valid and does not clash, and then inserts it; a valid command with a new or null tmdbId always succeeds; a failure changes nothing |
| MovieService.CreateFromTmdb | src/main/java/com/example/java_cine_api/service/MovieService.java:59-93 | a Provider failure aborts; an existing row is overlaid and merged, otherwise a fresh record is inserted; each succeeds exactly when the record is valid; afterwards findByTmdbId gives the result |
| MovieService.CreateFromTmdbTwice | src/main/java/com/example/java_cine_api/service/MovieService.java:59-93 | a successful upsert stores its record under the record's id and nothing else; repeating it, against any Provider, stores nothing new and returns the same record unless that fetch fails, in which case its failure is returned |
| MovieService.Update | src/main/java/com/example/java_cine_api/service/MovieService.java:183-194 | an unknown id fails with "Film avec l'ID n introuvable"; otherwise the overlay is merged when valid and not clashing |
| MovieService.Remove | src/main/java/com/example/java_cine_api/service/MovieService.java:199-208 | an unknown id fails and changes nothing; otherwise that row is deleted and returned |
| MovieService.FindOne | src/main/java/com/example/java_cine_api/service/MovieService.java:141-161 | fails exactly on an unknown id; the projection of the row, with the whole Provider detail attached exactly when the row has a tmdbId and the Provider returns a body |
| MovieService.EnrichOne | src/main/java/com/example/java_cine_api/service/MovieService.java:340-363 | the projection, with a poster path attached exactly when the row has a tmdbId and the detail arrives |
| MovieService.EnrichPosterPath | src/main/java/com/example/java_cine_api/service/MovieService.java:340-363 | every record enriched, in the input order, and nothing fails |
| MovieService.ProjectedListShows | src/main/java/com/example/java_cine_api/service/MovieService.java:340-363 | enriching a selection whose ids differ shows exactly the selected rows, each once, keeping their ids in place |
| MovieService.FindAll | src/main/java/com/example/java_cine_api/service/MovieService.java:98-107 | shows every row exactly once, enriched, newest first |
| MovieService.FindWishlist | src/main/java/com/example/java_cine_api/service/MovieService.java:112-121 | shows exactly the wishlisted rows, each once, in ascending id order |
| MovieService.FindRated | src/main/java/com/example/java_cine_api/service/MovieService.java:126-135 | shows exactly the rated rows, each once, in ascending id order; the total is the number of rated rows |
| MovieService.FindByTmdbIdWithTmdbDetails | src/main/java/com/example/java_cine_api/service/MovieService.java:168-178 | succeeds exactly on a detail body, else the Provider's failure; local is present exactly when a row has that tmdbId, and is that row |
| MovieService.Tag | src/main/java/com/example/java_cine_api/service/MovieService.java:252-265 | one entry per result, each reporting the Provider fields and the stored row with its tmdbId |
| MovieService.Hit | src/main/java/com/example/java_cine_api/service/MovieService.java:253-263 | the entry carries the Provider's fields and the local row |
| MovieService.Answer | src/main/java/com/example/java_cine_api/service/MovieService.java:239-272 | a negative limit fails with IllegalArgumentException; otherwise the first min(limit, n) results are tagged, with total equal to their number |
| MovieService.Search | src/main/java/com/example/java_cine_api/service/MovieService.java:214-273 | a blank query answers empty without the Provider; a Provider failure propagates; a null page is an empty envelope; otherwise as Answer |
| SerieService.Create | src/main/java/com/example/java_cine_api/service/SerieService.java:37-53 | as MovieService.Create |
| SerieService.CreateFromTmdb | src/main/java/com/example/java_cine_api/service/SerieService.java:59-93 | as MovieService.CreateFromTmdb over series details, titled by the series' name |
| SerieService.CreateFromTmdbTwice | src/main/java/com/example/java_cine_api/service/SerieService.java:59-93 | a successful upsert stores its record under the record's id and nothing else; repeating it, against any Provider, stores nothing new and returns the same record unless that fetch fails, in which case its failure is returned |
| SerieService.Update | src/main/java/com/example/java_cine_api/service/SerieService.java:183-194 | an unknown id fails with "Série avec l'ID n introuvable"; otherwise the overlay is merged when valid and not clashing |
| SerieService.Remove | src/main/java/com/example/java_cine_api/service/SerieService.java:199-208 | an unknown id fails and changes nothing; otherwise that row is deleted and returned |
| SerieService.ConvertSerieToMap | src/main/java/com/example/java_cine_api/service/SerieService.java:320-333 | the projection exactly when no column `Map.of` receives is null, else a NullPointerException |
| SerieService.StoredConversion | src/main/java/com/example/java_cine_api/service/SerieService.java:320-333 | a stored row converts exactly when it has a tmdbId and a rating |
| SerieService.FindOne | src/main/java/com/example/java_cine_api/service/SerieService.java:141-161 | an unknown id fails with its message; a stored row answers its projection, never with TMDB data, exactly when it has a tmdbId and a rating |
| SerieService.EnrichPosterPath | src/main/java/com/example/java_cine_api/service/SerieService.java:338-360 | succeeds exactly when every record converts, and then gives their projections in order without a poster |
| SerieService.ConvertedListShows | src/main/java/com/example/java_cine_api/service/SerieService.java:338-360 | converted projections of a selection whose ids differ show exactly the selected rows, each once |
| SerieService.ListedRows | src/main/java/com/example/java_cine_api/service/SerieService.java:338-360 | a listing succeeds exactly when each selected row has a tmdbId and a rating, and then shows them |
| SerieService.FindAll | src/main/java/com/example/java_cine_api/service/SerieService.java:98-107 | succeeds exactly when every row has a tmdbId and a rating; then every row exactly once, newest first |
| SerieService.FindWishlist | src/main/java/com/example/java_cine_api/service/SerieService.java:112-121 | succeeds exactly when every wishlisted row converts; then exactly those rows, each once, in ascending id order |
| SerieService.FindRated | src/main/java/com/example/java_cine_api/service/SerieService.java:126-135 | succeeds exactly when every rated row has a tmdbId; then exactly those rows, each once, in ascending id order, with the number of rated rows as total |
| SerieService.FindByTmdbIdWithTmdbDetails | src/main/java/com/example/java_cine_api/service/SerieService.java:168-178 | succeeds exactly on a detail body; local is present exactly when a row has that tmdbId |
| SerieService.Entry | src/main/java/com/example/java_cine_api/service/SerieService.java:253-262 | an entry exactly when every Provider field and the local row are non-null, else a NullPointerException |
| SerieService.Entries | src/main/java/com/example/java_cine_api/service/SerieService.java:252-263 | succeeds exactly when every entry does, and then holds them in order |
| SerieService.Tag | src/main/java/com/example/java_cine_api/service/SerieService.java:243-263 | succeeds exactly when every result is complete and stored locally, and each entry reports its result and row |
| SerieService.Answer | src/main/java/com/example/java_cine_api/service/SerieService.java:239-270 | a negative limit fails with IllegalArgumentException; otherwise the first min(limit, n) results, succeeding exactly when each is complete and stored |
| SerieService.Search | src/main/java/com/example/java_cine_api/service/SerieService.java:214-271 | a blank query answers empty; a Provider failure propagates; a null page is an empty envelope; otherwise as Answer |
| SerieService.UnknownSeriesFailsSearch | src/main/java/com/example/java_cine_api/service/SerieService.java:252-263 | a series search fails when one of the first limit results is not stored locally |
| AppController.SafeLimit | src/main/java/com/example/java_cine_api/controller/AppController.java:61 | the limit clamped into 1..50: unchanged inside, 1 below, 50 above |
| AppController.SearchMulti | src/main/java/com/example/java_cine_api/controller/AppController.java:47-81 | a blank query echoes the query and the raw limit with no results; otherwise as Answer on the Provider's multi search with the clamped limit |
| AppController.Answer | src/main/java/com/example/java_cine_api/controller/AppController.java:64-80 | a failure propagates; a null page is empty; otherwise the first min(limit, n) items, total equal to their number |
| AppController.SearchMultiAnswers | src/main/java/com/example/java_cine_api/controller/AppController.java:47-81 | never more than 50 items, each a movie or a series; it fails exactly when the query is not blank and the Provider exchange failed or gave a page without results |
| AppController.ClampedMovieSearchKeepsTheLimit | src/main/java/com/example/java_cine_api/controller/MovieController.java:92-93 | with the clamp in front, the movie search never throws IllegalArgumentException |
| AppController.ClampedSerieSearchKeepsTheLimit | src/main/java/com/example/java_cine_api/controller/SerieController.java:92-93 | the same for the series search |
| ExceptionHandler.ErrorResponse | src/main/java/com/example/java_cine_api/exception/GlobalExceptionHandler.java:21-30 | the body holds the status, error, message, path, method and timestamp given, and no field errors |
| ExceptionHandler.FieldErrorMap | src/main/java/com/example/java_cine_api/exception/GlobalExceptionHandler.java:56-59 | its keys are exactly the failing fields |
| ExceptionHandler.LastErrorWins | src/main/java/com/example/java_cine_api/exception/GlobalExceptionHandler.java:56-59 | a field's entry holds the message of the last error naming it |
| ExceptionHandler.CollectFieldErrors | src/main/java/com/example/java_cine_api/exception/GlobalExceptionHandler.java:56-59 | the `forEach` of puts builds the field-error map |
| ExceptionHandler.Handle | src/main/java/com/example/java_cine_api/exception/GlobalExceptionHandler.java:32-103 | not-found 404, TMDB 503, validation 400 with the field map, illegal argument 400, unknown endpoint 404 with the path, anything else 500 with a fixed message; field errors exactly on validation |
| ExceptionHandler.HandleStatuses | src/main/java/com/example/java_cine_api/exception/GlobalExceptionHandler.java:32-103 | the status is one of 400, 404, 500, 503, and each status holds exactly for its failure kinds |
| ExceptionHandler.GenericRepliesRevealNothing | src/main/java/com/example/java_cine_api/exception/GlobalExceptionHandler.java:94-103 | two unexpected failures get the same reply |
| ExceptionHandler.InvalidCreateDtoReply | src/main/java/com/example/java_cine_api/exception/GlobalExceptionHandler.java:54-70 | an invalid create command is answered 400, with exactly the failing fields as keys |
| ExceptionHandler.InvalidCreateFromTmdbDtoReply | src/main/java/com/example/java_cine_api/exception/GlobalExceptionHandler.java:54-70 | an invalid upsert command is answered 400, with exactly the failing fields as keys |
| ExceptionHandler.CreateDtoFields | src/main/java/com/example/java_cine_api/dto/serie/CreateSerieDto.java:10-26 | a create command's errors name exactly its violated fields |
| ExceptionHandler.CreateFromTmdbDtoFields | src/main/java/com/example/java_cine_api/dto/serie/CreateSerieFromTmdbDto.java:10-28 | an upsert command's errors name exactly its violated fields |
| ExceptionHandler.SharedFields | src/main/java/com/example/java_cine_api/dto/serie/CreateSerieFromTmdbDto.java:13-23 | the shared constraints name exactly rating, review and viewCount when violated |

## Left out

- The network and HTTP: each Provider exchange is an oracle function, so timeouts, retries, URLs and query-string encoding are not modelled. Request routing, CORS and JSON encoding are left out too.
- Concurrency: `parallelStream`, the async detail fetch and its worker pool are read sequentially. The result order is the input order, as the code guarantees. Races between two upserts are not modelled.
- The clock is a counter that advances on each successful save; `LocalDateTime` and its format are not modelled. The handler's timestamp is a string parameter.
- `Float` and `Double` are Dafny `real`, with no rounding.
- `Integer` and `Long` (ids, tmdbIds, view counts, limits) are unbounded Dafny `int`. The core does no arithmetic on them that could overflow, so 32- and 64-bit wrap-around is not modelled.
- Strings are sequences of chars, not UTF-16 units. SQL `LOWER` folds ASCII letters only. `LIKE` has no escape char.
- Row order: the database does not specify the order of its finders, so the model lists rows by ascending id.
- JPA identity: a save returns a value, not a managed object. Aliasing, transactions, flush timing and the persistence context are left out.
- An insert that fails does not consume an identity value.
- Movie.java, the movie commands and the update commands are not part of this model. The model assumes they have the fields and constraints of their series counterparts. No validation is modelled for the update commands.
- Field-error order: the model uses declaration order. Bean validation gives no order, and only the last message per field survives (LastErrorWins).
- Controllers other than `AppController.searchMulti` and the search clamps are left out, as is the info endpoint. The `@Min`/`@Max` on the search limit parameters are not modelled.
- The search entries' constant `"type"` key ("movie" or "serie") is not carried by MovieHit and SerieHit.
- Null elements inside Provider result lists are not modelled.
- DTO fields the core never reads (genres, runtime, counts, pages) are left out.
- MovieService.CreateFromTmdb: requires a non-null tmdbId. `@NotNull` on the command guarantees it before the service runs.
- SerieService.CreateFromTmdb: requires a non-null tmdbId, for the same reason.
- SerieService.FindOne: takes no Provider. Its answer never depends on the detail fetch, because the put into the immutable map throws inside the `try`.
- SerieService.EnrichPosterPath: takes no Provider, and neither do the series listings built on it (SerieService.FindAll, FindWishlist, FindRated). The `put("tmdb", …)` into the immutable map throws inside the `try` and is swallowed, so the detail fetch never changes the answer.
- MovieService.Search: accepts any integer limit and models the negative case as an error. The controllers clamp the limit first (AppController.ClampedMovieSearchKeepsTheLimit).
- SerieService.Search: the same (AppController.ClampedSerieSearchKeepsTheLimit).
- The services' guard for a null result list is unreachable after TmdbService's normalisation, so the model has no branch for it.
- Logging is left out.
