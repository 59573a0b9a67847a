# Filmoteka core in Dafny

A model of the core of the filmoteka movie service (`main.go`). The service keeps
movies, actors and a `movie_actors` join table in PostgreSQL. The model covers
three parts of it:

- **Listing-query construction** (`QueryBuilder`). `buildQuery` assembles the SQL text
  and the positional argument list for the movie listing. `getMovies` chooses the
  filter: `title` first, then `actor`, then none. Both are pure functions here.
  They return the text and the arguments the source would hand to `db.Prepare` and
  `stmt.Query`.
- **Repository writes** (`Repository.Store`). `addActor`, `updateActor`, `deleteActor`,
  `addMovie`, `updateMovie` and `deleteMovie` become methods of a class. The class
  holds the `actors` and `movies` tables as id-to-row maps and `movie_actors` as a
  sequence of rows in storage order. Two counters stand in for the ids that
  `RETURNING id` hands back.
  - Each SQL statement is modelled by its effect on those fields.
  - Storage failure is an input: `failAt` is the index of the first statement the
    store rejects.
  - As in the source, a call returns at the first failure. Earlier statements stay
    applied because there is no transaction.
  - Deletes never touch `movie_actors`.
  - An UPDATE or DELETE whose id matches no row is not an error.
- **Relationship loading** (`Repository.Store.LoadActorsOf`, `LoadMoviesOf`, `GetMovies`,
  `GetActors`). These are the nested loops of `getMovies` and `getActors`.
  - They follow the join rows in order and look each partner up by id.
  - Each partner gets its scalar columns only: its id stays 0 and its own nested
    list stays empty.
  - A failed lookup fails the whole listing, and no partial list is returned.

The pure specification of the join table is in `Associations`: the rows one movie
or one actor selects, the delete by movie, the inserted rows, and delete-then-reinsert.
Its lemmas state what the repository's statements do to the table:
- replacing a movie's rows is exhaustive and idempotent;
- rows of other movies are kept;
- selection follows storage order.

`Repository.StaleRowsAdoptedByNewMovie` records a consequence of running the
join-table statements of `updateMovie` even when no movie row matched. Join rows
can then name a movie id that has not been assigned yet. The method runs
`UpdateMovie` on the next id to be assigned and then `AddMovie` with no actors.
The new movie receives that id and inherits the rows, so it reads back with the
update's actors. This holds only if the schema has no foreign key from
`movie_actors.movie_id` to `movies`. Such a key would make the insert at
main.go:157 fail, and the schema is not part of the source.
`Repository.CreateThenRead` proves the create-then-read round trip only when no
join row names the id about to be assigned. There, "reads back" means the stored
row together with `LoadActorsOf` on its id. The only listing path, `getMovies`,
joins `movie_actors` (main.go:362-363), so it never lists a movie that has no
join rows.

The sort column comes from the raw `sort_by` URL parameter (main.go:486) and is
copied into the query text (main.go:354). Without a `$` in it, the query holds one
placeholder per argument. A sort column such as `$2` adds a second `$` to a query
that still has only one argument (`QueryBuilder.DollarInSortColumnAddsPlaceholder`).

The model follows the code as written, including where a safer design would differ:
- the sort column is inserted verbatim, with no allow-list;
- deletes do not cascade to `movie_actors`;
- multi-statement writes run without a transaction;
- `sortOrder` other than exactly `desc` (including `DESC`) sorts ascending.

## Model

| member | source | states |
|---|---|---|
| QueryBuilder.Where | main.go:346-350 | no column gives no WHERE text and no argument; a column gives exactly `WHERE <column> ILIKE $1` and the single argument `%value%` |
| QueryBuilder.Order | main.go:352-359 | the text starts `ORDER BY `; it continues with `name` when the sort column is empty and with the caller's sort column verbatim otherwise; it ends in ` DESC` when the order is `desc`; its length pins down that nothing else is added |
| QueryBuilder.BuildQuery | main.go:342-364 | the query is the fixed SELECT-with-two-JOINs prefix, the WHERE text, a space and the ORDER BY text; the arguments are the WHERE clause's arguments, at most one |
| QueryBuilder.ListingFilter | main.go:193-199 | a non-empty title selects column `name` with the title; otherwise a non-empty actor selects `actor_name`; otherwise there is no filter |
| QueryBuilder.Decimal | main.go:348 | the placeholder number is rendered as decimal digits with no leading zero |
| QueryBuilder.DecimalRoundTrip | main.go:348 | reading the rendered placeholder number back gives the number |
| QueryBuilder.WherePlaceholders | main.go:346-350 | the WHERE text holds exactly as many `$` placeholders as arguments it adds |
| QueryBuilder.PlaceholdersMatchArgs | main.go:346-363 | when neither the filter column nor the sort column contains `$`, the whole query holds exactly one placeholder per argument |
| QueryBuilder.MoviesQueryPlaceholders | main.go:193-199 | the query `getMovies` builds has one placeholder per argument whenever the sort column holds no `$` |
| QueryBuilder.FilterValueNotInText | main.go:346-363 | the query text does not depend on the filter value, which travels only as an argument |
| QueryBuilder.OnlyLowerCaseDescSortsDescending | main.go:357-359 | every order other than exactly `desc` gives the same ascending text; `desc` appends ` DESC` to it |
| QueryBuilder.DefaultSortIsName | main.go:352-359 | with no sort column the order is `ORDER BY name`, plus ` DESC` for `desc` |
| QueryBuilder.SortByCopiedVerbatim | main.go:353-355 | a non-empty sort column appears verbatim in the query text right after `ORDER BY ` |
| QueryBuilder.SortDirectionInjectable | main.go:352-359 | for every non-empty sort column `c` and every order other than `desc`, sort column `c DESC` yields the same ORDER BY text as column `c` with order `desc` |
| QueryBuilder.OrderPlaceholders | main.go:352-359 | the ORDER BY text holds exactly the `$` signs of the sort column, and no others |
| QueryBuilder.QueryPlaceholders | main.go:346-363 | for a filter column without `$`, the query's `$` count is the number of arguments plus the `$` count of the sort column |
| QueryBuilder.DollarInSortColumnAddsPlaceholder | main.go:353-355 | with the title filter and sort column `$2`, the query holds two `$` signs but only one argument |
| QueryBuilder.MoviesQuery | main.go:193-199 | a non-empty title gives the listing prefix, `WHERE name ILIKE $1`, the ORDER BY text and the argument `%title%`; otherwise a non-empty actor gives the same with `actor_name`; otherwise the prefix, a space, the ORDER BY text and no argument |
| QueryBuilder.TitleTakesPrecedence | main.go:193-194 | with a non-empty title the actor parameter does not affect the query, and the only argument is `%title%` |
| QueryBuilder.NoFilterWithoutParameters | main.go:197-198 | with neither title nor actor the query has no WHERE text and no arguments |
| Entities.PartnerActor | main.go:244-260 | a loaded actor carries exactly the scanned row's columns, id 0 and no movies |
| Entities.PartnerMovie | main.go:316-333 | a loaded movie carries exactly the scanned row's columns, id 0 and no actors |
| Associations.ActorsLinkedTo | main.go:226-236 | the selected actor ids are exactly the actors of the movie's join rows |
| Associations.MoviesLinkedTo | main.go:298-308 | the selected movie ids are exactly the movies of the actor's join rows |
| Associations.WithoutMovie | main.go:139-148 | after the delete, the rows left are exactly the rows of other movies |
| Associations.LinkRows | main.go:107-117 | one row per listed actor, in list order, duplicates kept |
| Associations.ActorsLinkedToAppend | main.go:225-261 | a movie's actors follow the storage order of the join rows |
| Associations.MoviesLinkedToAppend | main.go:297-334 | an actor's movies follow the storage order of the join rows |
| Associations.WithoutMovieAppend | main.go:139-148 | deleting a movie's rows keeps the other rows in their order |
| Associations.UnlinkedMovieHasNoActors | main.go:225-236 | a movie no join row names loads no actors |
| Associations.ActorsLinkedToRows | main.go:150-161 | the rows inserted for a movie give it exactly the listed actors, in order, and give no other movie any |
| Associations.ActorsLinkedToWithout | main.go:139-148 | after the delete the movie has no actors and every other movie keeps its actors |
| Associations.ReplaceLinks | main.go:139-161 | after delete-then-reinsert the movie's actors are exactly the payload ids, in order; every other movie's actors and every row of another movie are unchanged |
| Associations.ReplaceIsExhaustive | main.go:139-161 | after delete-then-reinsert the movie's actors are exactly the payload's ids, in order, and other movies' actors are unchanged |
| Associations.ReplaceKeepsOtherRows | main.go:139-161 | delete-then-reinsert keeps the rows of every other movie |
| Associations.WithoutMovieTwice | main.go:139-148 | deleting a movie's rows twice is deleting them once |
| Associations.WithoutMovieOfRows | main.go:139-161 | the delete removes every row just inserted for the movie |
| Associations.ReplaceIsIdempotent | main.go:139-161 | running the same delete-then-reinsert twice leaves the table as running it once |
| Associations.AddedMovieSeenByItsActors | main.go:107-117 | after the movie's rows are inserted, each listed actor lists the movie, after the movies it listed before |
| Repository.Store.AddActor | main.go:36-54 | on success the actor gets a fresh positive id and exactly that row is added; on failure nothing changes; movies and join rows are untouched |
| Repository.Store.UpdateActor | main.go:56-71 | on success only the row with the actor's id is replaced, if present; nothing else changes |
| Repository.Store.DeleteActor | main.go:73-88 | on success only the row with the id is removed; the join rows stay, possibly orphaned |
| Repository.Store.AddMovie | main.go:89-119 | on success the movie gets a fresh id and one join row per payload actor is appended, in order; a failure at statement k keeps the movie row and the first k-1 join rows |
| Repository.Store.UpdateMovie | main.go:121-163 | the scalar row is replaced, not merged, if it exists; the movie's join rows are deleted and the payload's reinserted; on success the table is the replacement; a failure keeps what ran before it |
| Repository.Store.DeleteMovie | main.go:165-180 | on success only the movie row with the id is removed; the join rows stay, possibly orphaned |
| Repository.Store.LoadActorsOf | main.go:225-263 | the load fails exactly when some join row names a missing actor; otherwise it is the loaded actors in join-row order |
| Repository.Store.LoadMoviesOf | main.go:297-336 | the load fails exactly when some join row names a missing movie; otherwise it is the loaded movies in join-row order |
| Repository.Store.GetMovies | main.go:212-267 | the listing fails exactly when some movie's load fails; otherwise it is the listed rows in order, each with its id, columns and loaded actors |
| Repository.Store.GetActors | main.go:285-340 | the listing fails exactly when some actor's load fails; otherwise it is the listed rows in order, each with its id, columns and loaded movies |
| Repository.UpdateTwiceIsUpdateOnce | main.go:121-163 | two identical successful updates leave the tables as one |
| Repository.CreateThenRead | main.go:89-119 | a movie created without actors has its stored row and loads no actors through `LoadActorsOf`, provided no join row already names its id |
| Repository.StaleRowsAdoptedByNewMovie | main.go:121-163 | after `updateMovie` on the next id to be assigned and then `addMovie` with no actors, the new movie gets that id and loads exactly the update's actor ids |
| Repository.GetAllActors | main.go:279-340 | when the outer rows are the whole actors table, a successful listing holds every stored actor exactly once, with its id and stored columns |

## Left out

- HTTP endpoints (main.go:372-537) are not modelled: JSON decoding and encoding, `mux.Vars`, status codes, and the discarded `strconv.ParseInt` errors of the update endpoints. They are marshalling around one core call.
- `connectDB`, `Prepare`, `Exec`, `QueryRow`, `Close`, `defer` and the connection per call are not modelled. Each statement is its effect on the tables. Any failure of its connection, preparation or execution becomes "statement k rejected" through `failAt`.
- `buildQuery`'s `db.Prepare` call (main.go:365-369) and its error are not modelled. `db` is not declared in the file, and preparing is an external call. `BuildQuery` returns the text and arguments that would be prepared.
- SQL evaluation is not modelled. This covers ILIKE matching, ORDER BY evaluation, the join dropping movies without actors, one listing row per (movie, actor) pair, and the ambiguous bare `name`. The rows the outer queries of `getMovies` and `getActors` return are an input to `GetMovies` and `GetActors`. The source's outer `rows.Scan` reads 5 columns of a 9-column listing, and that mismatch is not reproduced.
- Repository.Store.LoadActorsOf: only the missing-row failure of a lookup is modelled. A transient failure of the join-row query or of a scan is not, though it would also abort the listing with no partial list. The same holds for Repository.Store.LoadMoviesOf, Repository.Store.GetMovies and Repository.Store.GetActors. An error that ends a `rows.Next()` loop early is not modelled either. The source never calls `rows.Err()` (main.go:212, 237, 285, 309), so such an error silently cuts the listing short instead of failing it.
- The order of rows a SELECT without ORDER BY returns is taken to be storage order, that is, insertion order.
- Foreign-key and uniqueness constraints of the schema are not modelled, because the schema is not part of the source. A constraint violation appears only as a rejected statement through `failAt`.
- `searchMovies` and `searchActors` are called by endpoints but not defined in the file, so they are not modelled.
- `time.Time` values are opaque. Ids and ratings are unbounded integers, so int64 overflow is not modelled.
- The difference between a nil slice and an empty slice (JSON `null` versus `[]`) is not modelled. Both are the empty sequence.
- Concurrency is not modelled; each call runs alone.
