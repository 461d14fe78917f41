# Videojuego catalogue — a verified model of its data and request logic

The modelled system is a small FastAPI + SQLModel web application that keeps
a catalogue of video games ("videojuegos"). Each game has a title (`titulo`), a
developer (`desarrolladora`), an optional release date (`fecha_lanzamiento`) and
a multiplayer flag (`es_multijugador`). The catalogue is served two ways: as
HTML pages and as a JSON API under `/api/videojuegos`. This project models
three layers of the application in Dafny and proves properties about them:

- **Models** (`models.dfy`, from `src/models/videojuego.py`): the record, the
  create, update and response shapes, and the three mappers between them.
- **Repository** (`repository.dfy`, from `src/data/repository_videojuego.py`):
  the data-access object. The table is modelled as a `map<int, Videojuego>`
  from primary key to row, and every query, insert, update and delete becomes a
  pure function on that map. The reads are functions of the table that return
  a list, an `Option` or a `Result`. The three writes (create, update,
  delete) return a `Step`, which holds the new table together with the
  returned value or the raised `ValueError`.
- **Handlers**: the decisions taken by the JSON router (`api.dfy`, from
  `src/routers/api_videojuego_routers.py`) and by the HTML handlers (`web.dfy`,
  from `src/main.py`). These are the 404/201/204 mapping, the search guards and
  the multiplayer dispatch, and the validation done by the create form.

Support modules: `wrappers.dfy` (Option/Result), `dates.dfy` (calendar dates and
their order), `text.dfy` (Python `str.strip`, the lower-casing of SQL `ilike`,
substring search), and `keys.dfy` (ascending key order and the key given to a
new row). `seed.dfy` holds the four sample rows that `src/data/db.py` inserts
at startup, together with example lemmas about them.

The model follows the code as written, defects included. For example,
`get_multijugador` ignores its argument, and the date-range query always
raises. Where the evidently intended behaviour is clear, it appears beside the
as-written version under an `...Intended` or `...Flag` name (see "## Findings").

Choices the source leaves open:

- `get_all` returns rows in storage order. The model lists rows in ascending
  primary-key order, and the filters keep that order.
- The id the table assigns on insert is one past the largest key in use (at
  least 1). Every property stated about `create` uses only the fact that this
  id was not in use before.
- An `ilike '%s%'` search is modelled the way SQLAlchemy renders it for MySQL,
  `LOWER(col) LIKE LOWER('%s%')`. Lower-casing is ASCII only, and `s` is read
  literally.
- The HTML handlers' date parsers (`datetime.strptime(..., "%Y-%m-%d")` in
  the create form, `date.fromisoformat` in the date search) are function
  parameters of type `string -> Option<Date>`. The repository's own call,
  `date.fromisoformat("yyyy-mm-dd")`, always parses the same fixed text, so it
  is modelled as a fixed failure: `Repository.GetByIntervaloFecha` always
  answers `InvalidIsoDate`, and `Dates.RangeQueryLiteralIsNoIsoDate` shows the
  text lacks the leading year digits every ISO date needs.

## Model

| member | source | states |
|---|---|---|
| `Models.NewVideojuego` | src/models/videojuego.py:5-10 | a record built from its field values has no id (`id` defaults to None) and holds exactly the given values |
| `Models.NewVideojuegoDefaultsToSinglePlayer` | src/models/videojuego.py:10 | a record built without a multiplayer value is single-player (`es_multijugador` defaults to False) |
| `Models.CreateDtoIsUnbounded` | src/models/videojuego.py:7-18 | the create DTO enforces no length bound: some create body maps to a record whose title exceeds the declared 100-character column |
| `Models.MapCreate` | src/models/videojuego.py:38-44 | the created record copies title, developer, date and flag unchanged and has no id |
| `Models.MapUpdate` | src/models/videojuego.py:48-57 | each field is overwritten exactly when the body's value for it is not None; otherwise it keeps its old value; the id never changes |
| `Models.MapUpdateEmptyIsIdentity` | src/models/videojuego.py:48-57 | an update body that gives nothing leaves the record as it was |
| `Models.MapUpdateAllNullIsIdentity` | src/models/videojuego.py:48-57 | a body whose values are all None (given or not) leaves the record as it was |
| `Models.MapUpdateIdempotent` | src/models/videojuego.py:48-57 | applying the same body twice equals applying it once |
| `Models.MapUpdateNeverClearsDate` | src/models/videojuego.py:53-54 | the merge can never reset a release date to None |
| `Models.MapUpdateIsPatchOfNonNullFields` | src/models/videojuego.py:48-57 | the merge equals writing only the body's non-None fields, key by key |
| `Models.MapResponse` | src/models/videojuego.py:59-65 | the response carries the record's four data fields unchanged |
| `Models.MapResponseForgetsOnlyId` | src/models/videojuego.py:29-33 | two records project to the same response exactly when they agree on everything but the id (the response has no id field) |
| `Models.CreateThenRespondRoundTrip` | src/models/videojuego.py:38-65 | projecting the record built from a create body gives back the body's four field values |
| `Models.RespondThenCreateRoundTrip` | src/models/videojuego.py:38-65 | reading a response back as a create body rebuilds the record minus its id |
| `Models.DumpGivenFields` | src/routers/api_videojuego_routers.py:83 | `model_dump(exclude_unset=True)`: the patch has an entry for a field exactly when the body set it, with the body's value; an explicit null is admitted only for the date |
| `Models.ApplyPatch` | src/data/repository_videojuego.py:57-58 | setting attributes from the dictionary writes every present key as given (for the date, even None), keeps every absent one, and never touches the id |
| `Keys.Ascending` | src/data/repository_videojuego.py:10-12 | the listing order is strictly increasing and holds each key of the table exactly once |
| `Keys.IncreasingUnique` | src/data/repository_videojuego.py:10-12 | a strictly increasing key sequence is fixed by the set of keys it holds |
| `Keys.NextKey` | src/data/repository_videojuego.py:46-50 | the key given to a new row is at least 1, above every key in use, and therefore fresh |
| `Repository.GetAll` | src/data/repository_videojuego.py:10-12 | the listing holds every stored row and nothing else, once per key, in id order when each row carries its key |
| `Repository.GetById` | src/data/repository_videojuego.py:15-17 | the row stored under the id, or None exactly when no row has that id |
| `Repository.Where` | src/data/repository_videojuego.py:20 | filtering keeps exactly the rows that satisfy the condition and preserves id order |
| `Repository.WhereKeepsAll` | src/data/repository_videojuego.py:20 | a condition that every row satisfies filters nothing out |
| `Repository.IdOrderedUnique` | src/data/repository_videojuego.py:10-12 | an id-ordered listing is determined by the rows it holds |
| `Repository.GetByTitulo` | src/data/repository_videojuego.py:19-21 | exactly the stored rows whose title contains the text, ignoring case, in id order |
| `Repository.GetByDesarrolladora` | src/data/repository_videojuego.py:24-26 | exactly the stored rows whose developer contains the text, ignoring case, in id order |
| `Repository.GetByIntervaloFecha` | src/data/repository_videojuego.py:28-31 | as written: always raises `ValueError`, because the text it parses ("yyyy-mm-dd") cannot be an ISO date; it never returns a list |
| `Repository.GetByIntervaloFechaIntended` | src/data/repository_videojuego.py:28-31 | as intended: exactly the rows whose date lies between the bounds, both inclusive; rows with no date are excluded |
| `Repository.GetMultijugador` | src/data/repository_videojuego.py:34-37 | exactly the multiplayer rows, whatever flag is passed |
| `Repository.GetSingleMultijugador` | src/data/repository_videojuego.py:40-43 | exactly the single-player rows, whatever flag is passed |
| `Repository.GetByMultijugadorFlag` | src/data/repository_videojuego.py:34-37 | as intended: exactly the rows whose flag equals the one requested |
| `Repository.Create` | src/data/repository_videojuego.py:46-50 | the returned row is the given one plus an id not previously in use; the table gains exactly that entry; every other entry is unchanged |
| `Repository.Update` | src/data/repository_videojuego.py:53-61 | a missing id raises NotFound and leaves the table unchanged; otherwise the row becomes the patch applied to it, the key set stays the same, and every other row is unchanged |
| `Repository.Delete` | src/data/repository_videojuego.py:65-70 | a missing id raises NotFound and leaves the table unchanged; otherwise exactly that key disappears and every other row is unchanged |
| `Text.Strip` | src/main.py:112-113 | `str.strip()`: the result is a middle slice of the input with only whitespace cut from either end, has no whitespace at its ends, and is empty exactly when the input is all whitespace |
| `Text.StripIdempotent` | src/main.py:112-113 | stripping twice equals stripping once |
| `Text.ContainsMeansOccurs` | src/data/repository_videojuego.py:20 | the substring scan succeeds exactly when the needle occurs at some position of the haystack |
| `Text.ILikeMeansOccurs` | src/data/repository_videojuego.py:20 | an `ilike '%p%'` match holds exactly when the lower-cased pattern occurs somewhere in the lower-cased value |
| `Text.ILikeAt` | src/data/repository_videojuego.py:20 | a stretch of the value that equals the search text up to letter case makes the `ilike` match |
| `Text.ILikeIgnoresCase` | src/data/repository_videojuego.py:20 | the match does not change when either side is lower-cased first |
| `Text.EmptyPatternMatchesAll` | src/data/repository_videojuego.py:20 | an empty search text matches every value |
| `Dates.RangeQueryLiteralIsNoIsoDate` | src/data/repository_videojuego.py:29 | the placeholder given to `date.fromisoformat` does not start with the four-digit year that every ISO date form needs |
| `ApiRouter.ListOrNotFound` | src/routers/api_videojuego_routers.py:29-31 | a search answers 404 exactly when the repository's result is empty, otherwise 200 with the projected list |
| `ApiRouter.ListVideojuegos` | src/routers/api_videojuego_routers.py:17-21 | 200 with one projected entry per stored row, in the repository's listing order: every row's projection appears, and nothing else does |
| `ApiRouter.ProjectCovers` | src/routers/api_videojuego_routers.py:21 | the projected list holds the projection of every row and nothing but projections of rows |
| `ApiRouter.SearchTitulo` | src/routers/api_videojuego_routers.py:25-31 | 404 exactly when no stored title matches the text; otherwise 200 with one entry per matching row, in the query's id order: entry i projects row i of the title query, every matching row's projection appears, and nothing else does |
| `ApiRouter.SearchDesarrolladora` | src/routers/api_videojuego_routers.py:33-39 | 404 exactly when no stored developer matches the text; otherwise 200 with one entry per matching row, in the query's id order: entry i projects row i of the developer query, every matching row's projection appears, and nothing else does |
| `ApiRouter.SearchMultijugador` | src/routers/api_videojuego_routers.py:41-48 | 404 exactly when no row is multiplayer; otherwise 200 with one entry per multiplayer row, in id order, each the projection of the corresponding row, whatever flag was requested |
| `ApiRouter.SearchSinglePlayerListsMultiplayer` | src/routers/api_videojuego_routers.py:45 | the search with `false` answers exactly as with `true`, listing only multiplayer games |
| `ApiRouter.SearchMultijugadorIntended` | src/routers/api_videojuego_routers.py:41-48 | on the intended query: 404 exactly when no row has the requested flag; otherwise one entry per row with that flag, in id order, each the projection of the corresponding row |
| `ApiRouter.SearchFechas` | src/routers/api_videojuego_routers.py:50-57 | never returns a list: the repository's `ValueError` is not caught and becomes a server error |
| `ApiRouter.SearchFechasIntended` | src/routers/api_videojuego_routers.py:50-57 | on the intended query: 404 exactly when no row is in the range; otherwise one entry per row inside it, in id order, each the projection of the corresponding row |
| `ApiRouter.CreateVideojuego` | src/routers/api_videojuego_routers.py:60-65 | 201 with the submitted DTO's four fields; the table gains exactly one row, under a fresh key, holding those fields |
| `ApiRouter.GetVideojuego` | src/routers/api_videojuego_routers.py:68-74 | 404 exactly when the id is missing; otherwise 200 with that row's projection |
| `ApiRouter.CreateThenGetRoundTrip` | src/routers/api_videojuego_routers.py:60-74 | a created record is fetched back by its new id with the submitted field values |
| `ApiRouter.UpdateVideojuego` | src/routers/api_videojuego_routers.py:77-85 | a missing id answers 404 with the table unchanged; otherwise the row becomes the given fields applied to it, 200 with its projection, and no other row changes |
| `ApiRouter.UpdateWritesExactlyGivenFields` | src/routers/api_videojuego_routers.py:83-84 | fields left out of the body keep their value; given fields take the body's value (an explicit null date clears the date); the id never changes |
| `ApiRouter.UpdateNullDateDiffersFromMerge` | src/routers/api_videojuego_routers.py:83-84 | an explicit null date clears the stored date through the handler, while `map_update` would keep it |
| `ApiRouter.DeleteVideojuego` | src/routers/api_videojuego_routers.py:87-94 | a missing id answers 404 with the table unchanged; otherwise 204 with no body, and exactly that row is gone |
| `ApiRouter.DeleteThenGetIsNotFound` | src/routers/api_videojuego_routers.py:87-94 | after a successful delete, fetching that id answers 404 |
| `WebHandlers.FormGet` | src/main.py:112-114 | `form.get(name, default)`: the submitted value when the name is present, the default otherwise |
| `WebHandlers.ListPage` | src/main.py:39-43 | the list page shows every stored row once and nothing else, in id order |
| `WebHandlers.SearchTitulo` | src/main.py:46-57 | an empty title gives an empty list; otherwise exactly the rows whose title matches, each once, in id order |
| `WebHandlers.SearchDesarrolladora` | src/main.py:59-70 | an empty developer gives an empty list; otherwise exactly the rows whose developer matches, each once, in id order |
| `WebHandlers.EmptyTitleGuardMatters` | src/main.py:49-52 | the guard decides the empty case: the page answers nothing, while the repository alone would list every row |
| `WebHandlers.EmptyDesarrolladoraGuardMatters` | src/main.py:62-65 | the same for the developer search |
| `WebHandlers.MultijugadorDispatch` | src/main.py:77-82 | "true" calls `get_multijugador(True)`, "false" calls `get_multijugador(False)`, and every other text calls `get_all` |
| `WebHandlers.SearchMultijugador` | src/main.py:72-87 | "true" and "false" both list exactly the multiplayer rows; any other text lists every row; either way each row once, in id order |
| `WebHandlers.SearchFechas` | src/main.py:89-104 | with both dates present the page is always a 400, whatever the parser says; with either date missing it is an empty list |
| `WebHandlers.ReadForm` | src/main.py:109-134 | title and developer are the stripped inputs; the flag is the presence of the checkbox key; an absent or empty date gives None and no date error; validation fails exactly when the stripped title or developer is empty or a given date does not parse; a bad date is the error reported even when a required field is also missing |
| `WebHandlers.Resubmitted` | src/main.py:139-144 | the record the form is shown again with: the cleaned inputs and no id |
| `WebHandlers.CreateVideojuegoWeb` | src/main.py:106-180 | on a validation error or a storage failure, nothing is created and the form comes back with the cleaned inputs and the error; otherwise exactly one row with the cleaned fields is added under a fresh key, and the answer is a 303 redirect to `/videojuegos` |
| `WebHandlers.FormCreatedRowIsClean` | src/main.py:124-166 | a row created through the form has a non-empty title and developer, with no whitespace at either end |
| `WebHandlers.DateErrorWinsOverMissingTitle` | src/main.py:124-134 | with a missing title and a malformed date, the reported error is the date error and the table is unchanged |
| `WebHandlers.CheckboxPresenceIsTheFlag` | src/main.py:120 | any submitted checkbox value, even empty, sets the flag; an absent checkbox clears it |
| `Seed.SeedListing` | src/data/db.py:28-31 | listing the seeded table gives the four sample rows in insertion order |
| `Seed.SeedTitleSearch` | src/data/db.py:28 | searching the seeded table for "zelda" finds exactly "The Legend of Zelda: Breath of the Wild" |
| `Seed.SeedIntendedRange` | src/data/db.py:28-31 | the intended range 2015-01-01 to 2016-01-01 keeps only the 2015 row, dropping the 2011, 2017 and 2018 rows |
| `Seed.SeedRangeAsWrittenFails` | src/data/repository_videojuego.py:28-31 | for those bounds, the query as written raises, while the intended query has an answer |
| `Seed.SeedMultijugadorAsWritten` | src/data/repository_videojuego.py:34-37 | asked for single-player games, the multiplayer query returns Minecraft and Among Us |
| `Seed.SeedMultijugadorIntended` | src/data/repository_videojuego.py:34-37 | the intended query, asked for single-player games, returns the Zelda and Witcher rows |

## Findings

| source | as written | input that shows it | evidently intended | confidence | as-written member | corrected member |
|---|---|---|---|---|---|---|
| src/data/repository_videojuego.py:34-37 | `multijugador = True` overwrites the argument before the query, so the flag is ignored | `get_multijugador(False)` on the seeded table returns Minecraft and Among Us, which are multiplayer | return the rows whose flag equals the argument | high, not executed | `Seed.SeedMultijugadorAsWritten` (on `Repository.GetMultijugador`) | `Repository.GetByMultijugadorFlag`, with `Seed.SeedMultijugadorIntended` and `ApiRouter.SearchMultijugadorIntended` |
| src/data/repository_videojuego.py:28-31 | line 29 calls `date.fromisoformat("yyyy-mm-dd")`, which raises `ValueError` on every call | any bounds, e.g. 2015-01-01 to 2016-01-01 on the seeded table: no list is returned, though the Witcher row (2015-05-19) lies inside the range | return the rows whose date lies in the inclusive range | high, not executed | `Seed.SeedRangeAsWrittenFails` (on `Repository.GetByIntervaloFecha`) | `Repository.GetByIntervaloFechaIntended`, with `Seed.SeedIntendedRange` and `ApiRouter.SearchFechasIntended` |

The handlers in `api.dfy` and `web.dfy` that model the code's routes call the
as-written queries, as the code does. The corrected queries are used by the
`...Intended` handlers and the seed lemmas.

## Left out

- Database sessions, engine construction, environment configuration and the
  drop-and-recreate in `init_db` (`src/data/db.py`) are I/O. The seeded rows
  appear only as a constant table.
- ORM and SQL internals (commit, refresh, autoincrement counters,
  transactions) are not modelled. The table is a map, and a new row's key is
  one past the largest key in use. MySQL's counter can differ after deletes;
  the properties rely only on freshness.
- Repository.GetAll: the source promises no row order; the model fixes
  ascending primary-key order.
- Text.ILikeContains: `%`, `_` and `\` inside the search text are read
  literally, not as LIKE wildcards.
- Text.ILikeContains: case folding is ASCII only. The database's collation
  (accent folding, non-ASCII case mapping) is not modelled.
- The 100-character column width is a constant and a predicate
  (`Models.FitsColumns`). The database's reaction to a longer value (error or
  truncation, depending on SQL mode) is not modelled.
- Models.DumpGivenFields: requires that the body does not set `titulo`,
  `desarrolladora` or `es_multijugador` to an explicit null, which
  `model_dump(exclude_unset=True)` would pass on as `None`; the `Patch` type
  carries a null only for the date, since the NOT NULL columns' reaction to a
  null is not modelled.
- ApiRouter.UpdateVideojuego: requires that the body does not set `titulo`,
  `desarrolladora` or `es_multijugador` to an explicit null. The database's
  NOT NULL behaviour in that case is not modelled.
- Repository.Create: requires a row without an id, which is what every
  caller passes (the output of `map_create_videojuego_to_videojuego`).
  Inserting a row with a preset id is ORM behaviour and is not modelled.
- The HTML handlers' date parsing (`strptime` with `%Y-%m-%d`,
  `date.fromisoformat`) is a function parameter; the repository's parse of the
  fixed text "yyyy-mm-dd" is a fixed failure. `Dates.Date` does not check
  calendar validity.
- Request validation by the framework is not modelled. This covers the 422
  answers for malformed JSON bodies, a non-boolean `multijugador` path value
  or a non-date path value. The handlers receive already-typed values.
- WebHandlers.CreateVideojuegoWeb: a storage exception is a boolean
  parameter that leaves the table unchanged. The message text (`Error
  interno: ...`) is not modelled, and neither are storage failures in the JSON
  API, which would surface as server errors.
- Form data is one text value per field name. Repeated fields and file uploads
  are not modelled.
- `map_update_videojuego_to_videojuego` changes its argument in place and
  returns it. The model returns a new value, so aliasing is not modelled.
- Line 30's `and` between two SQL expressions is never reached, because line
  29 raises first, so it is not modelled.
- Templates, static files, the index page, routing and route order, the
  missing leading slash of the HTML developer route, async execution and the
  uvicorn startup are framework plumbing and are not modelled.
