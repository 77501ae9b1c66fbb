# Movie ETL and search registry, modelled in Dafny

This project models the data-handling core of a two-part movie service:

- an ETL job (`01-etl/etl.py`). It turns flat relational movie rows into search documents, then bulk-loads them into a search index and reports the items the index rejected;
- a search API (`02-flask-api/app`). It validates query parameters, builds the search request, projects the hits and fetches a single movie.

Modules, one per source component:

- `wrappers.dfy`, module `Wrappers`: `Option` (Python `None`), `Result` (a raised exception), `MapAll` (a loop or comprehension that stops at the first exception)
- `text.dfy`, module `Text`: `str.split(c)`, `str.join`, `str.replace(' ', '')`, `str.strip()`, `int(str)`, `str(int)`
- `json.dfy`, module `Json`: decoded JSON values, Python truthiness, `dict.get`, and `json.dumps` as the `Serializer` type
- `es_loader.dfy`, module `EsLoader`: `ESLoader._prepare_bulk_query` and the response handling of `ESLoader.load`
- `etl.dfy`, module `Etl`: `ETL._get_writers`, `ETL.transform`, the writers `CASE` of `ETL.SQL`, `ETL.load`
- `validators.dfy`, module `Validators`: the constraints and defaults of `SearchMoviesValidator`; `ValidationErrorResponse`
- `es_registry.dfy`, module `EsRegistry`: the request body of `search_movies`, hit projection, `get_movie_by_id`

Loops in the source are methods with loop invariants: `GetWriters`, `ResolveWriters`, `Transform`, `PrepareBulkQuery`, `ReportFailures` and the `ValidationErrorResponse` constructor. Each one is proved equal to a specification function, and the lemmas about those functions state what the source promises.

Three external behaviours are function-typed parameters:

- `parse` stands for `float()`. It returns `None` where `float` raises.
- `dumps: Serializer` stands for `json.dumps`. Its one assumed property is that its output never contains a raw newline.
- `post` stands for the HTTP round trip to the `_bulk` endpoint.

Behaviours of the code worth knowing:

- Actor ids stay strings in `transform` (01-etl/etl.py:113). They are widened to integers only by `get_movie_by_id` (02-flask-api/app/es_registry.py:39).
- `genre` has only `' '` removed before splitting, not every kind of whitespace (01-etl/etl.py:123).
- `actors` is built with `zip`, which stops at the shorter list. `actors_names` is filtered from the full names list. So the two line up whenever the ids column has at least as many entries as the names column. When the names column is longer, `actors_names` can hold names that have no actor (01-etl/etl.py:113-116).
- An empty document list yields the payload `"\n"`, a single blank line (01-etl/etl.py:29).

## Model

| member | source | states |
|---|---|---|
| `Text.RemoveAll` | 01-etl/etl.py:123 | the result contains no space, and every other character occurs as often as in the input |
| `Text.RemoveAllAppend` | 01-etl/etl.py:123 | removal works piece by piece over a concatenation, so the characters that stay keep their order |
| `Text.RemoveAllKeeps` | 01-etl/etl.py:123 | every character other than the removed one stays, placed right after what is kept of the text before it |
| `Text.Split` | 01-etl/etl.py:113-123 | `s.split(c)` has (number of `c` in `s`) + 1 pieces, and no piece contains `c` |
| `Text.JoinSplit` | 01-etl/etl.py:123 | joining the pieces of a split with the separator gives the original string back |
| `Text.SplitJoin` | 01-etl/etl.py:29 | splitting a join of separator-free pieces gives the pieces back |
| `Text.SplitJoinThen` | 01-etl/etl.py:29 | splitting `join(parts) + sep + y` gives the parts followed by the pieces of `y` |
| `Text.TrimLeft` | 01-etl/etl.py:122 | the result is a suffix of the input, everything cut off is whitespace, and the result does not start with whitespace |
| `Text.TrimRight` | 01-etl/etl.py:122 | the result is a prefix of the input, everything cut off is whitespace, and the result does not end with whitespace |
| `Text.StripOffset` | 01-etl/etl.py:122 | the leading part that `strip()` removes lies within the string and is all whitespace |
| `Text.Strip` | 01-etl/etl.py:122 | `strip()` returns a contiguous slice of the input, with only whitespace around it, that neither starts nor ends with whitespace |
| `Text.ParseIntText` | 02-flask-api/app/es_registry.py:39 | `int(str(n)) == n` for every integer `n` |
| `EsLoader.BulkLinesAt` | 01-etl/etl.py:24-28 | the loop builds exactly 2n lines: line 2i is record i's index action carrying its `id`, line 2i+1 is record i; no line contains a newline |
| `EsLoader.PrepareBulkQuery` | 01-etl/etl.py:22-29 | the method returns exactly the specified payload: the lines joined by newlines plus a final newline |
| `EsLoader.BulkPayloadLines` | 01-etl/etl.py:22-29 | for n ≥ 1 records the payload is 2n newline-terminated lines: action and `_id` of record i on line 2i, record i on line 2i+1 |
| `EsLoader.EmptyBulkPayload` | 01-etl/etl.py:29 | an empty record list yields the payload `"\n"` |
| `EsLoader.FailedItemsExactly` | 01-etl/etl.py:41-44 | a failure is reported if and only if it is an item whose `error` is truthy, with that item's id and error |
| `EsLoader.FailedItemsAppend` | 01-etl/etl.py:41-44 | failures keep item order: the failures of a concatenation are the failures of each part, in turn |
| `EsLoader.ReportFailures` | 01-etl/etl.py:39-44 | the loop reports the failed items when the response's `errors` flag is set, and nothing when it is not |
| `EsLoader.Load` | 01-etl/etl.py:31-44 | `load` reports the failures of the response to the payload it posts |
| `Etl.LegacyWritersColumn` | 01-etl/etl.py:66-69 | a non-empty `writers` column passes through; an empty one becomes a list of one reference to the legacy `writer` (a non-NULL one: see Left out), which strict `json.loads` decodes back to that id exactly when the id contains no `"`, no `\` and no control character below U+0020 |
| `Etl.WriterDictKeys` | 01-etl/etl.py:85-89 | the key set of the writer dictionary is exactly the set of writer-row ids |
| `Etl.WriterDictLastWins` | 01-etl/etl.py:85-89 | a row that no later row with the same id overrides is the one stored under its id, so the last row wins |
| `Etl.WriterDictWellKeyed` | 01-etl/etl.py:88 | every writer is stored under its own id |
| `Etl.GetWriters` | 01-etl/etl.py:85-89 | the loop builds exactly the specified writer dictionary |
| `Etl.AcceptedIds` | 01-etl/etl.py:104-108 | every accepted reference id occurs among the references, is a dictionary key, and does not have the name `"N/A"` |
| `Etl.AcceptedIdsExactly` | 01-etl/etl.py:104-108 | an id is accepted if and only if it is referenced, is in the dictionary and does not have the name `"N/A"` |
| `Etl.AcceptedIdsOrdered` | 01-etl/etl.py:102-108 | no id is accepted twice, and accepted ids follow the order of their first occurrence among the references |
| `Etl.ResolvedWriters` | 01-etl/etl.py:102-108 | output writers: no duplicate ids, each is exactly the dictionary record of a referenced id, no name is `"N/A"`, every eligible reference is present, first-occurrence order is kept |
| `Etl.ResolveWriters` | 01-etl/etl.py:102-108 | the inner loop, with its list and seen-set, computes exactly the specified writer list |
| `Etl.ZipActors` | 01-etl/etl.py:113-114 | no kept actor has the name `"N/A"`, and the zip is no longer than either list |
| `Etl.DropNA` | 01-etl/etl.py:115-116 | the filtered names contain no `"N/A"` and are no more numerous than the input |
| `Etl.DropNAAppend` | 01-etl/etl.py:115-116 | filtering works piece by piece, so every non-`"N/A"` name is kept, in column order |
| `Etl.ZipActorsAppend` | 01-etl/etl.py:113-114 | zipping aligned pieces one after another gives the kept actors of each piece, in position order |
| `Etl.ZipActorsSnoc` | 01-etl/etl.py:113-114 | one more aligned position appends its (id, name) actor at the end, unless the name is `"N/A"` |
| `Etl.ZipActorsTruncate` | 01-etl/etl.py:113-114 | `zip` ignores whatever the longer list holds beyond the length of the shorter one |
| `Etl.ZipActorsNames` | 01-etl/etl.py:112-116 | on id and name lists of equal length, `actors_names` is exactly the names of `actors`, in order |
| `Etl.ZipActorsNamesShorter` | 01-etl/etl.py:113-116 | whenever there are no more names than ids, `actors_names` is exactly the names of `actors`, in order |
| `Etl.ZipActorsMembers` | 01-etl/etl.py:113-114 | an actor is kept if and only if its id and name stand at the same position within the shorter list and the name is not `"N/A"` |
| `Etl.DirectorPieces` | 01-etl/etl.py:122 | a present, non-sentinel director gives (commas + 1) names; each is the stripped piece, contains no comma, and has no whitespace at either end |
| `Etl.GenrePieces` | 01-etl/etl.py:123 | `genre` has (commas + 1) pieces, so at least one, none containing a space or a comma; joining them with commas gives the genre without spaces |
| `Etl.Transform` | 01-etl/etl.py:98-132 | `transform` (the writer dictionary load plus the row loop) returns exactly the specified documents or error |
| `Etl.TransformRowFails` | 01-etl/etl.py:121 | a row fails if and only if its rating is not `"N/A"` and does not parse, and the error names the row and the rating |
| `Etl.TransformRowFields` | 01-etl/etl.py:118-130 | `id` and `title` are copied. `director` is the stripped comma pieces and `genre` the comma pieces of the space-free genre. Rating, director and description are `None` exactly on the sentinel (or NULL); otherwise the rating is the parsed value and the description is copied. The writers are the resolved ones, `writers_names` is their names in order, and the genre has commas + 1 space-free pieces |
| `Etl.TransformRowActors` | 01-etl/etl.py:110-116 | both actor lists are empty when either column is NULL. Otherwise `actors` is the zip of the two split columns and `actors_names` the filtered names column. Neither holds the sentinel, and when the names column has no more commas than the ids column, `actors_names` is the names of `actors` |
| `Etl.TransformAllSuccess` | 01-etl/etl.py:99-132 | when every rating parses, the transform yields exactly one document per row, in row order (and only then does it succeed) |
| `Etl.TransformAllFirstFailure` | 01-etl/etl.py:101-121 | a failing transform fails with the error of the first row whose rating does not parse |
| `Etl.DocumentJson` | 01-etl/etl.py:118-130 | the document dict carries the document's id under `id` |
| `Etl.DocumentJsonFields` | 01-etl/etl.py:120-124 | the document dict carries the id, the title and the rating (null when absent) |
| `Etl.Records` | 01-etl/etl.py:26 | every document dict passed to the loader has the `id` key that the action line reads |
| `Etl.MoviesPayloadLines` | 01-etl/etl.py:22-29 | for n ≥ 1 documents the payload has 2n + 1 pieces. Line 2i is the `movies` index action with document i's id, and line 2i+1 is document i |
| `Etl.Load` | 01-etl/etl.py:135-136 | `ETL.load` loads the documents into the `movies` index and reports the loader's failures |
| `Validators.InvalidFields` | 02-flask-api/app/validators.py:36-45 | no field fails if and only if limit ≥ 0, page ≥ 1, sort ∈ {id, title, imdb_rating} and sort_order ∈ {asc, desc} |
| `Validators.DefaultsValid` | 02-flask-api/app/validators.py:37-45 | the defaults (limit 50, page 1, sort `id`, order `asc`, empty search) are valid |
| `Validators.FlattenLength` | 02-flask-api/app/validators.py:23-33 | `detail` has one entry per (field, error) pair, and none for an empty error map |
| `Validators.FlattenAt` | 02-flask-api/app/validators.py:25-33 | error j of field i is at position (errors of earlier fields) + j, with `loc == ["query", field]` and `msg` equal to that error |
| `Validators.ValidationErrorResponse.constructor` | 02-flask-api/app/validators.py:23-33 | the nested loop sets `detail` to exactly the flattened entries |
| `EsRegistry.SearchBodyShape` | 02-flask-api/app/es_registry.py:49-70 | keys `from`, `size`, `sort`, `_source`, plus `query` only for a non-empty term. `from = limit*(page-1)` and `size = limit`. `sort` is one `<sort>.keyword → order` entry and `_source` is `[id, title, imdb_rating]` |
| `EsRegistry.MultiMatchFields` | 02-flask-api/app/es_registry.py:56-70 | the query is a fuzzy (`auto`) `multi_match` of the term over `title^5, description^4, genre^3, actors_names^3, writers_names^2, director`, in that order |
| `EsRegistry.ValidParamsOffset` | 02-flask-api/app/es_registry.py:50 | parameters that pass the validator give `from ≥ 0` |
| `EsRegistry.PagesTile` | 02-flask-api/app/es_registry.py:50-51 | page 1 starts at offset 0, and each page starts where the previous page of `limit` hits ends |
| `EsRegistry.SearchExample` | 02-flask-api/app/es_registry.py:49-56 | sort `imdb_rating` desc, limit 10, page 2, no term: `from = 10`, `size = 10`, one descending sort key, no `query` |
| `EsRegistry.ShortMovies` | 02-flask-api/app/es_registry.py:76-78 | one short movie per hit, in hit order, each taken from that hit's `_source`; raises exactly when a hit lacks a key |
| `EsRegistry.ProjectKeeps` | 02-flask-api/app/es_registry.py:53 | `_source` filtering leaves the value of every kept key unchanged |
| `EsRegistry.IndexedDocumentHit` | 02-flask-api/app/es_registry.py:78 | a hit on an ETL document gives back that document's id, title and rating |
| `EsRegistry.MovieActorsSpec` | 02-flask-api/app/es_registry.py:39-40 | widening the actor ids succeeds if and only if every id is a numeral. It keeps the actors' order, count and names, and a failure names an id that is not a numeral |
| `EsRegistry.NumeralActorIds` | 02-flask-api/app/es_registry.py:39-40 | actor ids that are decimal numerals widen back to their integers |
| `EsRegistry.NullRatingBreaksLookup` | 02-flask-api/app/es_registry.py:34 | every row whose rating is `"N/A"` transforms successfully, but `get_movie_by_id` as written then fails on its document |
| `EsRegistry.GetMovieByIdSpec` | 02-flask-api/app/es_registry.py:23-41 | the result is `None` exactly when `found` is false. Otherwise the movie carries the document's fields, writers in order and count, and actors in order and count with integer ids. It agrees with the code as written whenever the rating is present |

## Findings

| source | as written | input that shows it | evidently intended | confidence | as-written member | corrected member |
|---|---|---|---|---|---|---|
| 02-flask-api/app/es_registry.py:34 | `float(movie_raw["imdb_rating"])` is applied to every found document | a movie row whose `imdb_rating` is `"N/A"`: `transform` stores a null rating (01-etl/etl.py:121), and fetching that movie by id calls `float(None)`, which raises `TypeError` | the movie is returned with its rating absent, as `search_movies` already returns null ratings unchanged (es_registry.py:78) | medium; not executed | `EsRegistry.GetMovieByIdAsWritten`, `EsRegistry.NullRatingBreaksLookup` | `EsRegistry.GetMovieById`, `EsRegistry.GetMovieByIdSpec` |

## Left out

- Database I/O: the sqlite connection, `extract`, `dict_factory` and query execution. Rows and writer rows are inputs. The SQL `CASE` is modelled as a string function; the `group_concat` joins are not.
- HTTP: the `requests` sessions, the POST and GET calls, timeouts and `raise_for_status`. The bulk POST is the `post` parameter, and the `_doc` and `_search` responses arrive decoded. Transport failures are not modelled.
- JSON parsing: the `writers` column arrives as its decoded list of ids. A malformed `writers` column or a reference without `id` (which raise in the source) are not modelled.
- Duplicate keys in a JSON object: `Json.Value` allows them and `Get` returns the first, while a Python dict holds one value per key and `json.loads` keeps the last. The values modelled here (the document dicts, the request body) have distinct keys.
- JSON serialisation: `json.dumps` is the `dumps` parameter. Its only assumed property is that its output has no raw newline.
- `float()` is the `parse` parameter. Floating-point values are reals.
- `logger.error`: `load` returns the failures instead of logging them.
- NULL `genre` or `imdb_rating` columns: the source raises on them (`None.replace`, `float(None)`). The model takes these columns as strings.
- NULL `writer`, `writers` or `title`, or a NULL writer-table `id` or `name`: SQL `||` with NULL, and `= ''` on NULL, make the `writers` column NULL, so `json.loads(None)` raises at 01-etl/etl.py:104. A NULL title is copied as `None`, and a NULL writer name passes the `!= 'N/A'` test at 01-etl/etl.py:106 and lands in `writers_names` as `None`. The model takes these columns as strings.
- Bulk response items are modelled as the code reads them, each carrying its own `_id` and `error`. The search engine's own item nesting is not modelled.
- Text.ParseInt: does not accept underscores between digits or non-ASCII decimal digits, both of which Python's `int()` accepts.
- Text.Split: only one-character separators are modelled, the only kind the source uses.
- The search engine itself: indexing, upsert by id, ranking and fuzzy matching. Only `_source` filtering is modelled.
- wtforms' validation machinery and its error messages. Only the declared constraints and defaults are modelled.
- The Flask routing in `app.py`, the abstract interface in `interface.py`, the `__main__` drivers. The dataclasses in `models.py` appear only as datatype shapes.
