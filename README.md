# notesapi: a verified model of the notes service's request handling

The notes service is a small REST API over one table of notes (an id, a
title and a content), guarded by HTTP Basic authentication with one
configured user. This project models what the service's handlers decide for
themselves: which status code and JSON body each request gets, and how the
notes table changes.

- `wrappers.dfy` (`Wrappers`): the `Option` type standing for Python's
  value-or-`None`.
- `seqs.dfy` (`Seqs`): sequences without repeats and their element sets.
- `responses.dfy` (`Responses`): the `Note` record, the JSON bodies, the
  response (status plus body), the four error responses and the
  error-handler registry. It also holds the parsed request body, an
  optional JSON object of string fields, and Python's truth value of it.
- `rows.dfy` (`Rows`): `dict_factory`, the loop that turns a positional row
  into a record keyed by column name.
- `auth.dfy` (`Auth`): the configured credential pair, `get_password`, and
  the password comparison the Basic-auth layer makes with it.
- `notes.dfy` (`NotesApi`): class `NotesDb`, the notes table. It has two
  fields: a map from id to note, and `nextId`, which stands for SQLite's
  AUTOINCREMENT counter. Ids are handed out in increasing order and never
  reused while the table exists. The class defines `db_init`, the row
  insert, and one member per route handler. Listing and lookup are
  functions over the table. Create, update and delete are methods that
  change it.
- `scenarios.dfy` (`Scenarios`): client methods that replay the
  repository's test cases against a freshly seeded table and prove the
  outcomes the tests expect.

Each handler takes a flag saying whether the request passed authentication.
When it did not, the handler returns the `unauthorized` response and leaves
the table unchanged. Routes with a note id receive it as a `nat`, because
Flask's `int` converter matches only non-negative integers. Handlers that
read a body receive `Option<JsonObject>`. `None` means the body is missing,
has no JSON content type, or does not parse. A present object may lack any
field.

Three behaviours of the code are worth stating plainly:

- An unauthenticated request gets `{"error": "unauthorized access"}` with
  status 200. The `unauthorized` handler names no status, so the response
  keeps Flask's default. The repository's own test marks this with a FIXME
  (notesapi_test.py:52). `Unauthorized()` and `ErrorResponsesDistinct`
  state it.
- `create_note` and `update_note` require `title` only as a key. An
  empty-string title is accepted and stored.
- `update_note` requires the `content` key and then still reads it with a
  default of `""`. The model reads it the same way, and `UpdateNote` proves
  the stored content is the one sent.

## Model

| member | source | states |
|---|---|---|
| `Responses.HandleError` | notesapi.py:159-169 | `abort(code)` has a registered handler exactly for 400, 404 and 405; the handler's response carries that same code and an `{"error": ...}` body, and is `page_not_found`'s, `bad_request`'s or `method_not_allowed`'s response for 404, 400, 405 |
| `Responses.ErrorResponsesDistinct` | notesapi.py:159-173 | the four error responses all have error bodies with pairwise distinct messages; the unauthorized one has status 200, not 401 |
| `Responses.PageNotFound` | notesapi.py:159-161 | status 404 with body `{"error": "not found"}` |
| `Responses.BadRequest` | notesapi.py:163-165 | status 400 with body `{"error": "bad request"}` |
| `Responses.MethodNotAllowed` | notesapi.py:167-169 | status 405 with body `{"error": "method not allowed"}` |
| `Responses.Unauthorized` | notesapi.py:171-173 | body `{"error": "unauthorized access"}` with Flask's default status, 200, since the handler names none |
| `Responses.Truthy` | notesapi.py:115 | the truth value of `request.json`: false for a missing body and for `{}`, true for any non-empty object |
| `Rows.DictFactory` | notesapi.py:27-32 | the record has exactly one key per column name; each column's last occurrence is bound to the row value at the same index |
| `Rows.DistinctColumnsZip` | notesapi.py:27-32 | with distinct column names, the record has as many keys as there are columns, and every column is bound to its own row value |
| `Auth.GetPassword` | notesapi.py:67-71 | returns a password iff the username is the configured `BAUSR`, and the password it returns is the configured `BAPWD`; otherwise None |
| `Auth.Authenticated` | notesapi.py:67-71 | the password check made with `get_password` accepts a username/password pair iff it is exactly the configured pair |
| `NotesApi.IdsDescending` | notesapi.py:95 | lists, strictly decreasing, exactly the table's ids in 1..k, each once |
| `NotesApi.DescendingUnique` | notesapi.py:95 | two strictly decreasing sequences with the same elements are equal, so newest-first order is determined by the set of ids |
| `NotesApi.CreateAccepts` | notesapi.py:115 | `create_note`'s body test passes iff a body is present and has `title`; the falsy-body test adds nothing to the key test |
| `NotesApi.UpdateAccepts` | notesapi.py:134-137 | `update_note`'s body tests pass iff a body is present and has both `title` and `content` |
| `NotesApi.ContentOr` | notesapi.py:119 | the body's `content` when the key is present, otherwise `""` |
| `NotesApi.NotesDb.Insert` | notesapi.py:122-124 | the row goes in under `nextId`, which is absent from the table and larger than every id in it; nothing else changes; the counter advances and the table grows by one |
| `NotesApi.NotesDb.DbInit` | notesapi.py:45-58 | from any state, the table afterwards is exactly {1: pertama, 2: kedua} with the seeded contents, and the next id is 3 |
| `NotesApi.NotesDb.NoteById` | notesapi.py:99-101 | yields a row iff the id is stored, and that row is the stored one |
| `NotesApi.NotesDb.OrderedIds` | notesapi.py:95 | every stored id exactly once (as many ids as rows), strictly decreasing |
| `NotesApi.NotesDb.GetNotes` | notesapi.py:91-97 | authenticated: status 200 and a list as long as the table, whose i-th entry is the note under the i-th largest id; otherwise the unauthorized response |
| `NotesApi.NotesDb.GetNote` | notesapi.py:103-110 | authenticated: 404 error for an absent id, 200 with exactly the stored title and content for a present one; otherwise the unauthorized response |
| `NotesApi.NotesDb.CreateNote` | notesapi.py:112-125 | missing, empty or title-less body: 400 and no change; otherwise 201 echoing the title and the content (default `""`), with the note stored under a fresh id larger than every existing one, other rows unchanged, one more row, and a GET on the new id returning it |
| `NotesApi.NotesDb.UpdateNote` | notesapi.py:127-146 | absent id: 404 whatever the body; present id with a missing or empty body, or one lacking `title` or `content`: 400 and no change; otherwise 200, and only that id's note is replaced by the pair sent; a GET afterwards returns what was PUT |
| `NotesApi.NotesDb.DeleteNote` | notesapi.py:148-157 | absent id: 404 and no change; present id: `{"result": true}`, only that id removed, one row fewer; either way a later GET, and a second delete, of that id gives 404 |
| `NotesApi.ListingAgreesWithGet` | notesapi.py:95-110 | GET by id succeeds iff the id is in the listing's order, and the listing's i-th entry is what GET returns for the i-th id |
| `NotesApi.ListingOrderIsDescendingIds` | notesapi.py:95 | any strictly decreasing enumeration of the stored ids is the listing's id order, and the listing is the notes under it |
| `NotesApi.TwoNoteListing` | notesapi.py:95 | a table holding exactly two ids lists the note with the larger id first, then the other |
| `Scenarios.SeededListing` | notesapi_test.py:60-64 | after seeding, the listing is exactly [kedua, pertama] with status 200 |
| `Scenarios.GetSeededNote` | notesapi_test.py:66-77 | after seeding, note 1 is `pertama` with its content; note 12 is a 404 error |
| `Scenarios.AddNote` | notesapi_test.py:79-106 | a create with a JSON body returns 201 echoing it and the listing grows to 3; a create with no JSON body is a 400 and the listing stays at 3 |
| `Scenarios.AddNoteWithoutContent` | notesapi.py:117-120 | a create without `content` returns, and stores, content `""` |
| `Scenarios.EditNote` | notesapi_test.py:108-130 | PUT on note 2 returns the sent pair and a GET then returns the same; PUT on absent note 23 is a 404 error, with or without a body |
| `Scenarios.DeleteNote` | notesapi_test.py:132-149 | deleting note 2 gives `{"result": true}`; the listing is then [pertama]; GET on note 2 and a second delete of it are 404s |
| `Scenarios.IdsNotReused` | notesapi.py:50-51 | after note 2 is deleted, a new note gets id 3 rather than 2, id 2 stays a 404, and the listing is [new note, pertama] |
| `Scenarios.Unauthenticated` | notesapi.py:171-173 | unauthenticated list and create requests get the unauthorized body with status 200, and the table still lists 2 notes |

## Left out

- Flask routing, the decorators, `make_response` and `jsonify`. The JSON
  text is abstracted to the `Body` datatype. Responses for routes that do
  not exist, and the 405 for an unsupported verb, come from Flask's router.
  The model includes only the handlers registered for them.
- `index` (GET `/`) only returns a fixed plain-text usage text. It is
  framework output and is not modelled.
- HTTP Basic header parsing and base64 decoding, done by `flask_httpauth`.
  Handlers take authentication as a boolean. `Auth.Authenticated` states
  the plain password comparison the library makes with `get_password`.
- The SQLite engine and SQL text (`db_connect`, `execute`, `fetchall`,
  `commit`). They are replaced by the map and the id counter. The model
  does not capture SQLite's upper limit on AUTOINCREMENT ids, because ids
  are unbounded. It also does not capture the `CHAR(50)` declared type,
  which SQLite does not enforce.
- The connection lifecycle (`db_get`, `teardown_db`, and the connection
  that `get_notes` opens and never closes). This is resource handling tied
  to Flask's request context.
- Request bodies are JSON objects with string values. Other JSON is not
  modelled, and the code treats it as follows:
  - A number or `true` as a field value: the `TEXT` affinity of both
    columns (notesapi.py:52-53) stores it as text. The response echoes `5`,
    but a later GET returns `"5"`. `true` is bound as 1 and read back as
    `"1"`.
  - `null` as `title` or `content`: the `NOT NULL` constraint fails, which
    is a server error (500).
  - A nested array or object as a field value: parameter binding fails,
    which is a server error (500).
  - A top-level `0`, `false`, `""` or `null`: these are falsy, so the
    handler answers 400, the same as a missing body.
  - A top-level non-zero number or `true`: the `'title' in request.json`
    test (notesapi.py:115, 136) raises TypeError, which is a server error
    (500).
  - A top-level non-empty array or string: `'title' in` tests elements or
    substrings there. When that test fails the handler answers 400. When it
    passes (and, on update, the `'content'` test too), indexing with
    `['title']` raises TypeError, a server error (500).
- Note ids outside SQLite's 64-bit INTEGER range: the route's `int`
  converter has no upper bound. An id of 2^63 or more, such as
  `GET /api/notes/9223372036854775808`, makes binding `note_id` in
  `note_byid` (notesapi.py:100) raise OverflowError, which is a server
  error (500). The model answers 404 for every absent id.
- Rows.DictFactory: the cursor description is reduced to its column names,
  the first item of each description entry.
- Configuration loading, `app.run`, debug mode, the temporary-file test
  harness, and concurrency between requests. Each handler runs as one
  atomic step.
