# CivicLens issue store, modelled in Dafny

CivicLens is a small civic issue-reporting service. Its backend keeps every
reported issue in one in-memory table, a `HashMap<String, Issue>` behind a
mutex. Four request handlers work on that table:

- `report_issue` stores a new report under a freshly generated UUID. It
  overwrites the client's `id` with that UUID and answers it.
- `get_issues` lists all stored records.
- `get_issue_by_id` looks up one record, or answers not-found.
- `update_issue_status` overwrites the `status` of one record, or answers
  not-found.

This project models that table and those handlers, and proves what they promise.

- `issues.dfy` (module `Issues`) holds the records: `Issue`, `Location`, the
  unused `User`, and the handlers' answer `Reply = Found(issue) | NotFound`.
  It also holds `IsUuidV4Text`, the shape of the text `Uuid::new_v4().to_string()`
  yields (section 4.4 of RFC 4122, lower-case and hyphenated).
- `issue_table.dfy` (module `IssueTable`) is the table as a value. It
  defines what each handler does to the map (`Inserted`, `WithStatus`,
  `Lookup`), what a listing must contain (`IsListingOf`), and the store
  invariant `WellKeyed`: every record is stored under its own `id`, and that
  `id` is UUID text. The lemmas here relate these operations to each other.
- `backend.dfy` (module `Backend`) is the state the server shares, as a class
  `AppState` with the fields `issues` and `users`. Each handler is one method
  on it, and each mutating method is tied to its specification function.
  Its invariant `Valid()` is `WellKeyed(issues)` plus `users == map[]`.
  No handler touches `users`, so it stays empty for the life of the store.
  `ReportReadResolveList` is a client. On a fresh store, it reports an issue,
  reads it back, looks up `doesnotexist`, resolves the issue and lists the
  table, and it proves what each step answers.

Two ways the model relates to the code:

- The UUID generator is replaced by a parameter `freshId` of
  `ReportIssue`. The method requires only that `freshId` has the printed
  shape of a version-4 UUID.
- Uniqueness of `freshId` is not required. `HashMap::insert` overwrites
  the old entry if two generated identifiers collide, and `Inserted` models
  exactly that. Growth by one entry, and "all earlier entries unchanged",
  are proved for a key that was not already in the table.

`get_issues` is a `while` loop over the table's key set. This is the walk
that `values().collect()` does inside the hash map. The order in which it
picks keys is left open, so the contract gives no order.

## Model

| member | source | states |
|---|---|---|
| `IssueTable.Inserted` | backend/src/main.rs:48-51 | the new table has exactly the old keys plus the new key; under the new key is the payload with only its `id` replaced by the key; every other entry is unchanged; a fresh key grows the table by one |
| `IssueTable.WithStatus` | backend/src/main.rs:79-84 | the keys stay the same; the record under a present key has exactly the new status, and its other fields are unchanged; every other entry is unchanged; an absent key leaves the table equal to the old one |
| `IssueTable.Lookup` | backend/src/main.rs:64-69 | answers a record if and only if the key is stored, and that record is the one stored under the key |
| `IssueTable.InsertedKeepsWellKeyed` | backend/src/main.rs:48-51 | storing a payload under a UUID key keeps every record under its own UUID `id` |
| `IssueTable.WithStatusKeepsWellKeyed` | backend/src/main.rs:79-80 | a status update, on a present or an absent key, keeps every record under its own `id` |
| `IssueTable.LookupAnswersOwnId` | backend/src/main.rs:64-66 | in a well-keyed table, a found record carries the identifier it was looked up by |
| `IssueTable.LookupOfNonUuidIsNotFound` | backend/src/main.rs:65-68 | in a well-keyed table, looking up a text that is not UUID-shaped answers not-found |
| `IssueTable.LookupAfterInserted` | backend/src/main.rs:48-51 | after a report, looking up its key answers the payload with the server-chosen `id`; looking up any other key answers what it answered before |
| `IssueTable.LookupAfterWithStatus` | backend/src/main.rs:79-81 | after a status update of a present key, looking it up answers the old record with exactly the new status |
| `IssueTable.WellKeyedIsInjective` | backend/src/main.rs:50-51 | in a well-keyed table, two keys holding the same record are the same key |
| `IssueTable.ListingMultiset` | backend/src/main.rs:57 | a listing of the table, as a multiset, equals the set of the table's values |
| `IssueTable.ListingsArePermutations` | backend/src/main.rs:57 | any two listings of the same table are permutations of each other |
| `IssueTable.InsertedAll` | backend/src/main.rs:51 | after a series of reports, the keys are the old keys plus every reported key |
| `IssueTable.InsertedAllFresh` | backend/src/main.rs:48-51 | after reports under distinct fresh keys, the table has grown by the number of reports; each report is stored under its key with that key as `id`; earlier entries are unchanged |
| `IssueTable.ListingAfterReports` | backend/src/main.rs:51-57 | after N reports under distinct keys into an empty table, a listing holds exactly N records |
| `Backend.AppState.constructor` | backend/src/main.rs:90-93 | the server starts with an empty issue table and an empty user table, and the invariant holds |
| `Backend.AppState.ReportIssue` | backend/src/main.rs:43-53 | answers exactly the generated identifier; the table becomes `Inserted` of the old table; the user table is unchanged; the invariant is kept |
| `Backend.AppState.GetIssues` | backend/src/main.rs:55-58 | answers every stored record exactly once and nothing else; the answer's length is the number of keys; its multiset is the multiset of the table's values; the table is not changed |
| `Backend.AppState.GetIssueById` | backend/src/main.rs:60-70 | answers `Lookup` of the table, so the stored record if the key is present and not-found otherwise; a found record carries the requested `id`; nothing is changed |
| `Backend.AppState.UpdateIssueStatus` | backend/src/main.rs:72-85 | the table becomes `WithStatus` of the old one, so an absent key changes nothing; the answer is the updated record, or not-found; the user table is unchanged; the invariant is kept |
| `Backend.ReportReadResolveList` | backend/src/main.rs:43-93 | on a fresh store: the report answers its identifier; reading it back answers the payload with that `id`; `doesnotexist` is not found; resolving answers the record with status `resolved`; the listing is exactly that one record |

## Left out

- HTTP routing, the `Responder`/`HttpResponse` plumbing and status codes are
  not modelled. The answers are the `Reply` datatype and the identifier string.
- JSON decoding and the 400 answer for a malformed body are not modelled.
  actix and serde handle these before a handler runs.
- The `Mutex` and lock poisoning through `.lock().unwrap()` are not
  modelled. The lock makes each handler one atomic step, and the model
  takes each method call as one such step.
- UUID generation is a nondeterministic foreign call. It is the parameter
  `freshId`, constrained only to the printed UUID v4 shape.
- `f64` latitude and longitude are kept as their 64-bit patterns (`bv64`).
  The store only copies them and never does floating-point arithmetic on them.
- `Backend.AppState.GetIssues`: the hash map's own iteration order is not
  modelled; the loop may visit keys in any order.
- CORS setup, the server bind, the `println!` and the bootstrap in `main`
  are not modelled. Only the construction of the empty state is.
- The frontend (`frontend/src/main.rs`) is not part of this model. It is
  UI rendering and an HTTP fetch, with no logic over the store.
