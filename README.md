# Exercise tracker: log append and log query

This project models the two pieces of logic in a small exercise-tracker HTTP
service, and proves properties about them. In this service a user document
holds a username and an embedded, ordered list of exercise log entries. Each
entry has a description, a duration and a date.

- **Log query** (`GET /api/users/:_id/logs` in `index.js`). It keeps the
  stored entries whose date lies in the inclusive range `[from, to]`. When
  `limit` is positive, it keeps only the first `limit` of those. It shows each
  survivor as `{description, duration, date}` and reports `count` as the
  number shown. `from` defaults to the epoch and `to` to the current time. An
  unknown user gets 404 `"User not found"`.
- **Exercise append** (`POST /api/users/:_id/exercises` in `index.js` and in
  the variant `final.js`). It checks the id, builds one log entry and pushes
  it onto the user's `logs` in place, then saves the user. `final.js` also
  checks that a supplied date has the `yyyy-mm-dd` shape before it reaches the
  store. Its read returns every stored entry with the total count.

Files and modules:

- `exercise_log.dfy` (`ExerciseLog`): the entry and user records, the request
  fields, the log-entry schema validation, day arithmetic, and how a reply
  shows an entry.
- `document_store.dfy` (`DocumentStore`): the store as a class over a map from
  id to user. `FindById` loads a fresh `UserDocument`, `Push` appends to that
  document's `logs` in place, and `Save` writes the document back.
- `log_query.dfy` (`LogQuery`): the filter / limit / show / count pipeline of
  `index.js`, with the lemmas about what it selects.
- `index_routes.dfy` (`IndexRoutes`): the append of `index.js`, as a pure
  outcome function and as the step-by-step handler over the store.
- `final_routes.dfy` (`FinalRoutes`): the id and date-shape checks, the append
  and the unfiltered read of `final.js`.

Modelling conventions:

- Times are integers: milliseconds since the epoch.
- The current time is a parameter, `now`.
- A request date comes with what JavaScript's date parser makes of it
  (`RawDate(text, parsed)`). `parsed` is `None` for an Invalid Date.
- A request date, and a query's `from` and `to`, counts as absent when it
  is missing or is the empty string, as JavaScript truthiness decides
  (`index.js:93`, `121-122`; `final.js:76`, `94`). A duration is not tested
  for truthiness: see `ToNumber` and `CastNumber` below.
- Two rules about ids are uninterpreted predicates, passed to each handler
  as `IdRules`. `isValid` is the database library's id-format check, which
  the handlers call. `casts` tells which ids the store's lookup can convert.
  For any other id, `findById` throws.
- A request's duration arrives raw: missing, `null`, a string (with the
  number it spells, if any) or a number.
- A rendered calendar date is modelled as the day number it names.

Two behaviours of the code are kept as written, although an API client might
expect otherwise:

- An append for an id with no stored user sends no reply at all. It does not
  send 404.
- In `index.js` an append whose date cannot be parsed is refused by the save.
  Its error text is sent with the default status 200, not as a 400.

## Model

| member | source | states |
|---|---|---|
| `ExerciseLog.Validate` | index.js:16-36 | An entry is accepted exactly when the description is present and non-empty, the duration is a number and the date is valid. An accepted entry keeps the draft's fields unchanged. |
| `ExerciseLog.StartOfDay` | index.js:93-95 | Rendering a time as a calendar date and reading it back gives that day's midnight: a multiple of a day, at most the time and less than a day before it, on the same day, and non-negative for a non-negative time. |
| `LogQuery.FromBound` | index.js:121 | A missing or empty `from` means the epoch (0). A supplied one is the parsed time, or Invalid Date when it does not parse. |
| `LogQuery.ToBound` | index.js:122 | A missing or empty `to` means the current time. A supplied one is the parsed time, or Invalid Date when it does not parse. |
| `LogQuery.FilterRange` | index.js:131-135 | The filtered log is no longer than the stored log, and every kept entry has its date in `[from, to]`. |
| `LogQuery.FilterRangeIsSubsequence` | index.js:131-135 | The filtered log is a subsequence of the stored log: stored entries only, in stored order. |
| `LogQuery.FilterRangeCounts` | index.js:131-135 | Every stored entry in range is kept, as often as it is stored. No entry out of range is kept. |
| `LogQuery.TakeLimit` | index.js:137-138 | The result is a prefix of the filtered entries. With a positive limit its length is `min(limit, n)`; with a limit of zero or less it is all `n` entries. |
| `LogQuery.QueryLogs` | index.js:118-156 | An id the lookup cannot convert gets the 500 reply `"Server Error"`. Any other unknown id gets the 404 reply `"User not found"`. Otherwise the reply carries the id and the user's name. Its `log` is exactly the selected entries, shown in stored order, and `count` equals the length of `log`, at most the number of stored entries. |
| `LogQuery.SelectedCharacterized` | index.js:120-138 | The selected entries form a subsequence of the stored log in stored order, each dated within `[from, to]`. They are always the FIRST entries in range, a prefix of the filtered log. With a positive limit they are `min(limit, n)` of the `n` entries in range. Otherwise (an absent, unparsable, zero or negative limit) they are exactly the stored entries in range, with multiplicity. |
| `LogQuery.InvalidBoundSelectsNothing` | index.js:121-135 | A `from` or `to` that does not parse as a date matches no entry, so the reply has count 0 and an empty log. |
| `LogQuery.FilterRangeAppend` | index.js:132-135 | Filtering a log with one more entry at its end gives the old filtered log, followed by the new entry exactly when that entry is in range. |
| `DocumentStore.Store.FindById` | index.js:82 | The lookup fails (throws) exactly when the store cannot convert the id. It finds nothing exactly when it fails or no user is stored under the id. Otherwise it returns a fresh document holding that user's name and log. |
| `DocumentStore.UserDocument.Push` | index.js:98 | `logs.push(e)` makes the log the old log followed by `e`. The username is unchanged. |
| `DocumentStore.Store.Save` | index.js:100 | Saving replaces the stored user under the document's id with the document's name and log. Every other user is unchanged. |
| `IndexRoutes.StoredDate` | index.js:93-95 | The stored date is a midnight. It is on the supplied date's day when a date is supplied and parses, and on the current day when none is supplied. It is missing (and so refused) when the supplied date does not parse. |
| `IndexRoutes.ToNumber` | index.js:92 | `Number(duration)`: a missing duration is NaN; `null` and `""` become 0; a string gives the number it spells; a number is kept. It agrees with the schema's cast except on `null` and `""`, which the schema refuses and `Number` turns into 0. |
| `IndexRoutes.AddExercise` | index.js:77-116 | The lookup runs first: an id it cannot convert gets no reply, whatever else the request holds. Then a malformed id gets 400 with `"Invalid user ID format"`, and an unknown user gets no reply. A schema refusal gets the save-error reply. None of these changes the store. Otherwise exactly one entry is added, at the end of that user's log, with the submitted description, the duration as `Number` makes it and the stored date. Earlier entries, the username and every other user stay unchanged, and the reply echoes the entry. |
| `IndexRoutes.PostExercise` | index.js:77-116 | The handler (lookup, id check, push onto the loaded document, save) returns the same reply and leaves the store in the same state as `AddExercise` describes. |
| `IndexRoutes.AddedEntryIsListed` | index.js:90-151 | After a successful append without a date, a later log read with no query parameters lists one more entry. That entry is the new one, last, dated on the day of submission. |
| `FinalRoutes.ShapedDate` | final.js:76 | Every zero-padded `yyyy-mm-dd` rendering of a year, month and day passes the shape check. |
| `FinalRoutes.DateFields` | final.js:76 | Every string that passes the shape check is the rendering of a year below 10000, a month below 100 and a day below 100 (a round trip). |
| `FinalRoutes.DateShapeCharacterized` | final.js:76 | The shape check accepts a string exactly when it is such a rendering. |
| `ExerciseLog.CastNumber` | index.js:21-24 | The schema's number cast with `required`: a missing duration, `null` and `""` give no number; a string gives the number it spells, if any; a number is kept. |
| `IndexRoutes.NewDraft` | index.js:90-96 | The object pushed has the submitted description. Its duration is missing (NaN) exactly when the request has no duration or a non-empty string that spells no number. Its date is missing exactly when a supplied date does not parse; otherwise it is a midnight on the supplied day, or on the current day when no date is supplied. |
| `FinalRoutes.NewDraft` | final.js:89-95 | The new entry's date is the supplied date as parsed, or the current time when no date is supplied. The description is carried unchanged. The raw duration is left for the schema to cast. |
| `FinalRoutes.AddExercise` | final.js:68-115 | A malformed id gets 400 with `"Invalid user ID format"`, whatever the date and whatever the store holds. A supplied date of the wrong shape then gets 400 with `"Date must be in yyyy-mm-dd format"`, whatever the store holds. After both checks, an id the lookup cannot convert, or an unknown user, gets no reply. For a known user any other failure is the schema's refusal, which gets the save-error reply. None of these changes the store. Otherwise exactly one entry is added at the end of that user's log, with the submitted description and the duration as the schema casts it, and nothing else changes. The reply echoes the request's own date text, raw duration and description. |
| `FinalRoutes.PostExercise` | final.js:68-115 | The handler (format checks, lookup, push, save) returns the same reply and leaves the store in the same state as `AddExercise` describes. |
| `FinalRoutes.ReadLogs` | final.js:117-141 | An id the lookup cannot convert gets the thrown error's text with status 200, never a 500. Any other unknown id gets 404. Otherwise `count` is the total number of stored entries, and the log has the same length and order as the stored log, each entry shown with its date cut to its calendar day. |
| `FinalRoutes.AddedEntryIsRead` | final.js:91-136 | After a successful append the read lists one more entry: the old list followed by the new entry, which shows the submitted description and the schema-cast duration on the day of the supplied date, or of the submission when no date was supplied. |

## Left out

- Creating and listing users (`index.js:57-75`, `final.js:57-66`) are not part of this model. The model starts from a store of existing users.
- HTTP plumbing is not modelled: CORS, static files, body parsing, the 404 fall-through route and the listener.
- Mongoose models, `connect`, `findById` and `save` are replaced by an in-memory map from id to user.
- Which ids the database library accepts as well formed (`isValid`), and which ones its lookup can convert (`casts`), are parameters, not definitions. The model keeps the source's consequences of a failed conversion for each handler. In the `index.js` append it happens before the id check, so the request gets no reply (`index.js:82`, `113-114`). In the `index.js` read it gets 500 `"Server Error"` (`index.js:153-155`). In the `final.js` append it gets no reply (`final.js:112-114`). In the `final.js` read it gets the error's text with status 200 (`final.js:138-140`).
- Parsing date text is not modelled: each request date carries its parsed value. `toDateString` and `toISOString().substring(0, 10)` are modelled as the day number. The local time zone that `toDateString` uses is not modelled; days are UTC days.
- Durations are integers: JavaScript numbers are doubles, and what a string spells is carried with it rather than parsed. The two variants coerce differently, and the model keeps the difference. `index.js` applies `Number(duration)`, so `null` and `""` are stored as 0. `final.js` hands the raw value to the schema, so they fail `required`. `final.js` also echoes the raw duration from the body, not the stored number.
- The text of a save's error message is not modelled: the reply is `SaveFailed`.
- In the source the entry is pushed before the failing save. The model checks the schema first and never pushes a refused entry. The observable result is the same, because the source discards the document whose save failed.
- Concurrent appends to one user, and the unique-username index of `final.js:41`, are not modelled.
- Console logging and swallowed errors are not modelled.
- In `final.js`, the user schema has no `logs` field (`final.js:37-43`), so the push would fail there. The id is also read from the body field `":_id"` (`final.js:69`). The model uses the path id and an embedded log list, as `index.js` declares it.
- The repeated id check after the lookup in `final.js:85-87` can never fail at that point and is not modelled.
