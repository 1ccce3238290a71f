# Exercise tracker: a Dafny model of the user store and exercise log

The service keeps two arrays in process memory, `users` and `exercises`.
They are only ever appended to. Four HTTP handlers work on them:

- `POST /api/users` creates a user `{username, _id}`.
- `GET /api/users` lists every user.
- `POST /api/users/:_id/exercises` logs an exercise for an existing user.
- `GET /api/users/:_id/logs` reads a user's exercises. The read can be narrowed by an inclusive `from`/`to` date window and cut to `limit` entries.

This project models that core in Dafny and proves what the handlers promise.

- `wrappers.dfy` (module `Wrappers`): `Option`. It stands for a missing request field, and for a `parseInt` that gave NaN.
- `js_values.dfy` (module `JsValues`): JavaScript truthiness of a request string (missing and `""` are falsy). Dates are reduced to their time value: `Instant` is milliseconds or `InvalidDate`, which stands for NaN. `StartOfDay` models `toDateString()` followed by `new Date(...)` of that text. Date comparisons are false whenever NaN is involved.
- `js_arrays.dfy` (module `JsArrays`): `Array.prototype.filter` as `Filter`. `slice(0, n)` as `Slice`, following section 23.1.3.28 of ECMA-262: a NaN end keeps nothing, a negative end counts back from the length, and the end is clamped to the length. The subsequence relation, and lemmas about filtering twice, filtering an extended array, and prefixes.
- `tracker.dfy` (module `Tracker`): the records, `findUserById`, the log query as the handler computes it (`Select`, a filter/filter/filter/slice chain), and the class `Store`. Its fields `users` and `exercises` are the two module-level arrays. Its methods append to them the way `push` does.
- `tracker_properties.dfy` (module `TrackerProperties`): the properties of the query and of the lookup, and a short client of `Store`.

Inputs from outside the handlers are parameters:

- the new user's id, which the service builds from `Date.now()`;
- the current time used when an exercise has no date;
- the date parser `new Date(text)` and `parseInt`, given as functions (`Parsers`).

Ids are not assumed to be unique.

The log query is stated two ways. `Select` follows the handler's steps. `Window` is one filter by the whole criterion `InWindow`: the user's exercise, on or after `from` if given, on or before `to` if given. `SelectIsWindow` proves the two agree. The lemmas about the log are derived from that.

Two details of the code that the model follows:

- A non-numeric `limit` makes the code call `slice(0, NaN)`, which returns an empty array, so the log is then empty (`SelectWithLimit`).
- Responses carry the field `_id`. The model's `id` fields stand for it.

## Model

| member | source | states |
|---|---|---|
| `Tracker.FindUserById` | index.js:20 | the lookup fails exactly when no user has the id; a found user has that id and is one of the users |
| `TrackerProperties.FindUserByIdEarliest` | index.js:20 | with duplicate ids, the lookup returns the earliest user with that id |
| `TrackerProperties.FindUserByIdAfterCreate` | index.js:27 | appending a user never changes what an already-known id resolves to; an unknown id resolves to the new user exactly when the ids match |
| `Tracker.Store.constructor` | index.js:16-17 | the store starts with no users and no exercises |
| `Tracker.Store.CreateUser` | index.js:23-29 | appends exactly one record `{username, id}` at the end of users, leaves earlier users and all exercises unchanged, and answers with the new record |
| `Tracker.Store.ListUsers` | index.js:32-34 | answers every user in insertion order and changes nothing |
| `Tracker.ExerciseDate` | index.js:46-51 | with no date or an empty one, the stored date is the start of the day containing now; with one, it is invalid exactly when the parse is, and otherwise the start of the day containing the parsed instant |
| `Tracker.Store.LogExercise` | index.js:37-62 | an unknown id answers "User not found" and changes neither array; a known id appends exactly one exercise with the path id as owner, and answers with the found user's name and id and the stored description, duration and date |
| `Tracker.Store.GetLog` | index.js:65-103 | "User not found" exactly when the id is unknown; otherwise the user's name and id, a count equal to the log's length, and one `{description, duration, date}` entry per selected exercise, in order |
| `Tracker.Entries` | index.js:97-101 | the log has one entry per selected exercise, each its description, duration and date |
| `TrackerProperties.SelectIsWindow` | index.js:74-91 | the handler's filter chain equals one filter by owner and window, then the limit if one is given |
| `TrackerProperties.SelectInWindow` | index.js:74-88 | every returned exercise is a logged one, belongs to the user, is on or after `from` when given and on or before `to` when given |
| `TrackerProperties.SelectIsSubsequence` | index.js:74-91 | the returned exercises are a subsequence of all exercises in insertion order, not re-sorted |
| `TrackerProperties.SelectWithoutLimit` | index.js:74-88 | without a limit, an exercise is returned exactly when it is logged, the user's and inside the window |
| `TrackerProperties.SelectKeepsDuplicates` | index.js:74-88 | without a limit, each matching exercise appears in the log as many times as it was logged, and a non-matching one not at all |
| `TrackerProperties.SelectWithLimit` | index.js:89-91 | a limit n >= 0 keeps the first min(n, len) windowed exercises; a NaN limit keeps none; a negative n keeps the first max(len + n, 0) |
| `TrackerProperties.OtherUsersLogUnchanged` | index.js:74 | logging an exercise for one user leaves every other user's log unchanged |
| `TrackerProperties.LoggedExerciseJoinsLog` | index.js:53 | a new exercise inside the window appears at the end of an unlimited log; otherwise the log is unchanged |
| `TrackerProperties.InvalidDateNeverInBoundedLog` | index.js:77-88 | an exercise stored with an Invalid Date never appears in a log that has a `from` or a `to` |
| `TrackerProperties.AnsweredDateSelectsExercise` | index.js:77-88 | the date an exercise was answered with, used as both `from` and `to`, selects that exercise again |
| `JsValues.StartOfDay` | index.js:51 | printing a date with `toDateString()` and parsing it back gives the start of its day: at or before the instant, less than a day before; invalid stays invalid |
| `JsValues.StartOfDayIdempotent` | index.js:80 | re-parsing a stored date and storing it again gives the same day |
| `JsArrays.Filter` | index.js:74 | every element `filter` returns is from the input and passes the test, every input element that passes is returned, and the result is no longer than the input |
| `JsArrays.FilterMultiplicity` | index.js:74 | `filter` keeps every copy of an element that passes the test and no copy of one that fails it |
| `JsArrays.Slice` | index.js:90 | `slice(0, n)` returns a prefix whose length follows ECMA-262: none for NaN, min(n, len) for n >= 0, max(len + n, 0) for n < 0 |

## Left out

- Express, CORS, static files, `sendFile` and `app.listen` with the port setting: these are transport plumbing.
- JSON serialisation: a reply is a datatype (`Ok` or `UserNotFound`), and `UserNotFound` stands for the 404 with `{error: "User not found"}`. A missing username or description (`undefined`) is `None`. A NaN duration (serialised as `null`) is `None`.
- Date text: stored and answered dates are modelled by the instant their text parses back to. The "Www Mmm DD YYYY" spelling is not modelled.
- Time zones: `StartOfDay` cuts at UTC midnight, but the service cuts at local midnight. So the case where a date-only string parses as UTC midnight and prints as the previous local day is not captured.
- Date range: the ±8.64e15 ms limit of valid Date values is not modelled.
- The date parser and `parseInt` are parameters. Their internals are not modelled. `duration` arrives already parsed.
- Id generation: `Date.now()` is replaced by a parameter. Two users created in the same millisecond get the same id, so ids are not assumed distinct.
- Repeated query keys (`?from=a&from=b`), which Express turns into arrays, and non-string JSON bodies for text fields.
- Concurrency: each handler runs to completion before the next starts, so each is one method or function call.
