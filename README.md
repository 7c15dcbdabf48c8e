# Savings ledger of the Savings Community backend, in Dafny

This project models the savings ledger of the Savings Community backend
(`main.py`). The backend keeps four SQLite tables:

- `users`: one row per Google account, with the running `total_saved` and `current_streak`;
- `goals`: savings goals;
- `sacrifices`: habits a user skips to save money, with a `days_count`;
- `feed_events`: an activity log shown to everyone.

Two routes write to these tables. `create_goal` inserts a goal. `log_sacrifice`
finds or creates a sacrifice, credits the user and logs an event. The sign-in
callback finds or creates a user by Google subject id. Four routes only read:
`get_me`, `get_dashboard`, `get_feed` and `get_leaderboard`. Every
authenticated route first parses the `Authorization: Bearer <token>` header.

Modules:

- `Schema` (schema.dfy): the row types, the database as one value `Db`, and
  the invariant `ValidDb`. `ValidDb` says that `AUTOINCREMENT` ids ascend, that
  `google_sub` and `email` are unique, and that no user has two sacrifices with
  the same title.
- `Ordering` (ordering.dfy): the SQL query shapes the routes use. These are
  `WHERE` plus `fetchone()`, `WHERE`, `ORDER BY … DESC` and `ORDER BY … DESC LIMIT k`.
- `LedgerSpec` (ledger_spec.dfy): each write route as a pure function from the
  old database to the new one and the route's answer. The lemmas about these
  functions sit beside them. They include the effect of any sequence of
  `log_sacrifice` calls.
- `LedgerStore` (ledger_store.dfy): class `Ledger`, with one sequence field per
  table, one next-id field per table and a logical clock. Its methods run the
  routes' SQL statements in order, changing the fields in place. Each method is
  proved to reach exactly the state the matching `LedgerSpec` function gives.
- `Views` (views.dfy): the read routes as functions.
- `Auth` (auth.dfy): the header check of `get_current_user`. The JWT decoder
  is a parameter.

Amounts are Dafny `real`s. Timestamps are a logical clock that ticks once per
successful write. Every row a write inserts or touches gets the clock value
from before the tick.

## Behaviour of the code worth knowing

The model follows the code.

- The code does no input validation: empty titles and zero or negative
  amounts are accepted. So no `ValidationError` is modelled, and a negative
  amount lowers `total_saved`.
- The code declares no uniqueness constraint on (user, title) in
  `sacrifices`. Uniqueness holds only because `log_sacrifice` looks the pair
  up before inserting. `ValidDb` carries it as an invariant that every write
  keeps.
- `get_leaderboard` and `get_feed` sort by one key with no tie-break. The
  contracts promise non-increasing order and never an order among ties.
- `get_dashboard` for an id without a users row crashes on `dict(None)` and
  answers 500, not 404. `get_me` answers 404.
- SQLite does not enforce the declared foreign keys by default.
  `create_goal` and `log_sacrifice` for an id without a users row still insert
  their goal, sacrifice and feed rows. The `UPDATE users` then touches no row.
  `get_feed`'s inner join drops such events.

## Model

| member | source | states |
|---|---|---|
| `Ordering.First` | main.py:389-390 | `fetchone()` after a `WHERE`: the first matching position, or `None` exactly when no row matches |
| `Ordering.Where` | main.py:315 | a `WHERE` keeps every matching row as often as it occurs and no other row |
| `Ordering.SortDesc` | main.py:315 | `ORDER BY … DESC` returns a permutation of its input in non-increasing key order |
| `Ordering.TopBy` | main.py:356-357 | `ORDER BY … DESC LIMIT k` returns min(k, n) rows, sorted, drawn from the input, and no row left out has a greater key than a row kept |
| `LedgerSpec.FindUserBySub` | main.py:277-278 | the sign-in lookup finds a row with the given `google_sub`, or reports that none exists |
| `LedgerSpec.FindUserByEmail` | main.py:48 | the `UNIQUE` check finds a user that already holds the email, or reports that the email is free (no user holds it) |
| `LedgerSpec.FindSacrifice` | main.py:389-390 | the lookup finds a row of this user with this title, or reports that none exists |
| `LedgerSpec.CreditUser` | main.py:410-413 | the `UPDATE users` adds the amount to `total_saved` and 1 to `current_streak` of the rows with that id, and leaves every other row unchanged |
| `LedgerSpec.SetDaysCount` | main.py:395-398 | the `UPDATE sacrifices` sets `days_count` and `last_done_date` on the rows with that id only |
| `LedgerSpec.FindOrCreateUser` | main.py:275-288 | a known `google_sub` returns its user's id and writes nothing. An unknown one with a free email inserts exactly one user, with a fresh id, total 0 and streak 0, and returns that id; no other table changes. With no email or a taken email, the insert fails (500) and nothing changes. The invariant is kept |
| `LedgerSpec.CreateGoal` | main.py:361-380 | inserts one goal with a fresh id, `current_amount` 0 and the category or "General". Appends one `goal_created` event {goal id, title} for the caller and keeps the earlier events. Returns the new id. Users and sacrifices are unchanged |
| `LedgerSpec.LogSacrifice` | main.py:382-423 | keeps the invariant. In particular no (user, title) pair appears twice afterwards if none did before |
| `LedgerSpec.Upsert` | main.py:389-407 | the find-or-create step keeps ids ascending and (user, title) pairs unique |
| `LedgerSpec.RepeatKeepsInvariants` | main.py:394-398 | updating the found row by id changes that row only, and keeps ids and unique titles |
| `LedgerSpec.LogUnseenTitle` | main.py:400-407 | for an unseen title: exactly one new row, owned by the caller, with the request's amount and days 1. Earlier rows are unchanged, and the route answers 1 |
| `LedgerSpec.LogKnownTitle` | main.py:392-399 | for a known title: no new row. The found row gains exactly one day and keeps its stored amount whatever the request's amount. Every other row is unchanged, and the route answers the new days count |
| `LedgerSpec.LogCreditsUser` | main.py:409-413 | in either branch, the caller's `total_saved` grows by the request's amount and `current_streak` by 1. Other users and all goals are unchanged |
| `LedgerSpec.LogAppendsEvent` | main.py:415-423 | exactly one `sacrifice_logged` event for the caller is appended, carrying the title and the answered days. Earlier events are unchanged |
| `LedgerSpec.LogEventNamesRow` | main.py:392-420 | the event's sacrifice id is the id of the caller's row for that title, which now holds the answered days count |
| `LedgerSpec.LogSameTitleTwice` | main.py:389-407 | logging a new title twice answers 1 then 2. Exactly one row is created, and it keeps the first amount |
| `LedgerSpec.LogAll` | main.py:382-423 | any sequence of logs keeps the invariant |
| `LedgerSpec.LogAllCredits` | main.py:409-413 | after any sequence of logs, each user's total has grown by the sum of that user's amounts and the streak by the number of that user's logs |
| `LedgerSpec.LogAllAppendsFeed` | main.py:415-420 | after N logs the feed has grown by exactly N events, the old events are an unchanged prefix, and goals are unchanged |
| `LedgerSpec.LogAllEventsInOrder` | main.py:415-420 | after a sequence of logs, the j-th new event is a `sacrifice_logged` event for the j-th request's user and title |
| `LedgerStore.Ledger.constructor` | main.py:46-90 | the fresh database has empty tables, all ids start at 1, and the invariant holds |
| `LedgerStore.Ledger.FindOrCreateUser` | main.py:275-288 | the in-place sign-in steps reach exactly the state and answer of `LedgerSpec.FindOrCreateUser` and keep the invariant |
| `LedgerStore.Ledger.CreateGoal` | main.py:361-380 | the in-place insert of goal and event reaches exactly the state of `LedgerSpec.CreateGoal`, and answers the new id with the request's title |
| `LedgerStore.Ledger.LogSacrifice` | main.py:382-423 | the in-place upsert, credit and event append reach exactly the state and answer of `LedgerSpec.LogSacrifice` and keep the invariant |
| `LedgerStore.Ledger.UpsertSacrifice` | main.py:388-407 | the in-place lookup and update-or-insert reach exactly the table, next id, row id and days of `LedgerSpec.Upsert` |
| `Views.UserById` | main.py:299-300 | finds the row with the id, or reports that none exists |
| `Views.GetMe` | main.py:295-303 | answers the caller's own row, or 404 "User not found" exactly when no row has that id |
| `Views.RecentSacrificesOf` | main.py:321-322 | `WHERE user_id = ? ORDER BY created_at DESC LIMIT 5` returns min(5, n) of the caller's n sacrifices, none more often than it is stored, newest first. None left out is newer than one listed, and all are listed when fewer than 5 are returned |
| `Views.RecentFromMine` | main.py:321-322 | the order and completeness the `LIMIT 5` query has among the caller's rows hold for the caller's rows of the whole table |
| `Views.GetDashboard` | main.py:305-326 | fails (500) exactly when no user has the id. Otherwise it returns the caller's row, all and only the caller's goals newest first, and min(5, n) of the caller's n sacrifices newest first, drawn from the caller's rows without repeating any beyond its stored count. None left out is newer than one listed, and all are listed when fewer than 5 are returned |
| `Views.JoinAuthors` | main.py:334-336 | each joined entry is an event with its author's name and avatar, and every event whose author exists appears |
| `Views.JoinAuthorsEvents` | main.py:334-336 | the join's events are exactly the events whose author has a row, each once and in table order |
| `Views.GetFeed` | main.py:328-347 | at most 20 entries, newest first, each joined to an existing user and drawn from the join with no entry repeated beyond its count there. A full page unless fewer events qualify, and no qualifying event left out is newer than one shown |
| `Views.GetLeaderboard` | main.py:349-359 | min(10, number of users) lines in non-increasing `total_saved`, each the line of a real user and no line repeated beyond its count among all users' lines. No user left out has saved more than a listed one |
| `Views.LeaderRowsOfTop` | main.py:353-359 | the leaderboard lines inherit the order, the multiset inclusion and the dominance of the top users they project |
| `Views.LinesKeepInclusion` | main.py:353 | selecting the columns of some of the users gives lines drawn from the lines of all users, each at most as often |
| `Auth.AfterFirst` | main.py:209 | `split(" ", 1)[1]` is the text after the first occurrence of the separator |
| `Auth.ParseAuthorization` | main.py:205-209 | the header is accepted exactly when it starts with "Bearer ", and then the header is "Bearer " followed by the token. Otherwise the answer is 401 "Invalid authorization header" |
| `Auth.CurrentUser` | main.py:205-215 | a bad header gives 401 "Invalid authorization header". Otherwise the answer is the decoder's user id for the text after "Bearer ", or 401 "Invalid or expired token" when the decoder refuses it |

## Left out

- The Google OAuth code exchange and userinfo fetch (main.py:232-273) are network I/O. Their result (`sub`, email, name, picture) is a parameter of `FindOrCreateUser`.
- JWT creation and decoding (main.py:198-203, 211-215) use a foreign library and the wall clock. Decoding is the parameter `decode` of `Auth.CurrentUser`.
- Auth.CurrentUser: answers 401 "Invalid or expired token" for every token the decoder refuses. The source does so only for a `JWTError`. A `sub` claim that is not an integer raises `ValueError` at main.py:212, and a payload with no `sub` raises `KeyError` there. Neither is caught by `except JWTError` (main.py:214), so the route answers 500 in those two cases.
- The redirects that carry the token (main.py:232-242, 290-292) are not modelled.
- SQLite plumbing is replaced by the in-memory `Ledger` object: connections, `init_db` schema creation and commits (main.py:41-99, 171-178).
- Demo data seeding in `create_dummy_data` (main.py:101-169) only inserts fixed rows.
- The FastAPI app, CORS, startup hook, static file route and `Settings` (main.py:20-36, 180-193, 228-230) are framework setup. So is FastAPI's 422 answer for a missing `Authorization` header.
- JSON encoding of `event_data` (main.py:373, 416, 344) is not modelled; the payload is the datatype `EventData`.
- Floating point: amounts are `real`, so `REAL` rounding is not modelled.
- Clocks: `CURRENT_TIMESTAMP` (UTC, whole seconds) and `datetime.now()` (local time) are one logical clock that ticks once per successful write. Stored timestamps are ticks, not text.
- Concurrency and transactions: each route runs as one sequential step. The source has no retry and no uniqueness constraint on (user_id, title), so two concurrent first logs of one title could insert two rows. The sequential model cannot show this.
- `last_save_date` is never written by a route, only by the seeding. The model keeps the column and no operation changes it.
- Views.GetFeed: does not state an order among events with equal `created_at`, because SQLite leaves it unspecified.
- Views.GetLeaderboard: does not state an order among users with equal `total_saved`, for the same reason.
- LedgerSpec.FindOrCreateUser: an `IntegrityError` on insert is modelled as the generic 500 answer. The two constraint messages are not told apart.
