# Event store and user creation of the user/role management API, in Dafny

This project models the data-access core of a serverless user/role API.
Its main part is the outbox table `event_store` and the three operations
of `EventDAO`:

- `storeEvent` appends a domain event.
- `markEventProcessed` records the outcome of one processing attempt.
- `getUnprocessedEvents` is the bounded retry scan a consumer uses to fetch
  work.

Its second part is `UserDAO.createUser`. It inserts a user, copies the
generated id and timestamps back into the `User` object, then assigns the
user's roles one by one through `assignRoleToUser`.

There is no database behind the model. Each table is a sequence of rows in
insertion order, held by a class:

- `EventDao.EventDao` holds `events`.
- `UserDao.UserDao` holds `users` and `userRoles`.
- A counter (`nextId`, `nextUserId`) stands in for each id sequence.
- A `nat` clock stands in for `CURRENT_TIMESTAMP`.

Each SQL statement is a function over the table (module `EventStore`):

- the INSERT is `NewEvent`, appended;
- the UPDATE is `MarkProcessed`;
- the SELECT is `Scan`, which is `Pending` (the WHERE clause), then
  `SortByTime` (ORDER BY event_time ASC), then a prefix of length
  `FetchCount` (FETCH FIRST n ROWS ONLY).

The class methods are proved against these functions. The lemmas beside the
functions state what the code promises.

Whether the database accepts a statement is not computed by the model.
Every writing operation takes the database's verdict as an argument
(`rejected`, `insertRejected`, `roleRejected`). A rejected statement returns
`Err(SqlException)` and changes nothing. The retry scan takes such a
verdict too: a refused SELECT raises and changes nothing. This is how the code's
log-and-rethrow of `SQLException` appears in the model.

Assumptions about the schema, which the code does not show: a new event row
gets `event_time` = now, `processed` = 'N', `processing_attempts` = 0, and
NULL `process_time` and `error_message` (see `EventStore.NewEvent`). A new
users row gets `created_at` = `updated_at` = now.

The model follows the code as written, also where a reader might expect
otherwise:

- A failed report sets `processed` back to 'N', also on a row that was
  already processed. Success is not sticky.
- `error_message` is overwritten with whatever is passed, also on success.
  It is not cleared.
- `maxAttempts` and `limit` may be any integer. A cutoff of 0 or less
  matches nothing. A limit of 0 or less returns no rows.

The clients `EventDao.LifecycleScenario` and `UserDao.CreateUserScenario`
walk through two scenarios, checked by the verifier:

- an event is stored, fails three times, is hidden under cutoff 3 and is
  uncovered under cutoff 5;
- a user is created with two roles, then another user whose second role
  assignment is refused.

## Model

| member | source | states |
|---|---|---|
| `Sql.YesNo` | src/main/java/com/userrolemgmt/dao/EventDAO.java:58 | the CHAR(1) flag is 'Y' or 'N', and it is 'Y' exactly when the boolean is true |
| `EventStore.Find` | src/main/java/com/userrolemgmt/dao/EventDAO.java:55 | the row matched by `WHERE event_id = ?` is a row of the table with that id; no row found means no row has that id |
| `EventStore.FindMember` | src/main/java/com/userrolemgmt/dao/EventDAO.java:55 | when event_id is a key, looking up a row's id finds that row |
| `EventStore.AppendFresh` | src/main/java/com/userrolemgmt/dao/EventDAO.java:24-39 | an id above all existing ids is fresh and keeps event_id a key; the appended row is found by its id and matches the retry scan for every positive cutoff |
| `EventStore.NewEvent` | src/main/java/com/userrolemgmt/dao/EventDAO.java:25 | the INSERT supplies event_type, subject and data and gets the generated id; the other columns take the schema defaults this model assumes (event_time = now, processed = 'N', attempts 0, NULL process_time and error_message), so the new row matches every positive cutoff |
| `EventDao.EventDao.StoreEvent` | src/main/java/com/userrolemgmt/dao/EventDAO.java:24-44 | appends exactly one row holding the given type, subject and data with the schema defaults; returns its id, which is fresh and comes from the counter; a rejected insert raises and leaves table and counter unchanged |
| `EventStore.Reported` | src/main/java/com/userrolemgmt/dao/EventDAO.java:54-59 | the SET list applied to a row: its fixed columns stay, attempts grow by 1, processed is 'Y' exactly when success, process_time is the clock and error_message the argument |
| `EventStore.MarkProcessed` | src/main/java/com/userrolemgmt/dao/EventDAO.java:54-55 | the UPDATE keeps the number of rows, their ids, type, subject, data and event_time; attempts never decrease; event_id stays a key |
| `EventStore.MarkUpdatesRecord` | src/main/java/com/userrolemgmt/dao/EventDAO.java:54-59 | on an existing id: attempts grow by exactly 1 whatever `success` is; processed becomes 'Y'/'N' from `success`, even on a processed row; process_time is the clock; error_message is the argument, also on success |
| `EventStore.MarkKeepsOthers` | src/main/java/com/userrolemgmt/dao/EventDAO.java:55 | every row with another id keeps its state |
| `EventStore.MarkUnknownIdIsNoop` | src/main/java/com/userrolemgmt/dao/EventDAO.java:62 | an id that matches no row leaves the table unchanged and is no error |
| `EventStore.ReportAll` | src/main/java/com/userrolemgmt/dao/EventDAO.java:54-55 | a run of UPDATEs for one id keeps the number of rows, their ids and fixed columns and the key, and never lowers attempts |
| `EventStore.ReportsCountAttempts` | src/main/java/com/userrolemgmt/dao/EventDAO.java:54-55 | after N reports for one row, whatever mix of outcomes, its attempts have grown by exactly N, its fixed columns are unchanged, and its flag is that of the last report |
| `EventStore.FailedReportReopens` | src/main/java/com/userrolemgmt/dao/EventDAO.java:58 | a failed report on a processed row makes it unprocessed; it is matched again while attempts stay below the cutoff |
| `EventStore.SuccessfulReportHides` | src/main/java/com/userrolemgmt/dao/EventDAO.java:54-81 | right after a successful report the row is in no scan, for any cutoff and limit |
| `EventDao.EventDao.MarkEventProcessed` | src/main/java/com/userrolemgmt/dao/EventDAO.java:53-69 | the table becomes the UPDATE of the old one; on an existing id the row gets attempts + 1, flag from `success`, process_time = clock and the given error_message; an unknown id changes nothing; other ids keep their rows; a rejected update raises and changes nothing |
| `EventStore.Eligible` | src/main/java/com/userrolemgmt/dao/EventDAO.java:80 | the WHERE clause `processed = 'N' AND processing_attempts < ?`; a cutoff of 0 or less matches nothing, and a processed row never matches |
| `EventStore.Pending` | src/main/java/com/userrolemgmt/dao/EventDAO.java:80 | the matching rows are exactly the rows with processed = 'N' and attempts below the cutoff, each as often as in the table |
| `EventStore.InsertByTime` | src/main/java/com/userrolemgmt/dao/EventDAO.java:81 | inserting into a list sorted by event_time gives a sorted list with the same rows plus the new one |
| `EventStore.SortByTime` | src/main/java/com/userrolemgmt/dao/EventDAO.java:81 | ORDER BY event_time ASC gives a list sorted by event_time that is a permutation of its input |
| `EventStore.FetchCount` | src/main/java/com/userrolemgmt/dao/EventDAO.java:81 | FETCH FIRST n takes min(n, available) rows, and none when n is 0 or less |
| `EventStore.PrefixIsOldest` | src/main/java/com/userrolemgmt/dao/EventDAO.java:81 | in a list sorted by event_time, every row of a prefix is at least as old as every row outside it |
| `EventStore.Scan` | src/main/java/com/userrolemgmt/dao/EventDAO.java:79-81 | every returned row is in the table with processed = 'N' and attempts below the cutoff; no row is returned more often than it matches; the result is sorted by event_time; its length is min(limit, number of matching rows); no matching row left out is older than a returned one |
| `EventStore.PrefixDrawn` | src/main/java/com/userrolemgmt/dao/EventDAO.java:81 | FETCH FIRST n returns no row more often than the ordered result holds it |
| `EventStore.ScanDistinct` | src/main/java/com/userrolemgmt/dao/EventDAO.java:79-81 | under the key on event_id the scan returns no event twice |
| `EventStore.KeyOccursOnce` | src/main/java/com/userrolemgmt/dao/EventDAO.java:79 | under the key on event_id a row occurs at most once in the table |
| `EventStore.DistinctUnderKey` | src/main/java/com/userrolemgmt/dao/EventDAO.java:79 | rows drawn from a keyed table, none more often than in the table, have distinct ids |
| `EventStore.ScanReturnsAllWhenRoom` | src/main/java/com/userrolemgmt/dao/EventDAO.java:79-81 | when the limit is at least the number of matching rows, every matching row is returned |
| `EventStore.ProcessedIsHidden` | src/main/java/com/userrolemgmt/dao/EventDAO.java:80 | a processed row is never returned |
| `EventStore.RaisingCutoffUncoversExhausted` | src/main/java/com/userrolemgmt/dao/EventDAO.java:80 | an unprocessed row with attempts at or above the cutoff is not returned; it matches again under any cutoff above its attempts, and is returned there when the limit leaves room |
| `EventStore.Columns` | src/main/java/com/userrolemgmt/dao/EventDAO.java:79 | the five selected columns of a row: event_id, event_type, subject, data, processing_attempts |
| `EventStore.ColumnsOf` | src/main/java/com/userrolemgmt/dao/EventDAO.java:79 | one selected row per scanned row, in the same order |
| `EventStore.ScanRowsFound` | src/main/java/com/userrolemgmt/dao/EventDAO.java:79 | under the key, each selected event_id denotes the scanned row, with its event_time |
| `EventStore.NotReturned` | src/main/java/com/userrolemgmt/dao/EventDAO.java:79 | a row whose id is not among the selected ids was not returned |
| `EventStore.BatchRowsFound` | src/main/java/com/userrolemgmt/dao/EventDAO.java:79-80 | each selected event_id finds an unprocessed row below the cutoff whose selected columns are the returned ones |
| `EventStore.BatchOrdered` | src/main/java/com/userrolemgmt/dao/EventDAO.java:81 | the selected rows, looked up by id, keep the event_time order |
| `EventStore.BatchOldest` | src/main/java/com/userrolemgmt/dao/EventDAO.java:80-81 | no matching row whose id was not selected is older than a selected one |
| `EventStore.OnlyRowBatch` | src/main/java/com/userrolemgmt/dao/EventDAO.java:79-81 | on a one-row table a batch with room is that row's columns when it matches, and empty otherwise |
| `EventStore.ScanColumns` | src/main/java/com/userrolemgmt/dao/EventDAO.java:79-88 | the scan's properties hold for the five selected columns, with each row identified by its event_id and no event selected twice (`IsRetryBatch`) |
| `EventDao.EventDao.GetUnprocessedEvents` | src/main/java/com/userrolemgmt/dao/EventDAO.java:78-93 | read-only; a refused query raises; otherwise the result is a retry batch of the table (`IsRetryBatch`): no event twice; each returned row carries the columns of an unprocessed row below the cutoff; rows come oldest first; min(limit, matching) rows; no matching row left out is older than a returned one |
| `UserDao.UserDao.AssignRoleToUser` | src/main/java/com/userrolemgmt/dao/UserDAO.java:67-80 | appends exactly the (userId, roleId) row and returns true exactly when the affected-row count is positive; a rejected insert raises and changes nothing |
| `UserDao.NewUserRow` | src/main/java/com/userrolemgmt/dao/UserDAO.java:24-37 | the users row holds the user's username, email, password hash, first and last name, active as 'Y' exactly when isActive(), and the generated id and timestamps |
| `UserDao.UserDao.InsertUser` | src/main/java/com/userrolemgmt/dao/UserDAO.java:24-49 | appends exactly one users row with a fresh id from the counter, and sets userId, createdAt and updatedAt of the object to the generated values |
| `UserDao.RoleList` | src/main/java/com/userrolemgmt/dao/UserDAO.java:52-53 | a null role list gives no roles; otherwise the roles are iterated as given |
| `UserDao.RoleRows` | src/main/java/com/userrolemgmt/dao/UserDAO.java:53-55 | one (userId, roleId) row per role, in list order |
| `UserDao.RoleRowsAppend` | src/main/java/com/userrolemgmt/dao/UserDAO.java:53-55 | assigning two runs of roles one after the other inserts the rows of the first run, then those of the second |
| `UserDao.FirstRefused` | src/main/java/com/userrolemgmt/dao/UserDAO.java:53-54 | the number of role assignments that go through is the first refused position, or all of them when none is refused |
| `UserDao.UserDao.AssignRoles` | src/main/java/com/userrolemgmt/dao/UserDAO.java:52-56 | the loop adds (userId, roleId) for the roles before the first refused one, in order, and reports whether all went through |
| `UserDao.UserDao.CreateUser` | src/main/java/com/userrolemgmt/dao/UserDAO.java:22-64 | a rejected users insert raises and changes nothing; otherwise one users row is added; the same object comes back with userId, createdAt, updatedAt set and no other field changed; one user_roles row per role in order; none for a null or empty list; a refused assignment raises with the user row and earlier role rows left in place (no rollback) |

## Left out

- `CreateUserFunction.java` (HTTP trigger, Gson JSON mapping, status codes 400/201/500): foreign libraries, with too little logic to model.
- `DatabaseConnection`, JDBC statement and result-set handling, and the statement left unclosed in `getUnprocessedEvents`: I/O and resource management. `GetUnprocessedEvents` returns a sequence, not a lazy cursor.
- Why the database refuses a statement (lost connection, constraint violation): each refusal is an argument of the operation. A refused insert leaves the id counter unchanged, although Oracle may consume a sequence value.
- Oracle PL/SQL specifics (`RETURNING ... INTO`, `FETCH FIRST`), sequences and real timestamps: they are a counter and a `nat` clock. The clock moves only through `Tick`.
- Logging, and the log-and-rethrow of `SQLException`: a failure is `Err(SqlException)`, passed through unchanged.
- Concurrent scans and reports against the shared table (no claim or lease, interleaving): the model is sequential.
- Schema defaults (`processed`, `processing_attempts`, `event_time`, `created_at`, `updated_at`): stated assumptions in `NewEvent` and `NewUserRow`, not verified behaviour.
- Java `null` for the string arguments and user fields other than `error_message`, `createdAt`, `updatedAt` and the role list: strings are never null in the model.
- 64-bit `long` ids and 32-bit `int` parameters: integers are unbounded, so overflow is not modelled.
- `EventStore.SortByTime`: the model orders rows with equal `event_time` by table order. SQL leaves that order open.
- The `User` and `Role` model classes are not part of this model. Only the fields `createUser` uses are declared, and a role is just its id.
