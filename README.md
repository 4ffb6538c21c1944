# Task-management backend: ownership-scoped tasks and token authentication

This project models the backend of a small task-management service in Dafny.
It covers the parts of the service that keep invariants:

- **Task handlers** (`backend/src/controllers/task.controller.ts`). Each task belongs to one user. Every handler runs for an authenticated caller whose `userId` it receives, and it can read or change only that caller's rows.
  - The list query filters by exact status and by a case-insensitive title search. It orders rows newest first and returns one page, with a count of the matching rows and the number of pages.
  - `getTask`, `updateTask`, `deleteTask` and `toggleTaskStatus` first look up the row by the pair (id, owner). They answer 404 "Task not found" when no row matches.
  - `createTask` always makes the caller the owner.
  - A toggle sends COMPLETED to PENDING and sends any other status to COMPLETED.
- **Authentication handlers** (`backend/src/controllers/auth.controller.ts`).
  - `register` refuses an email that is already taken. Otherwise it stores a salted password digest.
  - `login` gives one and the same error for an unknown email and for a wrong password.
  - Both hand out a pair of signed tokens: an access token valid for 15 minutes and a refresh token valid for 7 days.
  - `refresh` checks a refresh token and issues a new pair for the same user. It revokes nothing.
  - `logout` changes nothing.
- **Request schemas** (`backend/src/utils/validation.ts`). These are validity functions for the register, login, refresh and task bodies.

The model works on abstract in-memory tables, not on the database:

- The task table is a sequence of rows, held by the class `Tasks.TaskStore`.
- The user table is a map keyed by email, held by the class `Auth.AuthGateway`. The gateway also holds a clock in seconds.

Tokens are symbolic values: claims signed under one of two secrets, or malformed text. The password hash is a symbolic digest. `Compare(p, Hash(p, salt))` holds, and no other password matches.

Modules, one file each:

| file | module | source |
|---|---|---|
| `common.dfy` | `Common` | reply shapes (status code with JSON body or error) |
| `validation.dfy` | `Validation` | `backend/src/utils/validation.ts` |
| `task_table.dfy` | `TaskTable` | rows, the (id, owner) lookup, the per-owner view |
| `task_list.dfy` | `TaskList` | the filter, ordering and paging of `getTasks` |
| `tasks.dfy` | `Tasks` | the task handlers and the `TaskStore` class |
| `auth.dfy` | `Auth` | tokens, hashing and the `AuthGateway` class |
| `walkthrough.dfy` | `Walkthrough` | a client session from sign-up to deletion, checked from the contracts alone |

Isolation between users is stated through `TaskTable.OwnedBy(rows, u)`, which is the part of the table that user `u` can reach:

- Each writing handler leaves `OwnedBy(rows, v)` unchanged for every other user `v`.
- What `GetTask` and `GetTasks` answer to `u` depends only on `OwnedBy(rows, u)`. So another user's task looks exactly like a missing one.

Some behaviour of the handlers is easy to misread; the model follows the code:

- A list query whose `status` is not one of the three names reaches the store, which rejects it. The reply is 500 "Server error" (`task.controller.ts:14`, `27-28`).
- `updateTask` validates the body before the ownership lookup. An invalid body therefore gets 400 even for a task the caller does not own (`task.controller.ts:68-71`).
- `refresh` sends every failure to the same 401 "Invalid refresh token", including a body without a `refreshToken` string (`auth.controller.ts:55`, `62-63`).
- An empty `status` or `search` query value adds no condition (`if (status)`, `if (search)`).

## Model

| member | source | states |
|---|---|---|
| `Validation.ParseStatus` | backend/src/utils/validation.ts:20 | a status name is accepted exactly when it is one of PENDING, IN_PROGRESS, COMPLETED, and parses to the status of that name |
| `Validation.StatusNameRoundTrip` | backend/src/utils/validation.ts:20 | every status parses back from its own name |
| `Validation.RequiredString` | backend/src/utils/validation.ts:5 | a required string field with a minimum length: accepted iff present, a string and long enough; the value is kept |
| `Validation.OptionalString` | backend/src/utils/validation.ts:19 | an optional string field: absent is accepted as "left out", a non-string or too-short value rejects the body |
| `Validation.OptionalStatus` | backend/src/utils/validation.ts:20 | an optional status field: absent is "left out"; a present value must be one of the three names and parses to that status |
| `Validation.EmailField` | backend/src/utils/validation.ts:4 | the email field is accepted iff it is a string that passes the email syntax check |
| `Validation.ParseRegister` | backend/src/utils/validation.ts:3-6 | an accepted register body has a valid email and a password of at least 6 characters, and these are the parsed credentials |
| `Validation.RegisterAcceptance` | backend/src/utils/validation.ts:3-6 | a register body with two strings is accepted iff the email is valid and the password has length at least 6 |
| `Validation.ParseLogin` | backend/src/utils/validation.ts:8-11 | an accepted login body has a valid email; the password is returned as given |
| `Validation.LoginAcceptsAnyPassword` | backend/src/utils/validation.ts:8-11 | login accepts any password string, the empty one included, when the email is valid; whatever register accepts, login accepts with the same credentials |
| `Validation.ParseRefresh` | backend/src/utils/validation.ts:13-15 | a refresh body is accepted iff it carries a `refreshToken` string, which is returned |
| `Validation.ParseTask` | backend/src/utils/validation.ts:17-21 | a task body is accepted iff its title is a string of length at least 1, its description is absent or a string, and its status is absent or one of the three names; the result holds the sent title, the sent description (none iff none was sent) and the named status (none iff none was sent) |
| `Validation.ParseTaskPatch` | backend/src/controllers/task.controller.ts:68 | the partial schema accepts a body iff its title is absent or a non-empty string, its description is absent or a string, and its status is absent or one of the three names; each patch field is set iff the body carried it, to the value sent |
| `Validation.UnknownStatusRejected` | backend/src/utils/validation.ts:20 | a status outside the enumeration rejects both the full and the partial task body |
| `Validation.TaskSchemaDropsOwner` | backend/src/controllers/task.controller.ts:35-38 | an owner sent in the body changes nothing in the parsed task data |
| `Validation.FullBodyIsPatch` | backend/src/utils/validation.ts:17-21 | a valid full task body is a valid partial body that sets the same title, description and status |
| `TaskTable.FindOwned` | backend/src/controllers/task.controller.ts:52-54 | the lookup by (id, owner) gives the first row with both, or None exactly when no row has both |
| `TaskTable.OwnedBy` | backend/src/controllers/task.controller.ts:12 | the caller's reach: exactly the rows whose owner is the caller |
| `TaskTable.RemoveAt` | backend/src/controllers/task.controller.ts:92 | deleting the row at a position keeps all other rows, in order |
| `TaskTable.ReplaceKeepsOthers` | backend/src/controllers/task.controller.ts:73-76 | rewriting one of u's rows in place, keeping its owner, leaves every other user's rows as they were |
| `TaskTable.RemoveKeepsOthers` | backend/src/controllers/task.controller.ts:92 | deleting one of u's rows leaves every other user's rows as they were |
| `TaskTable.AppendKeepsOthers` | backend/src/controllers/task.controller.ts:37-39 | adding a row owned by u leaves every other user's rows as they were |
| `TaskTable.FindOwnedSeesOnlyOwner` | backend/src/controllers/task.controller.ts:52-54 | the lookup finds the same row in the whole table as in the caller's own rows, and fails in one exactly when it fails in the other |
| `TaskTable.RemovedIdIsGone` | backend/src/controllers/task.controller.ts:92 | with unique ids, after a row is removed no user can find its id, and ids stay unique |
| `TaskList.LowerChar` | backend/src/controllers/task.controller.ts:15 | ASCII lower-casing: upper-case letters move down by 32, other characters stay, and no upper-case letter remains |
| `TaskList.Lower` | backend/src/controllers/task.controller.ts:15 | lower-casing a string changes each character separately and keeps the length |
| `TaskList.Contains` | backend/src/controllers/task.controller.ts:15 | the search text can only be found in a title at least as long, and a prefix is always found |
| `TaskList.ContainsIffOccurs` | backend/src/controllers/task.controller.ts:15 | the front-to-back search finds a text exactly when it occurs at some offset |
| `TaskList.TitleMatches` | backend/src/controllers/task.controller.ts:15 | `contains` with `mode: 'insensitive'`: a title matches iff the lower-cased search text occurs at some offset of the lower-cased title; an empty search matches every title |
| `TaskList.ContainsEmpty` | backend/src/controllers/task.controller.ts:15 | every title contains the empty search text, so leaving out an empty `search` changes no result |
| `TaskList.ContainsAt` | backend/src/controllers/task.controller.ts:15 | text occurring at some offset of the title is found |
| `TaskList.ContainsHasOffset` | backend/src/controllers/task.controller.ts:15 | text that is found occurs at some offset of the title |
| `TaskList.SearchIgnoresCase` | backend/src/controllers/task.controller.ts:15 | the letter case of the title or of the search text never changes whether the title matches |
| `TaskList.Matches` | backend/src/controllers/task.controller.ts:12-15 | the `where` object: a matching row is always the caller's and has the requested status; with no status and no search, exactly the caller's rows match, and an empty search adds no condition |
| `TaskList.Filter` | backend/src/controllers/task.controller.ts:12-18 | the filtered rows are exactly the matching ones, each as many times as the table holds it |
| `TaskList.FilterSeesOnlyOwner` | backend/src/controllers/task.controller.ts:12 | the filter gives the same rows on the whole table as on the caller's own rows |
| `TaskList.InsertByDate` | backend/src/controllers/task.controller.ts:21 | inserting into a newest-first sequence keeps it newest first and adds exactly that row |
| `TaskList.SortNewestFirst` | backend/src/controllers/task.controller.ts:21 | the ordering is newest first and is a permutation of its input |
| `TaskList.Window` | backend/src/controllers/task.controller.ts:19-20 | skip/take: at most `take` rows, the k-th being row `skip + k`, and not empty while `skip` is inside the sequence and `take` is positive |
| `TaskList.WindowShape` | backend/src/controllers/task.controller.ts:19-20 | skip/take: the page has `take` rows, or fewer at the end, and its k-th row is row `skip + k` |
| `TaskList.WindowOfSorted` | backend/src/controllers/task.controller.ts:19-21 | a page of a newest-first sequence is newest first and holds only rows of that sequence |
| `TaskList.PageCount` | backend/src/controllers/task.controller.ts:26 | `totalPages` is the ceiling of total / limit: enough `limit`-row pages for all rows, and one fewer would not be enough |
| `Tasks.GetTask` | backend/src/controllers/task.controller.ts:47-58 | 200 with a row of the table iff the caller owns a row with that id, and that row has the id and the caller as owner; otherwise 404 "Task not found" |
| `Tasks.GetTaskIsolated` | backend/src/controllers/task.controller.ts:52-56 | what getTask answers depends only on the caller's own rows: another user's task is indistinguishable from a missing one |
| `Tasks.PageOf` | backend/src/controllers/task.controller.ts:9 | the page number is the one given, or 1 when absent |
| `Tasks.LimitOf` | backend/src/controllers/task.controller.ts:9 | the page size is the one given, or 10 when absent |
| `Tasks.Skip` | backend/src/controllers/task.controller.ts:11 | the number of rows on the earlier pages: none for page 1, at least one page's worth for any later page |
| `Tasks.SkipNextPage` | backend/src/controllers/task.controller.ts:11 | each page starts exactly `limit` rows after the previous one |
| `Tasks.SearchOf` | backend/src/controllers/task.controller.ts:15 | the title condition is set iff a non-empty search text is given |
| `Tasks.StatusOf` | backend/src/controllers/task.controller.ts:14 | a non-empty status that is not a status name makes the query fail; an absent or empty one adds no condition; a valid one selects that status |
| `Tasks.ListCriteria` | backend/src/controllers/task.controller.ts:12-15 | the `where` object is for the caller, has a status condition iff a non-empty status was given (the status of that name), and a title condition iff a non-empty search was given (that search) |
| `Tasks.GetTasks` | backend/src/controllers/task.controller.ts:6-29 | the list fails (500) exactly when the status filter names no status; otherwise 200, echoing the page number |
| `Tasks.ListedTasksMatch` | backend/src/controllers/task.controller.ts:12-15 | every listed task is a row of the table owned by the caller, has the requested status and contains the search text ignoring case |
| `Tasks.ListPageWindow` | backend/src/controllers/task.controller.ts:9-22 | the page is newest first and has at most `limit` rows; it holds the matching rows from offset `(page - 1) * limit`, and a full `limit` of them unless the last page is shorter |
| `Tasks.ListTotals` | backend/src/controllers/task.controller.ts:24-26 | `total` is the number of matching rows and `totalPages` is the ceiling of total / limit |
| `Tasks.GetTasksIsolated` | backend/src/controllers/task.controller.ts:12 | what the list answers depends only on the caller's own rows |
| `Tasks.FifteenTasksPaging` | backend/src/controllers/task.controller.ts:9-26 | with 15 owned tasks and the default limit, page 1 has 10 tasks, page 2 has 5, and totalPages is 2 |
| `Tasks.FilterIsOwnedBy` | backend/src/controllers/task.controller.ts:12-15 | with neither status nor search, the list filter keeps exactly the caller's rows |
| `Tasks.Toggled` | backend/src/controllers/task.controller.ts:108 | a toggle gives COMPLETED iff the status was not COMPLETED and PENDING iff it was; it never gives IN_PROGRESS |
| `Tasks.ToggleTwice` | backend/src/controllers/task.controller.ts:108 | two toggles restore a status iff it was not IN_PROGRESS; IN_PROGRESS comes back as PENDING |
| `Tasks.ApplyPatch` | backend/src/controllers/task.controller.ts:73-76 | an update overwrites exactly the fields the patch carries and keeps id, owner and creation time |
| `Tasks.EmptyPatchKeepsTask` | backend/src/controllers/task.controller.ts:68-76 | an empty patch leaves the row unchanged |
| `Tasks.TaskStore.CreateTask` | backend/src/controllers/task.controller.ts:32-45 | an invalid body is 400 and changes nothing; otherwise 201 and one new row is appended. The row has a fresh id, the caller as owner (whatever the body says), the parsed fields, status PENDING unless given, and creation time now. Other rows are untouched |
| `Tasks.TaskStore.UpdateTask` | backend/src/controllers/task.controller.ts:64-82 | an invalid body is 400 and no match is 404, both with no change; otherwise 200 and only the matched row changes, to the patched row. Other users' rows are untouched |
| `Tasks.TaskStore.DeleteTask` | backend/src/controllers/task.controller.ts:84-98 | no match is 404 with no change; otherwise 200 "Task deleted", only that row is removed, and afterwards getTask on that id is 404 for every user |
| `Tasks.TaskStore.ToggleTaskStatus` | backend/src/controllers/task.controller.ts:100-118 | no match is 404 with no change; otherwise 200 and only the matched row's status changes, to its toggled value |
| `Tasks.TaskStore.ReplaceRow` | backend/src/controllers/task.controller.ts:109-112 | `update({ where: { id } })` on the found row: that row is replaced, ids stay unique, other users' rows are untouched |
| `Auth.Sign` | backend/src/controllers/auth.controller.ts:11-12 | a signed token verifies to its user under its own secret exactly until `now + lifetime`, and never under the other secret |
| `Auth.GenerateTokens` | backend/src/controllers/auth.controller.ts:10-14 | both tokens carry the user's id; the access token is signed with the access secret and expires after 15 minutes, the refresh token with the refresh secret after 7 days |
| `Auth.Verify` | backend/src/controllers/auth.controller.ts:57 | token verification yields a subject iff the token is signed under the expected secret and has not expired, and the subject is the token's own |
| `Auth.GeneratedTokensVerify` | backend/src/controllers/auth.controller.ts:10-14 | an issued access token verifies to its user under the access secret for 15 minutes; the refresh token does so under the refresh secret for 7 days; neither verifies under the other secret |
| `Auth.Hash` | backend/src/controllers/auth.controller.ts:25 | the digest records the salt drawn, and the password is the only one that matches it |
| `Auth.Compare` | backend/src/controllers/auth.controller.ts:42 | a password matches a digest iff deriving its key with the digest's stored salt gives that digest |
| `Auth.CompareHash` | backend/src/controllers/auth.controller.ts:42 | a password matches its own stored digest whatever the salt, and no other password matches it |
| `Auth.AuthGateway.Register` | backend/src/controllers/auth.controller.ts:16-35 | an invalid body is 400 and a taken email is 400 "User already exists", both with no change. Otherwise exactly one user is added under that email, with a fresh id and the digest of the password, and the reply is 201 with tokens for the new id |
| `Auth.AuthGateway.Login` | backend/src/controllers/auth.controller.ts:37-51 | an invalid body is 400. Otherwise success iff the email is registered and the password matches its digest; success gives 200 and tokens for the user registered under that email; every other outcome is 401 "Invalid credentials" |
| `Auth.AuthGateway.Refresh` | backend/src/controllers/auth.controller.ts:53-65 | success iff the body carries a token that verifies under the refresh secret now; success gives 200 and a new pair for that token's subject; every failure is 401 "Invalid refresh token" |
| `Auth.AuthGateway.Logout` | backend/src/controllers/auth.controller.ts:67-70 | the reply is always 200 "Logged out successfully", and no state changes |
| `Auth.LoginFailuresIndistinguishable` | backend/src/controllers/auth.controller.ts:41-44 | an unknown email and a wrong password give the identical reply, 401 "Invalid credentials" |
| `Auth.LoginWithRegisteredPassword` | backend/src/controllers/auth.controller.ts:41-47 | the registered email with its password gives 200 and a pair for that user, whose access token verifies to that user's id |
| `Auth.RefreshDoesNotRevoke` | backend/src/controllers/auth.controller.ts:57-61 | after a successful refresh, the old refresh token still verifies to the same subject until its own expiry, and the new pair verifies to that subject |
| `Auth.RefreshRejects` | backend/src/controllers/auth.controller.ts:57-63 | a malformed token, an access token or an expired token is refused with 401 "Invalid refresh token" |

## Left out

- The database layer (Prisma) is an in-memory table. Ids come from counters that stand for the store's unique-key generator. The query engine, store failures and the 500 "Server error" replies they cause are not modelled. The same goes for the `catch` paths of `register` and `updateTask` when the store fails, and for the race between the ownership lookup and the following update or delete.
- `Tasks.GetTasks` requires page and limit to be at least 1, taken as numbers. The handler coerces query strings with `Number(...)`, and its behaviour for page 0, limit 0, negative, fractional or non-numeric values and repeated query keys is not modelled.
- Rows created at the same instant are listed in table order. The store leaves their relative order unspecified.
- `TaskList.Lower` covers ASCII letters only. The store's case-insensitive matching folds other letters as its collation says, and it may treat the `%` and `_` characters specially. Neither is modelled.
- `Validation.RequiredString` counts a string's length in Unicode characters, while the schema's `.min(n)` counts UTF-16 code units. So a password of three characters outside the Basic Multilingual Plane (six code units) is accepted by `register` but rejected by `ParseRegister`. For the title's minimum of 1 the two counts agree, since each is zero only for the empty string.
- Email syntax is the test `isEmail` that the gateway is built with. The schema's email pattern itself is not modelled.
- bcrypt is a symbolic digest with an injective key: the salt is a parameter, and the cost factor and the 72-byte input limit are not modelled.
- JSON Web Tokens are symbolic: signatures, encoding and the `iat` claim are not modelled. The two secrets are taken to be distinct. Loading them from the environment at startup is not modelled.
- The middleware that turns a bearer access token into the caller's `userId` is not part of this model. The handlers receive the caller's `userId`.
- The task table's full column set is not modelled (for example an update timestamp), because the database schema file is not part of this model.
- HTTP routing and app setup (`app.ts`, `server.ts`, `task.routes.ts`), the seeding script, the database connection check and the whole frontend are outside the model.
