# Issue tracker back end: a verified model of the controllers

This project models the request handlers of a small issue tracker written in
Node.js with Express and MySQL. The three modelled controllers are:

- the issue controller: create, list, fetch, update, status change, delete and export;
- the auth controller: login, forgot password, reset password and accepting an invitation;
- the user controller: invite, list, fetch, update and delete.

The database is a class `Tables.Db` with two tables, `users` and `issues`. Each
table is a map from the auto-increment id to the row, and each has a counter
for the next id.

Every SQL statement becomes an operation on those maps:

- a `SELECT ... WHERE` is a lookup or a filter over the rows in id order;
- `INSERT`, `UPDATE` and `DELETE` reassign the maps.

Each handler is a method or, when it only reads, a function. It returns a
status code with either a payload or an error message (`Common.Response`).
`AuthController.Login` and `UserController.GetUsers` are functions over the
`users` map. A handler that writes has a `modifies db` clause. Its contract fixes the new state exactly, and it keeps `Db.Valid()`:

- row ids equal their keys;
- emails are unique;
- no two users hold the same token.

The longer guard ladders are also stated as separate functions that return
the first rejection, in the handler's order: `CreateRejection`,
`UpdateRejection`, `StatusRejection`, `PasswordRejection`, `ResetRejection`,
`AcceptRejection`, `InviteRejection` and `UserUpdateRejection`. The handler
methods are proved against those functions. The short ladders are stated
rung by rung in the handlers' own contracts: `Login`, `ForgotPassword`,
`GetIssueById`, `DeleteIssue`, `GetUserById` and `DeleteUser`.

Request bodies keep JavaScript's distinction between an omitted field, `null`
and a value (`Common.Arg`). This matters because:

- the handlers test truthiness for validation;
- they write a field only when it is not `undefined`.

Things outside the controllers are inputs:

- the clock is an integer `now` in seconds;
- reset and invitation tokens and bcrypt salts are supplied by the caller;
- SHA-256, bcrypt and the JWT signer are fields of `AuthController.Crypto`;
- the outcome of the invitation email is a `UserController.MailOutcome`;
- the formatting of a timestamp in CSV is a function parameter;
- the admin gate on invite, update and delete is the precondition `IsAdmin(caller)`.

Where the intended behaviour and the code differ, the model follows the code:

- A page or limit of 0 falls back to the default (1 or 10); it is not rejected.
- A user with no password hash gets 403 at login, not 401.
- Modifying one's own role or status, and deleting one's own account, give 400.
- The export accepts fewer filters than the list: no search, assignee or creator.
- Reset and invitation tokens share one column.
  - A password reset on an invited account sets a hash but leaves it `invited`.
  - `AuthController.ResetKeepsInvitation` proves that such an account is still told to accept its invitation.

## Model

| member | source | states |
|---|---|---|
| Common.OrNull | controllers/issueController.js:37 | `field \|\| null` is null exactly when the field is omitted, null or empty, and otherwise the field itself |
| Common.OrDefault | controllers/issueController.js:38-39 | `field \|\| 'medium'`: the value when it is truthy, otherwise the fallback |
| Common.Patch | controllers/issueController.js:257-290 | an omitted field keeps the column, null clears it, and a value is written |
| Common.Upper | controllers/issueController.js:91 | `toUpperCase` keeps the length and upper-cases each character |
| Sequences.Filter | controllers/issueController.js:93-126 | a WHERE clause keeps exactly the rows that satisfy it, and never more rows than it was given |
| Sequences.FilterCounts | controllers/issueController.js:143-152 | each row that satisfies the WHERE clause is kept as often as it occurs, and no other row is kept, so the count query counts the matching rows |
| Sequences.FilterConcat | controllers/issueController.js:143-146 | filtering distributes over concatenation, so the kept rows stay in table order |
| Sequences.FilterAgrees | controllers/issueController.js:148-152 | two conditions that agree on every row select the same rows, so the count query and the page query see one filtered set |
| Sequences.InsertionSort | controllers/issueController.js:128-135 | ORDER BY returns the same rows, as a multiset, sorted by the comparison |
| Sequences.SortedMembers | controllers/issueController.js:128-135 | sorting neither adds nor loses a row |
| Common.Join | controllers/issueController.js:447-450 | `Array.join`: the items with the separator between consecutive ones |
| Common.Day | controllers/issueController.js:413-420 | SQL `DATE(created_at)`: the day number of a timestamp |
| Tables.IsActiveUser | controllers/issueController.js:11-19 | `SELECT id FROM users WHERE id = ? AND status = "active"` finds a row |
| Paging.OrFallback | controllers/issueController.js:79-80 | `parseInt(x) \|\| default`: an absent or zero value means the default |
| Paging.Paginate | controllers/issueController.js:79-85 | accepted exactly when the parsed page ≥ 0 and 0 ≤ limit ≤ 100 before the fallback; then page ≥ 1, 1 ≤ limit ≤ 100 and offset = (page − 1) · limit ≥ 0 |
| Paging.ZeroMeansDefault | controllers/issueController.js:79-85 | page 0 and limit 0 become page 1 and limit 10; limit 101 and negative values are rejected |
| Paging.PageCount | controllers/issueController.js:177 | `Math.ceil(total / limit)`: pages · limit ≥ total, (pages − 1) · limit < total, and 0 pages for 0 rows |
| Paging.Window | controllers/issueController.js:144 | LIMIT/OFFSET keeps at most `limit` consecutive rows starting at `offset` |
| Tables.Rows | controllers/issueController.js:143-146 | the table scanned in id order; `Tables.RowsMembers` and `Tables.IssueRowsExact` state which rows it holds |
| Tables.FindUser | controllers/authController.js:14-23 | on a column that identifies at most one user, the lookup finds that user, or none when no user matches |
| Tables.UserByEmail | controllers/authController.js:14-23 | `WHERE email = ?` finds the one user with that email, or reports that none has it |
| Tables.EmailOf | controllers/issueController.js:191-196 | a LEFT JOIN yields the user's email when the id exists and null otherwise |
| IssueQuery.SelectWhere | controllers/issueController.js:143-146 | the rows returned are exactly those that meet every conjunct of the WHERE clause |
| IssueQuery.ListMatches | controllers/issueController.js:93-126 | the filtered issues are exactly the rows that pass the field-by-field list filter |
| IssueQuery.ListWhere | controllers/issueController.js:93-126 | the appended conjuncts hold of an issue exactly when it meets the search, status, priority, severity, assignee (`unassigned` ⇔ no assignee) and creator filters |
| IssueQuery.SortKeyOf | controllers/issueController.js:87-91 | the sort is by due date exactly when `sort_by` is `due_date`, and ascending exactly when the upper-cased order is `ASC` |
| IssueQuery.IssueLe | controllers/issueController.js:128-135 | the ORDER BY comparison for each key; its properties are `IssueQuery.DueDateOrder` and `IssueQuery.CreatedAtOrder` |
| IssueQuery.IssueOrderIsTotalPreorder | controllers/issueController.js:128-135 | each ORDER BY used is total and transitive |
| IssueQuery.SortIssues | controllers/issueController.js:128-135 | the sorted issues are the filtered issues, as a multiset, in the key's order |
| IssueQuery.DueDateOrder | controllers/issueController.js:129-135 | a due-date sort puts null due dates last, orders dated rows in the chosen direction, and breaks ties newest first |
| IssueQuery.CreatedAtOrder | controllers/issueController.js:128 | a created-at sort orders by creation time in the chosen direction |
| IssueQuery.ViewOf | controllers/issueController.js:137-142 | each issue is returned together with its creator's email and its assignee's email, the latter null when unassigned |
| IssueQuery.Views | controllers/issueController.js:137-142 | the join keeps the rows in order |
| IssueQuery.CountStatus | controllers/issueController.js:154-157 | `COUNT(*)` of the rows with one status |
| IssueQuery.CountAbsent | controllers/issueController.js:160-165 | a status no issue has counts 0 |
| IssueQuery.DistinctStatuses | controllers/issueController.js:154-158 | GROUP BY lists each status that occurs exactly once |
| IssueQuery.GroupByStatus | controllers/issueController.js:154-158 | one group per distinct status, each carrying the number of rows with that status |
| IssueQuery.TallyStatuses | controllers/issueController.js:160-169 | the forEach loop leaves the four zeroed statuses overwritten by each group's count, later groups last |
| IssueQuery.Overlay | controllers/issueController.js:167-169 | writing the groups into the counts object keeps every initial key and adds one key per group |
| IssueQuery.OverlayAt | controllers/issueController.js:167-169 | under a real status key the loop leaves that status's group count, or the initial 0 when no group has it |
| IssueQuery.TallyCountsTable | controllers/issueController.js:154-169 | each of the four statuses is reported with its count over the whole table |
| IssueQuery.ListResult | controllers/issueController.js:171-180 | the list response built from one filtered, sorted and windowed set; `IssueQuery.ListResultMeaning` states its meaning |
| IssueQuery.ListResultMeaning | controllers/issueController.js:137-180 | at most `limit` issues, each a table row passing every filter, in the requested order; `total` counts the same filtered rows; `pages · limit ≥ total`; the status counts ignore the filters |
| IssueQuery.GetIssues | controllers/issueController.js:64-184 | bad pagination gives 400 "Invalid pagination parameters"; otherwise 200 with the page, the pagination block and the counts described above |
| IssueExport.ExportWhere | controllers/issueController.js:396-421 | the appended conjuncts hold exactly when status, priority and severity match when given and `from_date ≤ DATE(created_at) ≤ to_date` where given |
| IssueExport.ExportRows | controllers/issueController.js:388-425 | the export rows: the filtered table, newest first; `IssueExport.ExportRowsMeaning` states its meaning |
| IssueExport.ExportRowsMeaning | controllers/issueController.js:398-425 | the export holds exactly the table rows passing that filter, newest first |
| IssueExport.Escape | controllers/issueController.js:437-438 | quote doubling never shortens a field |
| IssueExport.EscapeRoundTrip | controllers/issueController.js:437-438 | a doubled-quote field reads back as the original text |
| IssueExport.EscapeDoublesQuotes | controllers/issueController.js:437-438 | the escaped field grows by exactly one character per quote |
| IssueExport.TextCell | controllers/issueController.js:437-438 | a title or description cell is wrapped in quotes and its inside reads back as the text, with null written as "" |
| IssueExport.CsvCells | controllers/issueController.js:435-446 | ten cells in header order: the id; the quoted, escaped title and description; severity, priority, status, creator email and assignee email unquoted, each null written as ""; then both timestamps |
| IssueExport.CsvLines | controllers/issueController.js:434-448 | one CSV line per exported issue, in export order |
| IssueExport.RenderCsv | controllers/issueController.js:431-450 | the loop produces the header line followed by one line per issue, joined by newlines |
| IssueExport.CsvStartsWithHeader | controllers/issueController.js:431-432 | the CSV text is the header, followed by a newline and the rows only when there are rows |
| IssueExport.ExportIssues | controllers/issueController.js:384-457 | 200 with the CSV text when `format` is `csv`; otherwise the rows themselves |
| IssueController.CreateRejection | controllers/issueController.js:7-31 | rejected, in order, for: a missing title (400 "Title is required"); an inactive or unknown assignee (404 "Assigned user not found"); an invalid severity (400 "Invalid severity"); an invalid priority (400 "Invalid priority"). Each rejection is stated with the checks before it passing. Accepted exactly when none applies |
| IssueController.NewIssueRow | controllers/issueController.js:33-45 | the inserted row has the next id, the title, status open, the caller as creator and both timestamps now; a truthy description is stored and any other is null; severity and priority are stored when truthy and are medium otherwise; a truthy assignee or due date is stored and any other is null |
| IssueController.CreatedIssueIsValid | controllers/issueController.js:33-45 | a created issue is open; severity and priority are valid and default to medium; it belongs to the caller; its assignee is active; a truthy description, severity or priority is stored as given, and a falsy description (omitted, null or "") becomes null |
| IssueController.CreateIssue | controllers/issueController.js:3-62 | a rejection writes nothing; success adds exactly one row under the next id and returns 201 with the joined row |
| IssueController.GetIssueById | controllers/issueController.js:186-209 | the joined row, or 404 "Issue not found" |
| IssueController.UpdateRejection | controllers/issueController.js:216-294 | rejected, in order, for: a missing issue (404); an invalid status, then severity, then priority (400 each, with its own message); an inactive assignee (404); no fields (400). Each rejection is stated with the checks before it passing |
| IssueController.Patched | controllers/issueController.js:254-290 | for each of the seven fields: omitted keeps the column, null (or a falsy assignee or due date) clears it, a value writes it; id, creator and timestamps are kept |
| IssueController.ApplyAll | controllers/issueController.js:254-301 | the SET list never touches the id, the creator or the timestamps |
| IssueController.PushField | controllers/issueController.js:254-290 | pushing the next present field extends the SET list by exactly that column |
| IssueController.IssueAssignments | controllers/issueController.js:254-290 | the SET list is empty exactly when no field is given, and applied to any row it yields the patched row |
| IssueController.UpdateIssue | controllers/issueController.js:211-318 | a rejection writes nothing; success rewrites only that issue to its patched form |
| IssueController.StatusRejection | controllers/issueController.js:327-338 | the status is checked first, so an invalid or missing status gives 400 even for a missing id; a valid status on a missing id gives 404 "Issue not found"; accepted exactly when both pass |
| IssueController.ChangeIssueStatus | controllers/issueController.js:320-360 | success changes only the status column of that issue |
| IssueController.StatusChangeIsUpdate | controllers/issueController.js:340-343 | a status change equals the update that names only the status |
| IssueController.DeleteIssue | controllers/issueController.js:362-382 | 404 for a missing id; otherwise exactly that id leaves the table |
| AuthController.NullIfEmpty | controllers/authController.js:178-179 | `value \|\| null` on a nullable column turns "" into null |
| AuthController.PasswordMatches | controllers/authController.js:37-38 | the stored hash matches when it equals the SHA-256 digest or bcrypt accepts the password; used by `AuthController.Login` |
| AuthController.MayLogIn | controllers/authController.js:25-42 | the conjunction of the login guards; `AuthController.Login` succeeds exactly when it holds |
| AuthController.Login | controllers/authController.js:6-59 | missing field → 400; unknown email → 401; for the user with that email, in order: invited → 403 "Please accept your invitation first", inactive → 403 "Account is deactivated", empty hash → 403 "Please set your password first", no SHA-256 or bcrypt match → 401 "Invalid credentials"; otherwise 200 with a token for that id and the profile |
| AuthController.InvitedUserMustAccept | controllers/authController.js:25-27 | an invited account gets 403 "Please accept your invitation first" whatever the password |
| AuthController.WithResetToken | controllers/authController.js:82-85 | only the token and its expiry change, to the fresh token and now plus one hour |
| AuthController.ForgotPassword | controllers/authController.js:61-101 | 400 without an email and 404 for an unknown one; otherwise only that user's token and expiry change, to a fresh token valid for one hour |
| AuthController.ResetTarget | controllers/authController.js:115-118 | the user holding the token whose expiry is strictly after now, or none |
| AuthController.PasswordRejection | controllers/authController.js:107-113 | a missing token or password gives 400 "Token and password are required"; then a password shorter than 6 gives 400 "Password must be at least 6 characters"; accepted exactly when neither applies |
| AuthController.ResetRejection | controllers/authController.js:107-122 | the password guards first, answering with their rejection; then 400 "Invalid or expired token" when no user holds the token with expiry > now; accepted exactly when both pass |
| AuthController.WithPassword | controllers/authController.js:126-129 | only the hash and the token columns change: the new hash, and no token or expiry |
| AuthController.ResetPassword | controllers/authController.js:103-135 | success sets that user's hash and clears the token and expiry; the status is untouched |
| AuthController.InvitationTarget | controllers/authController.js:149-152 | the invited user holding the token, or none |
| AuthController.AcceptRejection | controllers/authController.js:141-162 | the password guards first, answering with their rejection; then "Invalid or expired invitation token" when no invited user holds the token; then "Invitation token has expired" for a null expiry or one before now; accepted exactly when none applies |
| AuthController.Activated | controllers/authController.js:166-169 | only the status, hash and token columns change: active, the new hash, no token or expiry |
| AuthController.AcceptInvitation | controllers/authController.js:137-187 | success sets the hash, makes the account active, clears the token, and returns a session token and the profile with empty names as null |
| AuthController.ExpiryBoundary | controllers/authController.js:116 | in any table with unique tokens, a token expiring exactly now is refused by reset (`>`) and still admits an invitation (`<` at line 160) |
| AuthController.SecondAcceptFails | controllers/authController.js:149-169 | after acceptance no user holds the token, so a second acceptance gets 400 "Invalid or expired invitation token" |
| AuthController.LoginAfterAccept | controllers/authController.js:25-44 | after acceptance with a password that bcrypt verifies, login with that email and password succeeds |
| AuthController.ResetKeepsInvitation | controllers/authController.js:127 | a reset on an invited account sets the hash but keeps it invited, so login still says to accept the invitation |
| AuthController.ForgotReplacesInvitation | controllers/authController.js:82-85 | a reset request overwrites a pending invitation token, so the invitation link stops working |
| UserController.FrontendUrl | controllers/userController.js:39-41 | the production URL exactly when ENVIRONMENT is `prod` |
| UserController.InvitationLink | controllers/userController.js:42 | the link is the front-end URL, then `/accept-invitation?token=`, then the token |
| UserController.InviteRejection | controllers/userController.js:9-28 | rejected, in order, for: a missing email (400 "Email is required"); a role outside admin/user, where only an omitted role defaults to user (400 "Invalid role"); an existing email (409, "Invitation already sent" if that account is invited, otherwise "User already exists") |
| UserController.InvitedUser | controllers/userController.js:34-37 | the inserted row: the email and role, invited, no hash, the token with a 7-day expiry, the inviter; a truthy name is stored as given and any other is null |
| UserController.InvitationReply | controllers/userController.js:42-59 | the link is always returned; the warning appears exactly when the email failed ("Email service error" when there is no error text) |
| UserController.InviteUser | controllers/userController.js:5-64 | a rejection writes nothing; success inserts one invited user with no hash, the token, a 7-day expiry and the inviter, and returns 201 |
| UserController.InvitedUserHoldsToken | controllers/userController.js:30-37 | the inserted user keeps the tables valid, is the only holder of the token, is invited with no hash, and expires 7 days after now |
| UserController.UserMatches | controllers/userController.js:80-83 | exactly the users whose email contains the search text, or every user when it is empty |
| UserController.SortNewestFirst | controllers/userController.js:85 | `ORDER BY created_at DESC` returns the same users, as a multiset, newest first |
| UserController.GetUsers | controllers/userController.js:66-108 | the same pagination rule as issues; the summaries of exactly the listed page; `total` counts the matches; `pages` is `Math.ceil(total / limit)` |
| UserController.ListedUsers | controllers/userController.js:85-87 | the page is the `LIMIT`/`OFFSET` window of the matching users sorted newest first: its exact length and each position; so at most `limit` users, each a table row matching the search, in created_at DESC order |
| UserController.UserCountExact | controllers/userController.js:89-94 | the count covers every matching user and no other |
| UserController.Summaries | controllers/userController.js:77 | the listing keeps the rows in order and selects no hash or token |
| UserController.GetUserById | controllers/userController.js:110-127 | the summary, or 404 "User not found" |
| UserController.UserUpdateRejection | controllers/userController.js:141-180 | rejected, in order, for: a missing user (404); one's own role or status (400); an invalid role (400 "Invalid role"); an invalid status (400 "Invalid status"); no fields (400 "No fields to update"). Each rejection is stated with the checks before it passing |
| UserController.UserPatched | controllers/userController.js:149-176 | an omitted name is kept and a given one written as `\|\| null`; a given role or status is written, otherwise kept; the email, hash, token and timestamps never change |
| UserController.UpdateUser | controllers/userController.js:129-193 | a rejection writes nothing; success rewrites only that user |
| UserController.OwnRoleAndStatusAreKept | controllers/userController.js:145-147 | an accepted update of one's own account leaves its role and status as they were |
| UserController.DeleteUser | controllers/userController.js:195-219 | self-deletion gives 400 before the existence check; otherwise exactly that user is removed and the issues table is untouched |
| Scenarios.FreshInvitationIsAccepted | controllers/userController.js:30-37 | a fresh invitation accepted within 7 days passes every guard of acceptInvitation |
| Scenarios.InviteAcceptLogin | controllers/authController.js:137-187 | invite, then accept, then login succeeds, and the invitation link is used up |
| Scenarios.CloseThenReopen | controllers/issueController.js:320-343 | an update followed by a status change leaves every other column as the update wrote it |

## Left out

- Timestamps are whole seconds and `DATE()` is division by 86400. Time zones and daylight-saving changes are not modelled.
- ForgotPassword: the expiry is now + 3600 and not "the same clock time plus one hour", because clock hours are not modelled.
- InviteUser: the expiry is now + 7 · 86400, for the same reason.
- `LIKE` is a plain substring test. `%` and `_` in the search text, and case-insensitive collation, are not modelled.
- Email equality is exact for the same reason: MySQL's case-insensitive comparison of emails is not modelled.
- `toUpperCase` is modelled on ASCII letters only.
- PasswordRejection: the length test counts Unicode characters, while JavaScript's `password.length` counts UTF-16 code units. A password of three characters outside the Basic Multilingual Plane passes the 6-character check in JavaScript and is rejected by the model.
- ListWhere, ExportWhere, ResetTarget, InvitationTarget: `=` on status, priority, severity and the token is exact equality. MySQL's default collation is case-insensitive and ignores trailing spaces; that is not modelled.
- ExportQuery: `from_date` and `to_date` arrive already converted to day numbers. MySQL's conversion of the raw query text (a time part, or malformed text that matches no row) is not modelled.
- `parseInt` on arbitrary text is not modelled.
  - Page, limit and the id filters arrive already parsed, with None for NaN.
  - Path ids are integers.
  - The fallback of 0 to the default is kept.
- SQL ORDER BY leaves the order of equal keys unspecified. The model uses a stable sort over the table's id order.
- The database schema is not part of this model. The `created_at` and `updated_at` defaults are modelled as `now` in `NewIssueRow` and `InvitedUser`; other column defaults and any `ON UPDATE` trigger on `updated_at` are not.
  - UpdateIssue and ChangeIssueStatus leave `updatedAt` as it was.
  - Deleting a user leaves the issues table as it is; foreign keys are not modelled.
- ExportIssues: the JavaScript Date-to-text conversion in CSV cells is the parameter `formatDate`. CSV cells of severity, priority, status and the creator email are written without quoting, as in the code.
- Email delivery is an input.
  - The Promise.race timeout and the fire-and-forget password-reset email are not modelled.
  - ForgotPassword's response does not depend on the mail outcome, so the outcome is no parameter there.
- The `authenticate` and `authorize` middleware, JWT details, routing and configuration are outside the controllers. The admin gate is a precondition, and the signed-in user is a parameter.
- Database failures and the `next(error)` 500 path are not modelled.
- Concurrent requests and check-then-write races are not modelled. Each handler runs alone.
- The `counts` object receives a `"null"` key when some issue has a null status. The model computes it, but states properties only of the four real statuses.
- Non-string JSON values in string fields are not modelled: numbers, arrays, and objects whose `includes` test or `.length` behaves differently.
