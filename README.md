# Task manager: request logic, validation rules and forms, in Dafny

This project models the decision logic of a small task-management web
application: an Express back end (`backend/server.js`) that registers users,
logs them in with a JSON Web Token and lets each user list, create, update and
delete their own tasks, the request validation rules of `backend/validation.js`,
and the two React form components `Register.jsx` and `Tasks.jsx` of the front
end.

Modules, one per source file or shared concern:

- `Wrappers` (`wrappers.dfy`): `Option`.
- `Text` (`text.dfy`): the JavaScript string operations the code relies on:
  `includes`, `trim`, `split(' ')` and `join(' ')`, the regular expression
  `/^[a-zA-Z0-9_]+$/`, JavaScript's `length` (UTF-16 code units) and the
  length validator.js' `isLength` counts (code points other than U+FE0E and U+FE0F).
- `Validation` (`validation.dfy`): the `validateAuth` and `validateTask` rule
  chains, the 400 report of `handleValidationErrors` and the keyword
  classifier `getErrorCode`, with what it makes of each message of the file.
- `Server` (`server.dfy`): `authenticateToken`, the `/register` and `/login`
  flows and the `/tasks` handlers. The `users` and `tasks` tables are the class
  `Store`; bcrypt and jsonwebtoken are a value of four functions (`Crypto`)
  with the properties the handlers rely on stated as `Sound`.
- `FormErrors` (`form_errors.dfy`): the errors object both forms fill, and the
  `fieldErrors.forEach` loop that turns a server's field errors into it.
- `RegisterForm` (`register_form.dfy`) and `TasksView` (`tasks_view.dfy`): the
  client-side validators as functions, and each component's state as a class
  whose methods are its event handlers. An async submit handler is split at its
  `await` into `Submit` (up to the request) and `Receive` (the server's answer).

Where the repository's own tests (`backend/tests/backend.tests.js`) and the
code disagree, the model follows the code:

- The tests expect `fieldErrors` in the 400 answers of `/register` and
  `POST /tasks` (lines 47-59 and 189-203), which only `validation.js` would
  produce; `server.js` never applies its rules. They are modelled as their own
  module and related to the front end's rules by lemmas.
- The tests expect 409 'Conflict' for a taken login (lines 61-80); the code
  answers 400 'Login jest już zajęty'.
- The tests request `GET /tasks/:id` (lines 156-161); the code has no such
  route, so only Express's default 404 answers it, which is not modelled.

Other points of the code that the model keeps:

- `PUT /tasks/:id` validates nothing and applies no status default: the row
  gets exactly the three fields sent, absent ones as NULL.
- The login-pattern message contains none of the classifier's keywords, so its
  error is reported as `VALIDATION_ERROR`; no rule of the file ever produces
  `INVALID_FORMAT` (`Validation.NoInvalidFormat`).

The express-validator library is not modelled; the rule chains are encoded
under these stated assumptions: every validator of a chain runs and each
failure adds one error, in chain order; a missing field is checked as the
empty string; `.optional()` skips only a missing field.
`Validation.ValidateAuthErrors` and `Validation.ValidateTaskErrors` state what
follows for the reports: each failing validator contributes exactly its own
error.

## Model

| member | source | states |
|---|---|---|
| `Text.Truthy` | backend/server.js:84 | a truthy string is present and non-empty (`undefined` and '' are falsy) |
| `Text.Contains` | backend/validation.js:60-63 | `includes` finds a keyword only in a message at least as long |
| `Text.Trim` | frontend/src/components/Register.jsx:21 | `trim()` never lengthens a string |
| `Text.TrimEnds` | frontend/src/components/Register.jsx:21 | a trimmed string is empty or starts and ends with a non-whitespace character |
| `Text.TrimEmptyIffBlank` | frontend/src/components/Register.jsx:21 | `!s.trim()` holds exactly for strings made only of JavaScript whitespace |
| `Text.SplitOnSpace` | backend/server.js:55 | `split(' ')` gives at least one piece, no piece holds a space, and joining the pieces with ' ' gives the string back |
| `Text.SplitPiece` | backend/server.js:55 | a space-free string splits into itself alone |
| `Text.SplitPieceThen` | backend/server.js:55 | a space-free word, a space and a tail split into the word followed by the tail's pieces |
| `Text.SplitJoin` | backend/server.js:55 | splitting a space-joined list of space-free words on ' ' gives the words back |
| `Text.MatchesWordPattern` | backend/validation.js:8 | a string matching `/^[a-zA-Z0-9_]+$/` is non-empty and holds no space |
| `Text.Utf16Length` | backend/server.js:88 | `.length` counts between one and two UTF-16 units per character |
| `Text.ValidatorLength` | backend/validation.js:6 | validator.js' `isLength` count is at most the number of characters |
| `Text.WordLengths` | backend/validation.js:6-9 | for a word of `[a-zA-Z0-9_]` the JavaScript length, the validator.js length and the code-point count agree |
| `Validation.LoginLengthOk` | backend/validation.js:6 | a login passing `isLength({min: 3, max: 50})` has at least 3 characters |
| `Validation.LoginFormatOk` | backend/validation.js:8 | a login passing the pattern is non-empty and has no space |
| `Validation.PasswordLengthOk` | backend/validation.js:12 | a password passing `isLength({min: 6})` has at least 6 characters |
| `Validation.TitleNotEmpty` | backend/validation.js:19 | a title failing `notEmpty()` also fails `isLength({min: 1, max: 255})`, so an empty title gets both errors |
| `Validation.TitleLengthOk` | backend/validation.js:21 | a title passing `isLength({min: 1, max: 255})` is non-empty |
| `Validation.DescriptionOk` | backend/validation.js:26 | a missing description, or one of at most 1000 characters, passes |
| `Validation.StatusOk` | backend/validation.js:31 | a present empty status is rejected (only a missing one is skipped by `.optional()`) |
| `Validation.Check` | backend/validation.js:5-13 | one validator adds no error when it passes and exactly one `field` error with its path and message when it fails |
| `Validation.ValidateAuth` | backend/validation.js:4-14 | no error iff the login is 3..50 long and matches `[a-zA-Z0-9_]+` and the password is at least 6 long; every error is a field error on `login` or `password`, login errors first |
| `Validation.ValidateTask` | backend/validation.js:17-33 | no error iff the title is non-empty and 1..255 long, a present description is at most 1000 long and a present status is one of the three; errors are on the three fields only |
| `Validation.ValidateAuthErrors` | backend/validation.js:4-14 | each of the three validators adds its own error exactly when it fails (a login like `a!` gets both login errors), and the report has one error per failing validator |
| `Validation.ValidateTaskErrors` | backend/validation.js:17-33 | each of the four validators adds its own error exactly when it fails (an empty title gets both title errors), and the report has one error per failing validator |
| `Validation.GetErrorCode` | backend/validation.js:57-68 | a code other than VALIDATION_ERROR is given only to a field error whose message contains that code's keyword |
| `Validation.ErrorCodePriority` | backend/validation.js:59-64 | first match wins: no keyword ranked before the chosen code occurs in the message |
| `Validation.CodeFromKeywords` | backend/validation.js:59-64 | a field error containing a code's keyword and none ranked earlier gets that code |
| `Validation.CodeNamesDistinct` | backend/validation.js:60-66 | the five code names are distinct |
| `Validation.RuleMessageCodes` | backend/validation.js:7-32 | the title-required message is REQUIRED, the four length messages INVALID_LENGTH, the status message INVALID_VALUE |
| `Validation.PatternMessageUnclassified` | backend/validation.js:9 | the login-pattern message matches no keyword and is reported as VALIDATION_ERROR |
| `Validation.NoInvalidFormat` | backend/validation.js:4-33 | no error of either rule set is classified INVALID_FORMAT |
| `Validation.Entries` | backend/validation.js:39-43 | one report entry per error, in order, with the error's path, code and message |
| `Validation.HandleValidationErrors` | backend/validation.js:35-54 | `next` is called iff there is no error; otherwise HTTP 400 with status 400, "Bad Request", the timestamp and one entry per error in order |
| `Validation.LoginLengthBoundary` | backend/validation.js:5-7 | for a word login the report holds the login-length entry iff its length is outside 3..50 |
| `Validation.TitleLengthBoundary` | backend/validation.js:18-22 | a non-empty word title passes `validateTask` iff it is at most 255 long |
| `Server.BearerToken` | backend/server.js:54-57 | a token, when there is one, is non-empty and space-free; a missing header or one without a space yields none |
| `Server.BearerHeaderYieldsToken` | backend/server.js:54-55 | `<scheme> <token>` yields exactly the token |
| `Server.BearerHeaderWithTailYieldsToken` | backend/server.js:55 | `<scheme> <token> <rest>`, `rest` possibly empty, also yields exactly the token: words after the second are ignored |
| `Server.DoubleSpaceRejected` | backend/server.js:55-59 | two spaces after the scheme leave an empty second word, so no token |
| `Server.EmptyTokenRejected` | backend/server.js:55-58 | a scheme followed by one space and nothing else has an empty second word, so no token |
| `Server.Guard` | backend/server.js:53-67 | 401 iff there is no token; 403 iff there is one and it does not verify; otherwise the payload that verification returned |
| `Server.Rejection` | backend/server.js:57-64 | no response iff authenticated; 401 'Token dostępu wymagany' and 403 'Nieprawidłowy token' otherwise |
| `Server.AuthenticateToken` | backend/server.js:53-68 | `next` is called iff no response is sent; `req.user` is set to the payload exactly when authenticated |
| `Server.RegisterPrecheck` | backend/server.js:84-90 | passes iff login and password are truthy and the password has at least 6 UTF-16 units; a missing field gives the 'wymagane' 400 |
| `Server.ShortPasswordNeedsBothFields` | backend/server.js:84-90 | the short-password 400 is only given when both fields are present |
| `Server.FindOwned` | backend/server.js:218-225 | finds a row whose id and owner both match, and finds none iff no row matches both |
| `Server.OwnedNewestFirst` | backend/server.js:180-184 | the listing is never longer than the table |
| `Server.ListingMembers` | backend/server.js:180-184 | the listing holds exactly the owner's rows |
| `Server.ListingNewestFirst` | backend/server.js:180-184 | for a table created in order, the listing is in non-increasing creation time |
| `Server.ListingIdsDescend` | backend/server.js:180-184 | when ids ascend along the table they strictly descend along the listing, so no row is listed twice |
| `Server.RemoveAt` | backend/server.js:253-256 | removing a row keeps every other row, in order |
| `Server.RemoveKeepsTableValid` | backend/server.js:253-256 | removing a row keeps ids ascending and creation times in order |
| `Server.RemoveKeepsOthersListing` | backend/server.js:244-258 | deleting a row of one user leaves every other user's listing unchanged |
| `Server.AppendListing` | backend/server.js:200-203 | a new row heads its owner's listing and leaves other listings unchanged |
| `Server.SameOwnedRowsListing` | backend/server.js:180-184 | two tables that agree at every position holding a row of the owner's have the same listing for that owner |
| `Server.ReplaceKeepsOthersListing` | backend/server.js:227-230 | updating a row of one user leaves every other user's listing unchanged |
| `Server.StatusOrPending` | backend/server.js:202 | the given status when truthy, otherwise 'PENDING'; never empty |
| `Server.Store.Register` | backend/server.js:80-120 | precheck failure or taken login: its 400 and no change; else exactly one new row with role USER and the hash of the password, and a 201 without the hash |
| `Server.Store.Login` | backend/server.js:123-173 | 400 iff a field is missing; the same 401 body for an unknown login and a wrong password, and 401 for nothing else; 200 only when the password matches, with a token signed over the row's id, login and role expiring 86400 s later |
| `Server.Store.ListTasks` | backend/server.js:178-189 | 200 with exactly the caller's rows, each once, newest first; among rows of equal creation time the model's order is latest-inserted first, so ids strictly descend |
| `Server.Store.CreateTask` | backend/server.js:192-210 | a falsy title gives 400 and no change; else exactly one appended row owned by the caller with the status defaulted |
| `Server.Store.UpdateTask` | backend/server.js:213-237 | 404 and no change unless a row has that id and owner; else only that row changes: the three fields as sent and a new `updated_at` |
| `Server.Store.DeleteTask` | backend/server.js:240-263 | 404 and no change unless a row has that id and owner; else only that row is removed |
| `Server.RegisteredUserLogsIn` | backend/server.js:104-147 | a user stored with the hash of a password logs in with that password |
| `Server.LoginTokenAuthenticates` | backend/server.js:150-168 | the token of a successful login, sent as `Bearer <token>` before expiry, passes the guard with the row's claims |
| `Server.LoginFailuresIndistinguishable` | backend/server.js:137-147 | an unknown login and a wrong password get the same response |
| `FormErrors.PutThree` | frontend/src/components/Register.jsx:17-46 | three validators under three distinct keys: a key is present iff its validator reported, holding that report, and no other key is |
| `FormErrors.LastWins` | frontend/src/components/Register.jsx:90-95 | the errors object built from the entries has at most one key per entry |
| `FormErrors.LastWinsKeys` | frontend/src/components/Register.jsx:90-95 | a field has an error iff some returned entry names it |
| `FormErrors.LastWinsValue` | frontend/src/components/Register.jsx:92-94 | a field's message is that of the last entry naming it |
| `FormErrors.CollectFieldErrors` | frontend/src/components/Tasks.jsx:114-117 | the `forEach` loop builds exactly the last-wins errors object |
| `RegisterForm.LoginError` | frontend/src/components/Register.jsx:21-29 | a reported login error is a non-empty message |
| `RegisterForm.LoginErrorIff` | frontend/src/components/Register.jsx:21-29 | no login error iff the login is not blank, 3..50 long and matches the pattern; otherwise the first failing check gives its message: blank "required", under 3 "too short", over 50 "too long", else the pattern message |
| `RegisterForm.PasswordError` | frontend/src/components/Register.jsx:32-36 | no password error iff it has at least 6 UTF-16 units; an empty one is "required", a non-empty shorter one "at least 6" |
| `RegisterForm.ConfirmError` | frontend/src/components/Register.jsx:38-42 | no confirmation error iff it is non-empty and equal to the password; an empty one is "required", a non-empty different one "not identical" |
| `RegisterForm.ValidateForm` | frontend/src/components/Register.jsx:17-46 | the errors object has no keys other than the three fields |
| `RegisterForm.ValidateFormEntries` | frontend/src/components/Register.jsx:17-46 | a field has an entry iff its check fails, and the entry holds that check's single message |
| `RegisterForm.FormValidIff` | frontend/src/components/Register.jsx:44-45 | the form is valid iff the login is a non-blank 3..50 word, the password at least 6 long and the confirmation equal to it |
| `RegisterForm.BlankLoginRequired` | frontend/src/components/Register.jsx:21-22 | a login of spaces is "required" whatever its length |
| `RegisterForm.LoginRulesAgree` | frontend/src/components/Register.jsx:21-29 | the client accepts a login iff both login rules of validation.js do |
| `RegisterForm.PasswordRuleAgreesWithServer` | frontend/src/components/Register.jsx:32-36 | for a present login the client accepts a password iff the server's register precheck does |
| `RegisterForm.FailureErrors` | frontend/src/components/Register.jsx:90-100 | field errors become the last-wins object; otherwise a single `general` entry holding the truthy `message`, else the truthy `error`, else 'Błąd rejestracji' |
| `RegisterForm.RegisterComponent.HandleChange` | frontend/src/components/Register.jsx:48-62 | only the named field changes, and only its error is cleared, only when set |
| `RegisterForm.RegisterComponent.Submit` | frontend/src/components/Register.jsx:64-79 | the form's errors are shown; a request is sent iff the form is valid, and it carries only login and password |
| `RegisterForm.RegisterComponent.Receive` | frontend/src/components/Register.jsx:80-100 | success shows the note and empties all three fields; failure shows the reply's errors |
| `TasksView.TitleError` | frontend/src/components/Tasks.jsx:46-50 | a reported title error is a non-empty message |
| `TasksView.TitleErrorIff` | frontend/src/components/Tasks.jsx:46-50 | no title error iff the title is not blank and at most 255 UTF-16 units; a blank title is "required", a longer non-blank one "at most 255" |
| `TasksView.DescriptionError` | frontend/src/components/Tasks.jsx:53-55 | no description error iff it is at most 1000 long |
| `TasksView.StatusError` | frontend/src/components/Tasks.jsx:58-60 | no status error iff the status is one of the three |
| `TasksView.ValidateTaskForm` | frontend/src/components/Tasks.jsx:42-64 | the errors object has no keys other than the three fields |
| `TasksView.ValidateTaskFormEntries` | frontend/src/components/Tasks.jsx:42-64 | a field has an entry iff its check fails, and the entry holds that check's message |
| `TasksView.TaskFormValidIff` | frontend/src/components/Tasks.jsx:62-63 | the form is valid iff all three fields are |
| `TasksView.TitleBoundary` | frontend/src/components/Tasks.jsx:48 | a word title of 255 passes and one of 256 fails |
| `TasksView.StatusText` | frontend/src/components/Tasks.jsx:165-172 | the label is empty only for the empty status |
| `TasksView.StatusClass` | frontend/src/components/Tasks.jsx:174-181 | a status gets a non-empty class iff it is one of the three |
| `TasksView.StatusMapsTotal` | frontend/src/components/Tasks.jsx:165-181 | a status gets its own label and a class exactly when it is one of the three; any other maps to itself and '' |
| `TasksView.StatusLabelsDistinct` | frontend/src/components/Tasks.jsx:165-181 | the three statuses get distinct labels and classes |
| `TasksView.CompletedCount` | frontend/src/components/Tasks.jsx:355-356 | the completed count never exceeds the number of tasks |
| `TasksView.CompletedCountIsMultiplicity` | frontend/src/components/Tasks.jsx:355-356 | the completed count is the number of 'COMPLETED' statuses |
| `TasksView.CompletedCountBounds` | frontend/src/components/Tasks.jsx:355-356 | the count is 0 iff no task is completed and the list's length iff all are |
| `TasksView.SaveError` | frontend/src/components/Tasks.jsx:104-123 | 401, 403 and 404 get their messages first; field errors leave the banner alone; otherwise the truthy `message`, else 'Błąd podczas zapisywania zadania' |
| `TasksView.TasksComponent.OpenForm` | frontend/src/components/Tasks.jsx:200 | shows the form and changes nothing else |
| `TasksView.TasksComponent.HandleChange` | frontend/src/components/Tasks.jsx:66-80 | only the named field changes, and only its error is cleared, only when set |
| `TasksView.TasksComponent.HandleEdit` | frontend/src/components/Tasks.jsx:127-136 | the form opens on the task, a missing description as '', with no errors |
| `TasksView.TasksComponent.CancelEdit` | frontend/src/components/Tasks.jsx:158-163 | the form closes, empty with status PENDING, with nothing being edited |
| `TasksView.TasksComponent.Submit` | frontend/src/components/Tasks.jsx:82-97 | a request is sent iff the form is valid: an update of the edited task, else a create |
| `TasksView.TasksComponent.Receive` | frontend/src/components/Tasks.jsx:98-124 | a saved task closes and empties the form; a failure sets the banner or the field errors as `SaveError` and `LastWins` say |

## Left out

- bcrypt and jsonwebtoken are not modelled: `Crypto` holds them as functions and `Sound` states what the handlers rely on. bcrypt's random salt is not modelled, so the hash is a function of the password and the rounds.
- The PostgreSQL pool, the SQL text and its failures: every `500 'Błąd serwera'` path (a lost connection, a path `id` that is not an integer) is not modelled. The table schema is not part of this model: a PUT without a title or status stores NULL and answers 200, and a task's owner is not checked against `users`; a database constraint, if there is one, would answer 500 instead. `POST /tasks` does not set `updated_at`; the model gives a new row `updatedAt == createdAt`, assuming a column default of the current time.
- `CURRENT_TIMESTAMP` is the store's clock, advanced on each write by the `elapsed` argument; the token's `iat` is the separate `now` argument in seconds.
- Server.ListingNewestFirst: OwnedNewestFirst lists rows of equal creation time latest-inserted first; SQL leaves their order unspecified, so the contract states only non-increasing creation time; the strictly descending ids that Server.Store.ListTasks and Server.ListingIdsDescend state rest on that tie order of the model.
- JSON bodies whose fields are not strings (numbers, arrays, objects) are not modelled; a field is a string or absent.
- Express routing, `listen`, dotenv, CORS, and the `/health` and `/` endpoints are framework wiring and are not modelled.
- The client model's `TaskItem` has a string title and status: it assumes a task's title and status are never NULL, although a PUT without them stores NULL; `handleEdit` would then put null into the form and `validateTaskForm`'s `title.trim()` would throw.
- React rendering, axios, `localStorage`, `loadTasks`, `handleDelete` (with `window.confirm`) and the `loading` flags are not modelled; after a save the list refresh is not modelled, so `TasksView.TasksComponent.Receive` leaves `tasks` as it was.
- Requests are single atomic steps; concurrent interleaving of requests is not modelled.
- express-validator's own behaviour is encoded under the assumptions stated above rather than modelled.
