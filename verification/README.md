# task-manager-api, modelled in Dafny

This project models the request logic of a small task-manager REST service.
In the service, users sign up, log in and out with bearer tokens, edit their profile, and upload an avatar.
Each user owns a list of tasks, which they create, list, fetch, update and delete.
Each HTTP handler becomes a pure function from a request and a store to a response and a new store.
The store is abstract: the user and task collections in natural (insertion) order, plus a counter that hands out fresh document ids.

The library primitives become parameters. These are password hashing and comparison, the e-mail syntax check (the `Crypto` record), the token signer (a `token` argument), and the image re-encoder (`toPng`).
The authentication middleware becomes the precondition `Authenticated`: the caller exists and still lists the presented token.
The model does not include that middleware or the Task schema file (src/models/task.mjs).
What the model assumes about a task, in place of that file: it has a required, trimmed description, a boolean `completed` that defaults to false, an owner, and creation and update timestamps.

Modules:

- `Common`: `Option`, bytes, and the scalar JSON values of a request body.
- `Strings`: trimming with the JavaScript whitespace set, ASCII lower-casing, and substring search.
- `Numbers`: decimal rendering, `parseInt` (white space, one sign, the `0x` prefix, reading up to the first non-digit) and the integer part of `Number` (white space, one sign, decimal, `0x`, `0o` and `0b` literals).
- `Schema`: the schema type casts, and the validation and duplicate-key errors of a save.
- `TaskModel`, `UserModel`: the records, their validators, the pre-save hash, `toJSON`, `generateToken`, `findByCredentials`, and the cascade of the pre-remove hook.
- `Database`: the store, the responses, and the store invariant `Valid`.
- `UserRouter`, `TaskRouter`: one function per route.
- `TaskQuery`: the `GET /tasks` query and the order and page that the store applies.
- `Invariants`: every writing handler preserves `Valid`.

## Model

| member | source | states |
|---|---|---|
| Strings.Trim | src/models/user.mjs:11 | the stored value is the input with whitespace margins cut away, and it neither starts nor ends with whitespace |
| Strings.TrimEmpty | src/models/user.mjs:11-15 | a trimmed value is empty exactly when every character of the input is whitespace |
| Strings.TrimIdempotent | src/models/user.mjs:31 | trimming a trimmed value changes nothing |
| Strings.ToLower | src/models/user.mjs:32 | lower-casing keeps the length, leaves no capital, turns each capital into the small letter 32 code points up, and keeps every other character |
| Strings.ToLowerOfLower | src/models/user.mjs:32 | a value with no capitals is already lower-case |
| Strings.ToLowerIdempotent | src/models/user.mjs:32 | lower-casing a lower-cased value changes nothing, so a stored e-mail is stable under its own setter |
| Strings.ToLowerAppend | src/models/user.mjs:45 | lower-casing works character by character, so it distributes over concatenation |
| Strings.TrimMargins | src/models/user.mjs:11 | white-space margins around a text that neither starts nor ends with white space are exactly what trimming removes |
| Strings.IndexOf | src/models/user.mjs:45 | the search finds the first occurrence of the word, and finds none exactly when the word is not a substring |
| Strings.DisplayLength | src/models/user.mjs:47 | the length `validator.isLength` measures is at most the number of characters, equals it when no presentation selector (U+FE0E, U+FE0F) occurs, and is 0 when only selectors occur |
| Strings.DisplayLengthAppend | src/models/user.mjs:47 | the measured length of a concatenation is the sum of the measured lengths of its parts |
| Numbers.ParseShowRoundTrip | src/routers/task.mjs:38-39 | `parseInt` of the decimal form of n gives back n |
| Numbers.ParseIgnoresSuffix | src/routers/task.mjs:38-39 | `parseInt` reads a decimal numeral up to the first non-digit and ignores the rest, except that a lone 0 before x or X selects base 16 |
| Numbers.ParseSkipsSpace | src/routers/task.mjs:38-39 | leading white space does not change what `parseInt` reads |
| Numbers.ParseSign | src/routers/task.mjs:38-39 | one leading sign is read, and a minus negates the magnitude read after it |
| Numbers.ParseHexPrefix | src/routers/task.mjs:38-39 | after `0x` or `0X` the digits are read in base 16, and with no hexadecimal digit after the prefix the result is NaN |
| Numbers.ParseNotANumber | src/routers/task.mjs:38-39 | a value that starts with neither white space, a sign nor a digit, the empty value included, is NaN |
| Numbers.ParseInt | src/routers/task.mjs:38-39 | a number is read only when the text after its leading white space opens with a sign or a decimal digit, a negative one only after a minus, and a decimal digit that does not open `0x` always reads as a number that is not negative |
| Numbers.NumberOfDecimal | src/models/user.mjs:18-20 | `Number` reads an unsigned decimal integer inside any white-space margins as its value |
| Numbers.NumberOfSignedDecimal | src/models/user.mjs:18-20 | `Number` reads a signed decimal integer inside white-space margins, a minus negating it |
| Numbers.NumberShowRoundTrip | src/models/user.mjs:18-20 | `Number` of the decimal form of any integer, negative ones included, gives it back |
| Numbers.NumberOfBlank | src/models/user.mjs:18-20 | a value of white space only is the number 0 |
| Numbers.NumberOf | src/models/user.mjs:18-20 | blank text is 0, a number is read only from text that opens, inside its white-space margins, with a sign or a digit, and a negative one only after a minus |
| Schema.CastNumber | src/models/user.mjs:18-20 | a number path keeps a JSON number, takes a boolean as 1 or 0, reads a non-empty string with `Number`, and refuses the empty string |
| Schema.CastString | src/models/user.mjs:9-11 | a String path keeps a string exactly as sent, and renders a number or a boolean as a non-empty text |
| Schema.CastStringReadsBack | src/models/user.mjs:9-20 | a number or boolean rendered for a String path casts back to the same number or boolean |
| Schema.CastNumberReadsDecimal | src/models/user.mjs:18-20 | a string holding a decimal integer with white space around it casts to that integer |
| Schema.CastNumberReadsSigned | src/models/user.mjs:18-20 | a string holding a signed decimal integer with white space around it casts to that integer, negative after a minus |
| Schema.CastNumberOfRendering | src/models/user.mjs:18-20 | a number rendered as a string casts back to the same number |
| Schema.CastBool | src/routers/task.mjs:110 | a boolean path accepts exactly true, "true", "1", "yes", 1 as true and false, "false", "0", "no", 0 as false |
| TaskModel.ValidateTask | src/routers/task.mjs:111 | a task saves without errors exactly when no cast failed and a saved description is non-empty |
| TaskModel.ApplyTaskUpdates | src/routers/task.mjs:110 | exactly the supplied keys are overwritten, with their cast and trimmed values, and nothing else changes |
| TaskModel.ChangedTaskPaths | src/routers/task.mjs:110-111 | a path counts as modified exactly when its value changed |
| UserModel.NameRule | src/models/user.mjs:9-16 | a name is accepted exactly when it holds a non-whitespace character |
| UserModel.AgeError | src/models/user.mjs:18-25 | an age is rejected exactly when it is negative |
| UserModel.PasswordError | src/models/user.mjs:39-51 | a password is rejected for containing "password" in any case, or else for having fewer than 7 characters as `validator.isLength` counts them (presentation selectors U+FE0E and U+FE0F not counted), and is accepted otherwise |
| UserModel.PasswordRejectsWordInAnyCase | src/models/user.mjs:45-46 | any spelling of "password", whatever its case and surroundings, is rejected |
| UserModel.SelectorsDoNotLengthenPassword | src/models/user.mjs:44-49 | appending presentation selectors never makes a password long enough: it passes exactly when the password without them has 7 counted characters |
| UserModel.ValidateUser | src/models/user.mjs:8-51 | the error keys are exactly the failed casts plus the saved paths whose rule fails, each with that rule's message |
| UserModel.NewUser | src/models/user.mjs:8-63 | a new user has no tokens and no avatar, takes the set name, e-mail and password (empty when missing), takes the cast age or 0 when none is given, and records a cast error exactly when the age does not cast |
| UserModel.ApplyUserUpdates | src/routers/user.mjs:120 | exactly the supplied keys are overwritten through their setters, and nothing else changes |
| UserModel.ChangedUserPaths | src/models/user.mjs:135 | a path counts as modified exactly when its value changed |
| UserModel.HashIfModified | src/models/user.mjs:131-147 | only the password can change, it is replaced by its hash only when modified, and a failed hash leaves it as set |
| UserModel.FindEmail | src/models/user.mjs:103 | finds the first user with that e-mail, and none exactly when no user has it |
| UserModel.NoErrorsMeansPasses | src/models/user.mjs:8-51 | validating every path gives no errors exactly when no cast failed and every path passes its rule |
| UserModel.SaveUser | src/models/user.mjs:27-38 | a user is stored exactly when every path passes its rule and, if the e-mail was modified, no other user has it; a refusal is a validation error with the exact messages or the duplicate e-mail; what is stored is the rehashed document |
| UserModel.SavedNewUser | src/models/user.mjs:8-51 | a sign-up document that passes every rule holds, once hashed, the set name, the cast age or 0, a valid set e-mail, and the hash of a set password that passed its rule |
| UserModel.SavedUpdate | src/models/user.mjs:8-51 | an updated document that passes every rule keeps id, tokens and avatar, takes the set fields and the cast age, and, once rehashed, holds the hash of a changed password that passed its rule |
| UserModel.UpdateUser | src/routers/user.mjs:120-122 | an update is stored exactly when the age casts, the updated user passes every rule and a changed e-mail is free; the stored user keeps id, tokens and avatar, takes the set fields, and holds the hash of a changed valid password |
| UserModel.ToJSON | src/models/user.mjs:74-83 | the public form carries the user's id, name, age and e-mail |
| UserModel.ToJSONHidesExactlySecrets | src/models/user.mjs:74-83 | two users look alike in public exactly when they differ at most in password, tokens and avatar |
| UserModel.GenerateToken | src/models/user.mjs:86-98 | one token is appended at the end, the earlier tokens stay in place, and nothing else changes |
| UserModel.RevokeToken | src/routers/user.mjs:72-74 | the presented token is gone, every other token is kept, and nothing new appears |
| UserModel.RevokeTokenKeepsOthers | src/routers/user.mjs:72-74 | every other token keeps its number of occurrences, and revoking distributes over concatenation, so order is kept |
| UserModel.RevokeAbsentToken | src/routers/user.mjs:72-74 | revoking a token the list does not hold changes nothing |
| UserModel.FindByCredentials | src/models/user.mjs:101-128 | a user is returned exactly when the first user with that e-mail matches the password, and an unknown e-mail and a wrong password give the same "Unable to login!" |
| UserModel.DeleteTasksOf | src/models/user.mjs:150-155 | exactly the tasks of other owners remain |
| UserModel.DeleteTasksOfKeepsOrder | src/models/user.mjs:150-155 | the cascade distributes over concatenation, so the remaining tasks keep their store order, and each remaining task keeps its number of occurrences while the user's tasks drop to none |
| Database.FindUser | src/routers/user.mjs:182 | finds the first user with that id, and none exactly when no user has it |
| UserRouter.ImagePatternIsSuffix | src/routers/user.mjs:16 | the upload pattern matches exactly the names that end in ".jpg", ".jpeg", ".png", ".gif", ".bmp" or "." |
| UserRouter.FileFilter | src/routers/user.mjs:15-21 | a file is accepted exactly when its name matches the pattern, and is otherwise refused with "File must be an image!" |
| UserRouter.Register | src/routers/user.mjs:27-49 | 201 comes exactly when the raw e-mail is not taken, the age casts, the new user passes every rule and its stored e-mail is free; success appends one user with a fresh id, the set name, the cast age (0 when absent), a unique valid e-mail, the hash of a valid password and the one new token, and a 400 leaves the store unchanged |
| UserRouter.Login | src/routers/user.mjs:52-67 | a credential error gives 400 with that error and no change, and success appends exactly one token to that user only |
| UserRouter.RegisterThenLogin | src/routers/user.mjs:27-67 | after a sign-up, logging in with the same e-mail, sent in its stored form, and the same password answers 200, and both the sign-up token and the login token authenticate the new user |
| UserRouter.LoginAsNewest | src/routers/user.mjs:52-67 | logging in as the newest user, whose id is fresh and whose e-mail no other user has, answers 200, appends the token to that user only, and every token of that user then authenticates |
| UserRouter.LoginHidesWhichFieldWasWrong | src/models/user.mjs:103-120 | an unknown e-mail and a wrong password produce the same response |
| UserRouter.Logout | src/routers/user.mjs:70-82 | only the caller's tokens change, they become the old list with the presented token revoked, and that token no longer authenticates |
| UserRouter.LogoutKeepsOtherSessions | src/routers/user.mjs:72-74 | every other token of the caller still authenticates, as often as before |
| UserRouter.LogoutAll | src/routers/user.mjs:85-95 | the caller's token list is empty, no token authenticates the caller, and nothing else changes |
| UserRouter.Me | src/routers/user.mjs:98-100 | the caller's own public profile is returned and the store is unchanged |
| UserRouter.MeAfterPatch | src/routers/user.mjs:98-130 | after a successful profile update the token still authenticates, and fetching the profile returns exactly what the update answered |
| UserRouter.PatchMe | src/routers/user.mjs:103-130 | a key outside name, age, email and password gives 400 "Invalid Updates!" with no change; 200 comes exactly when the keys are allowed, the age casts, the updated caller passes every rule and a changed e-mail is free; success rewrites only the caller and only the supplied fields, and stores the hash of a changed valid password |
| UserRouter.DeleteMe | src/routers/user.mjs:133-147 | the caller is removed and returned in public form, along with exactly their tasks; the remaining tasks are the cascade's result, so other owners' tasks keep their store order |
| UserRouter.DeleteMeKeepsOtherTasks | src/models/user.mjs:150-155 | after an account is deleted, every task of another owner is stored as often as before, and none of the caller's remains |
| UserRouter.UploadAvatar | src/routers/user.mjs:150-165 | a bad name or a file over 1000000 bytes gives 400 with no change, and otherwise only the caller's avatar is set to the re-encoded image |
| UserRouter.DeleteAvatar | src/routers/user.mjs:168-177 | only the caller's avatar field is cleared |
| UserRouter.FetchAvatar | src/routers/user.mjs:180-193 | 400 comes exactly when the user is missing or has no avatar, and otherwise that user's stored bytes are returned |
| UserRouter.FetchAfterUpload | src/routers/user.mjs:150-193 | after a successful upload, fetching the caller's avatar returns the re-encoded image |
| UserRouter.FetchAfterDeleteAvatar | src/routers/user.mjs:168-193 | after the avatar is deleted, fetching it gives 400 |
| TaskRouter.Mine | src/models/user.mjs:67-71 | the caller's tasks are exactly the stored tasks whose owner is the caller |
| TaskRouter.MineKeepsOrder | src/models/user.mjs:67-71 | the caller's tasks distribute over concatenation, so they come in store order, each as often as it is stored, and other owners' tasks not at all |
| TaskRouter.WithOwner | src/routers/task.mjs:12-15 | the owner key is always the caller's id, whatever the body says, and every other key is kept |
| TaskRouter.NewTask | src/routers/task.mjs:12-15 | a new task takes the trimmed description and the cast `completed` (false when absent), and records a cast error for a bad value |
| TaskRouter.CreateTask | src/routers/task.mjs:11-25 | 201 comes exactly when the description is non-empty after trimming and `completed` casts, and the appended task is owned by the caller with a fresh id |
| TaskRouter.Matching | src/routers/task.mjs:29-33 | the caller's tasks that meet the `completed` match, and no others |
| TaskRouter.MatchingKeepsOrder | src/routers/task.mjs:29-33 | the matching tasks distribute over concatenation, so they come in store order, each as often as it is stored, and non-matching tasks not at all |
| TaskRouter.Ordered | src/routers/task.mjs:45-50 | a permutation of the matching tasks, sorted when a sort is asked for and in natural order when not |
| TaskRouter.Page | src/routers/task.mjs:57-61 | the page holds only the caller's matching tasks, at most `limit` of them, sorted when asked, and is the window after `skip` of the ordered list |
| TaskRouter.ListTasks | src/routers/task.mjs:28-66 | the store is unchanged; a sort field the store refuses (empty, with an empty dot-separated component, or with a component starting with `$` other than `$natural`) gives 500 with the store's error, and otherwise 200 with a page that holds only the caller's matching tasks, at most `limit` of them, sorted when asked, and is the window after `skip` of the ordered list |
| TaskRouter.LeadingUnderscoreSortFails | src/routers/task.mjs:47-65 | a `sortBy` that starts with an underscore, such as `_id` or `_desc`, names the empty field, and the listing answers 500 with the store unchanged |
| TaskRouter.PagedDescendingQuery | src/routers/task.mjs:37-50 | `limit=l&skip=k&sortBy=f_desc`, for any spellings l and k that `parseInt` reads as counts, parses to those counts and a descending sort on f |
| TaskRouter.NewestFirst | src/routers/task.mjs:49 | a descending `createdAt` order never puts an older task before a newer one |
| TaskRouter.ListNewestSecondPage | src/routers/task.mjs:28-62 | `limit=5&skip=5&sortBy=createdAt_desc` answers 200 with at most five of the caller's tasks, newest first, after the five newest |
| TaskRouter.FindOwned | src/routers/task.mjs:71-74 | the lookup finds a task with that id and owner, and finds none exactly when the caller owns no such task |
| TaskRouter.FindOwnedSeesOnlyMine | src/routers/task.mjs:71-74 | the scoped lookup finds what a lookup among the caller's own tasks finds |
| TaskRouter.GetTask | src/routers/task.mjs:69-86 | 404 "Task Not Found!" comes exactly when the caller owns no task with that id, and otherwise that task is returned, with the store unchanged either way |
| TaskRouter.PatchTask | src/routers/task.mjs:89-118 | a key outside description and completed gives 400 with no change, a missing or foreign task gives 404 with no change; 200 comes exactly when the keys are allowed, the caller owns the task, `completed` casts and the resulting description is non-empty; success rewrites only the supplied fields of that one task and stamps `updatedAt` only when something changed |
| TaskRouter.CompletedTaskIsListed | src/routers/task.mjs:28-118 | after a task is marked completed, the caller is still signed in, the task is among their completed tasks, and it appears in `GET /tasks?completed=true` when those fit on one default page |
| TaskRouter.DeleteTask | src/routers/task.mjs:121-138 | a missing or foreign task gives 404 with no change, and otherwise exactly that task is removed and returned |
| TaskRouter.ScopedHandlersSeeOnlyMine | src/routers/task.mjs:69-138 | get, update and delete answer the same in any two stores where the caller owns the same tasks, so a foreign id looks exactly like a missing one |
| TaskQuery.Split | src/routers/task.mjs:48 | the parts hold no underscore, and the first part is the longest underscore-free prefix |
| TaskQuery.JoinSplit | src/routers/task.mjs:48 | joining the parts with underscores gives back the string |
| TaskQuery.SplitJoin | src/routers/task.mjs:48 | splitting a join of underscore-free parts gives back the parts |
| TaskQuery.CompletedFilter | src/routers/task.mjs:31-33 | there is no filter exactly when `completed` is missing or empty, and otherwise the filter value is whether it equals "true" |
| TaskQuery.SortSpecOf | src/routers/task.mjs:47-49 | the sort field holds no underscore and is the prefix of `sortBy` up to its first underscore, or all of it when there is none |
| TaskQuery.PlainNameIsSortPath | src/routers/task.mjs:47-61 | a non-empty field name without dots that does not start with `$` is a sort field the store accepts |
| TaskQuery.SortSpecOfFieldAndDirection | src/routers/task.mjs:47-50 | the field is the text before the first underscore, and the order is descending exactly when the next part is "desc" |
| TaskQuery.ParseQuery | src/routers/task.mjs:29-50 | limit and skip are what `parseInt` reads from them when both are given and otherwise 10 and 0, the filter follows `completed`, and there is a sort exactly when `sortBy` is given |
| TaskQuery.OneOfLimitSkipIsIgnored | src/routers/task.mjs:37-43 | giving only limit, or only skip, whatever its value, is the same as giving neither, so the defaults 10 and 0 apply |
| TaskQuery.LexLeTotal | src/routers/task.mjs:49 | any two strings are comparable in code-point order |
| TaskQuery.LexLeTrans | src/routers/task.mjs:49 | code-point order on strings is transitive |
| TaskQuery.InOrderTotal | src/routers/task.mjs:49 | any two tasks are comparable under a sort |
| TaskQuery.InOrderTrans | src/routers/task.mjs:49 | the sort order on tasks is transitive |
| TaskQuery.SortTasks | src/routers/task.mjs:57-61 | the sorted list is ordered and is a permutation of the input |
| TaskQuery.Window | src/routers/task.mjs:60 | the page is the run of the list after `skip` entries, cut at `limit` |
| Invariants.RegisterKeepsValid | src/routers/user.mjs:27-49 | sign-up keeps ids and e-mails unique and every task owned by a stored user |
| Invariants.LoginKeepsValid | src/routers/user.mjs:52-67 | login keeps the store valid |
| Invariants.LogoutKeepsValid | src/routers/user.mjs:70-82 | logout keeps the store valid |
| Invariants.LogoutAllKeepsValid | src/routers/user.mjs:85-95 | logout everywhere keeps the store valid |
| Invariants.PatchMeKeepsValid | src/routers/user.mjs:103-130 | a profile update keeps the store valid, e-mail uniqueness included |
| Invariants.UploadAvatarKeepsValid | src/routers/user.mjs:150-165 | an avatar upload keeps the store valid |
| Invariants.DeleteAvatarKeepsValid | src/routers/user.mjs:168-177 | an avatar delete keeps the store valid |
| Invariants.DeleteMeKeepsValid | src/models/user.mjs:150-155 | deleting a user with the cascade leaves no task without a stored owner |
| Invariants.CreateTaskKeepsValid | src/routers/task.mjs:11-25 | creating a task keeps the store valid |
| Invariants.PatchTaskKeepsValid | src/routers/task.mjs:89-118 | updating a task keeps the store valid |
| Invariants.DeleteTaskKeepsValid | src/routers/task.mjs:121-138 | deleting a task keeps the store valid |

## Left out

- src/emails/accounts.mjs: the welcome and goodbye e-mails are outbound I/O with no logic.
- src/index.mjs: the Express wiring and the server start-up.
- The authentication middleware (src/middleware/auth.mjs) is not part of this model. Its outcome is the precondition `Authenticated`.
- The Task schema (src/models/task.mjs) is not part of this model. `TaskModel` rests on assumptions in its place: a required, trimmed description, a boolean `completed` that defaults to false, an owner, and timestamps. Any other rule that file may hold is not modelled.
- Password hashing and comparison, token signing, `isEmail` and the sharp re-encoding are parameters. Their algorithms are not modelled.
- Logging, async ordering, and the 500 answers that only a failing database produces are left out. The 500 for a sort field the store refuses is modelled.
- Error-message formatting is left out: a failed save answers with `SaveFailed` carrying the per-path messages or the duplicate key, not the exact text that Mongoose composes.
- Register and Login: both look the e-mail up as sent in the body, by exact equality. Mongoose would run the trim and lower-case setters on that query value; this is not modelled. The unique index at save does use the stored form.
- UploadAvatar: the save there is not awaited. The model writes the avatar before answering. A missing file and a failing re-encode are left out.
- TaskQuery.ParseQuery: the numbers are unbounded integers. JavaScript numbers lose precision above 2^53, so a longer digit string reads differently there; this is not modelled.
- Numbers.ParseInt: `parseInt` of a numeral above 2^53 is rounded to a double in JavaScript; the model keeps the exact value.
- Schema.CastNumber: `Number` is modelled on integers only. Fractional, exponent and `Infinity` spellings, and fractional JSON numbers, are cast errors in the model, while the mapper accepts them as numbers. The empty string, which the mapper casts to null, is a cast error here.
- UserModel.NewUser: an age given as a fractional or exponent string such as "2.5" or "1e2" records a cast error in the model, because `Schema.CastNumber` reads integers only.
- Repeated query keys: Express turns `?sortBy=a&sortBy=b` or `?completed=true&completed=true` into an array. The handler would then throw on `split` or compare an array with "true". The model's query holds one optional string per key, so these cases are left out.
- TaskRouter.ListTasks: when both limit and skip are given, each must read as a count, that is `parseInt` gives a number that is not negative (the `Parsable` precondition). A NaN or negative limit or skip, and how the store treats it, is left out, and so is the store's reading of limit 0 as "no limit". The store's refusal of a sort field is modelled by `SortPathOk`: the field must not be empty, no dot-separated component may be empty, and no component may start with `$`, except the whole key `$natural`. Other refusals the store may make, such as a limit on path length, are left out. Under `$natural` every task lacks the key, so the model promises only some sorted permutation, not the insertion order the store gives.
- SortTasks: the order among tasks with equal keys is not promised, because the store promises none. The contract states that the list is sorted and is a permutation.
- UserModel.PasswordError: characters are Unicode scalar values, so a lone surrogate, which `validator.isLength` counts as one character, cannot occur in the model.
- Strings.ToLower: only ASCII letters are lower-cased. Full Unicode case mapping is left out.
- Request bodies hold only strings, numbers and booleans. `null`, nested objects and arrays are left out, and so are body keys that name internal or timestamp fields (`tokens`, `_id`, `avatar`, `createdAt`, `updatedAt`) when they reach the constructor. JSON numbers are unbounded integers in the model: JavaScript loses precision above 2^53, and its `String` writes 10^21 and above in exponent form ("1e+21"), while the model renders every digit.
- User timestamps are not modelled. Task timestamps are: creation sets both to the clock value when the body names neither, and a save that modifies something sets `updatedAt`.
- TaskRouter.NewTask, TaskRouter.CreateTask: the body is spread into the new task, so a `createdAt` sent in it is kept by the store in place of the clock value, and one that does not cast to a date fails the save with 400. The model always stamps the clock value, so its promise that both timestamps equal the clock value holds only for bodies without `createdAt` and `updatedAt`.
- UserModel.NewUser, UserRouter.Register: an `avatar` string in the sign-up body would be cast to a Buffer and stored. The model ignores that key, so its promise that a new user has no avatar holds only for bodies without it.
- UserRouter.Login: the credentials are modelled as strings. The route passes the raw body values instead. A missing or non-string password makes the hash library's `compare` reject with "Illegal arguments", which `findByCredentials` returns as its error, so the route answers 400 with it. A missing or non-string e-mail reaches the store's query as it is. These inputs are left out.
- Route ids are natural numbers. A malformed id string, which would give a cast error, is left out.
- Register, PatchMe: every save validates every path of the user, and the unique index is checked when the e-mail was modified, as in Mongoose.
- Login, Logout, LogoutAll, UploadAvatar, DeleteAvatar: their saves would re-validate every stored path. The model assumes the stored document passes its rules: a stored hash passes the password rule, and every stored token is non-empty. So these saves cannot fail in the model, and their 400 and 500 answers for a failing save are left out. The same holds for the second save inside `generateToken` that Register makes.
