# Todo app: validation, persistence and session, in Dafny

This project models the core of a small multi-user todo application. It has a NestJS backend that keeps users and todos in two flat JSON files, and a React frontend. The model covers:

- **The two flat-file stores** (`JsonDatabase`, `UserDatabase`). Each is a class whose `file` field stands for the JSON file. `None` means the file is missing or unreadable, and every read then yields the empty list. Every write replaces the whole list.
- **The two services** (`TodoService`, `UserService`). Each is a class over its store. Every method runs the source's guards in the source's order, and is proved to give the result and the file effect of a pure step function (`Todos.CreateStep`, `Users.UpdateStep`, …). The lemmas about the step functions carry the properties: guard order, error precedence, what is stored, round trips, id reuse, and the invariants each change keeps.
- **The single-slot session**:
  - `AuthService` holds one optional password-less user;
  - `AuthController` binds it on login, clears it on logout and reads it for `me`;
  - `TodoController` refuses every todo route while the slot is empty.

  The slot's life is also a pure event machine (`Session.Next`, `Session.Replay`) with lemmas about sequences of logins and logouts.
- **The frontend's list-cache updaters and query keys** from `use-todos.ts`, as pure functions.
- **The `auth-store.ts` state machine**, as a class whose actions take the API outcomes as inputs and are proved against pure transition functions.

The following behaviour is modelled as the code has it:
- **Id reuse.** A new id is the largest id present plus one, or 1 for an empty list. So creating a todo, removing it and creating another gives the second one the same id (`Todos.CreateRemoveCreateReusesId`). Likewise, on a store holding ids 1..n, removing n makes the next create hand out n again (`FlatFile.RemovingNewestReusesId`).
- **Raw-input conflict checks.** The user conflict checks compare the raw input with the stored, normalised values, so an email that differs from a stored one only in letter case is accepted as a second account (`Users.CaseVariantEmailSlipsThrough`). That account cannot log in while the older record holding the same email is stored before it (`Users.CaseVariantDuplicateCannotLogIn`). For the same reason, neither emails nor usernames are kept unique.
- **What the session holds.** `validateUser` returns the projection without the password, so that projection is what the slot holds.
- **No todo ownership.** The todo service takes no user id and the todo record has no owner field. The controller computes the current user's id and discards it: the contracts of the `TodoRoutes.TodoController` methods depend only on whether a user is bound, not on which. No ownership isolation is claimed.

Assumptions:
- **Whitespace and case.** Whitespace (`\s` and `trim`) is the ECMAScript WhiteSpace and LineTerminator set of code points. `toLowerCase` maps only the ASCII letters A–Z.
- **Email pattern.** The regex is the explicit predicate `Users.IsEmail`: an `@` with non-empty runs around it, and a `.` in the domain part with a non-empty run on both sides. No character other than the one `@` is whitespace or `@`.
- **Clock.** Timestamps are integer parameters (`now`). No monotonicity is assumed, so nothing is claimed about `updatedAt >= createdAt`.

## Model

| member | source | states |
|---|---|---|
| TodoCache.AllKey | frontend/src/hooks/use-todos.ts:7 | `all` is ['todos'] |
| Text.IsSpace | backend/src/user/user.service.ts:52 | `\s` and `trim()` whitespace: the ECMAScript WhiteSpace and LineTerminator code points; space, tab, newline, carriage return, no-break and ideographic spaces are in it; letters, digits, '@', '.' and '_' are not |
| FlatFile.MaxId | backend/src/database/json-database.service.ts:51 | `Math.max(...ids)` of a non-empty list: an id in the list and no smaller than any of them |
| FlatFile.NextId | backend/src/database/json-database.service.ts:50-51 | the new id is above every id present, is 1 on an empty list, and otherwise is the largest id plus one |
| FlatFile.FindIndex | backend/src/database/json-database.service.ts:70 | `findIndex`: -1 exactly when the key is absent, otherwise the first position holding it |
| FlatFile.RemoveAt | backend/src/database/json-database.service.ts:94 | `splice(k, 1)`: one element fewer, the elements before `k` in place, the ones after shifted down by one, the same multiset less the removed element |
| FlatFile.NextIdAfterSequential | backend/src/database/json-database.service.ts:50-51 | on a list of ids 1..n the next id is n+1, and appending it gives the ids 1..n+1 |
| FlatFile.NextIdAfterRemoval | backend/src/database/json-database.service.ts:50-51 | when every id is positive, as the stores' invariant keeps them, removing a record never raises the next id |
| FlatFile.RemovingNewestReusesId | backend/src/database/json-database.service.ts:50-51 | on the ids 1..n, removing n makes the next id n again |
| TodoStore.FindById | backend/src/database/json-database.service.ts:41-44 | `find` by id: none exactly when no record has the id, otherwise the first record with it |
| TodoStore.NewTodo | backend/src/database/json-database.service.ts:46-63 | the created record has an id above every stored id (1 on an empty list), the given fields and both timestamps equal to `now` |
| TodoStore.Merge | backend/src/database/json-database.service.ts:76-80 | the merge takes each supplied title, description and completed, keeps each absent one, keeps id and createdAt, and sets updatedAt to `now` |
| TodoStore.MergeEmpty | backend/src/database/json-database.service.ts:76-80 | merging an empty patch changes only updatedAt |
| TodoStore.MergeTwice | backend/src/database/json-database.service.ts:76-80 | two merges equal one merge of the combined patch, the later field winning |
| TodoStore.JsonDatabase.ReadTodos | backend/src/database/json-database.service.ts:23-31 | a missing or unreadable file reads as [], otherwise as its list |
| TodoStore.JsonDatabase.WriteTodos | backend/src/database/json-database.service.ts:33-35 | the file afterwards holds exactly the given list |
| TodoStore.JsonDatabase.FindAll | backend/src/database/json-database.service.ts:37-39 | the whole list in file order, [] for a missing file |
| TodoStore.JsonDatabase.FindOne | backend/src/database/json-database.service.ts:41-44 | the first record with that id, or none |
| TodoStore.JsonDatabase.Create | backend/src/database/json-database.service.ts:46-63 | appends the new record at the end, every earlier record unchanged, and returns it |
| TodoStore.JsonDatabase.Update | backend/src/database/json-database.service.ts:65-84 | an absent id returns none and leaves the file as it was; otherwise only the first match's index is replaced by the merged record, at the same position |
| TodoStore.JsonDatabase.Remove | backend/src/database/json-database.service.ts:86-97 | an absent id returns false with no change; otherwise exactly the first match is removed, the rest in order |
| Todos.ValidateCreate | backend/src/todo/todo.service.ts:29-48 | every refusal is a BadRequest; an accepted body has a title of at most 200 raw characters, and the data holds its non-empty trimmed title, a description, and completed = false |
| Todos.CreateAcceptsExactly | backend/src/todo/todo.service.ts:29-42 | create is accepted exactly for a present non-blank title of at most 200 raw characters and a description of at most 1000 |
| Todos.CreateGuardOrder | backend/src/todo/todo.service.ts:30-42 | the first failing guard decides the error: missing or blank title, then title over 200 characters, then description over 1000 |
| Todos.CreateStoresTrimmed | backend/src/todo/todo.service.ts:44-48 | the stored title is trimmed, the description trimmed or '' when absent or blank, completed is false |
| Todos.TitleLengthBoundary | backend/src/todo/todo.service.ts:30-36 | 200 characters pass and 201 fail; length is counted before trimming (a space and 200 letters fail); "" and whitespace-only titles are "Title is required" |
| Todos.UpdatePatch | backend/src/todo/todo.service.ts:61-87 | every refusal is a BadRequest; an accepted patch has a title or description exactly when the body supplies it, the body's completed, and any title non-empty and at most 200 characters |
| Todos.UpdatePatchFields | backend/src/todo/todo.service.ts:61-87 | update's field guards accept exactly the supplied fields that are in range; the patch has exactly the supplied fields, trimmed |
| Todos.FindOneResult | backend/src/todo/todo.service.ts:17-27 | BadRequest for id ≤ 0; otherwise NotFound exactly when no stored todo has the id, else that todo |
| Todos.CreateStep | backend/src/todo/todo.service.ts:29-51 | a refused create leaves the file; an accepted one appends a record whose id is above every stored id |
| Todos.UpdateStep | backend/src/todo/todo.service.ts:53-95 | a refused update leaves the file; an accepted one needs a positive id, returns a record with that id and keeps the number of records |
| Todos.RemoveStep | backend/src/todo/todo.service.ts:97-106 | a refused remove leaves the file; an accepted one needs a positive id and leaves one record fewer |
| Todos.ToggleStep | backend/src/todo/todo.service.ts:108-111 | a refused toggle leaves the file; an accepted one returns the todo `findOne` gives, with its completed flag negated |
| Todos.InvalidIdRefusedFirst | backend/src/todo/todo.service.ts:18-20 | findOne, update, remove and toggle refuse id ≤ 0 with BadRequest before the store, leaving the file |
| Todos.MissingTodoNotFound | backend/src/todo/todo.service.ts:54-59 | an absent id is NotFound for findOne, update, remove and toggle, whatever the body, with the file unchanged |
| Todos.BlankTitleRefused | backend/src/todo/todo.service.ts:63-66 | on an existing todo, a supplied empty or blank title is "Title cannot be empty" and nothing is written |
| Todos.UpdateChangesOnlySuppliedFields | backend/src/todo/todo.service.ts:61-94 | a successful update replaces the first record with that id and nothing else; supplied fields take their trimmed values, unsupplied ones keep theirs, id and createdAt stay |
| Todos.ToggleTwiceRestores | backend/src/todo/todo.service.ts:108-111 | two toggles give back the original record, only updatedAt changed |
| Todos.CreateThenFindOne | backend/src/todo/todo.service.ts:44-50 | a created todo is found again by its id with the trimmed fields and completed = false |
| Todos.CreateThenFindOneExample | backend/src/todo/todo.service.ts:44-50 | creating title "t", description "d" and reading it back gives those fields and completed = false |
| Todos.CreatePreservesConsistency | backend/src/todo/todo.service.ts:29-51 | create keeps ids positive and distinct and every record well formed (trimmed non-empty title ≤ 200, trimmed description ≤ 1000) |
| Todos.UpdatePreservesConsistency | backend/src/todo/todo.service.ts:53-95 | update keeps the same invariant |
| Todos.TogglePreservesConsistency | backend/src/todo/todo.service.ts:108-111 | toggle keeps the same invariant |
| Todos.RemovePreservesConsistency | backend/src/todo/todo.service.ts:97-106 | remove keeps the invariant, and afterwards no record has the removed id |
| Todos.RemoveAppended | backend/src/database/json-database.service.ts:86-97 | removing a just-appended record with a fresh id gives back the list before it |
| Todos.CreatesFromEmptyNumberFromOne | backend/src/database/json-database.service.ts:50-51 | on a missing or empty file, n accepted creates leave exactly the ids 1..n, in order |
| Todos.NextCreateGetsNextId | backend/src/database/json-database.service.ts:50-51 | after n accepted creates on a missing or empty file, the next accepted create is given id n+1 |
| Todos.CreateRemoveCreateReusesId | backend/src/database/json-database.service.ts:50-51 | create, remove that todo, create again: the second create gets the same id |
| TodoService.TodoService.FindAll | backend/src/todo/todo.service.ts:13-15 | the store's list, unfiltered and in storage order |
| TodoService.TodoService.FindOne | backend/src/todo/todo.service.ts:17-27 | the result of `Todos.FindOneResult` on the stored list |
| TodoService.TodoService.Create | backend/src/todo/todo.service.ts:29-51 | result and file afterwards are those of `Todos.CreateStep` |
| TodoService.TodoService.Update | backend/src/todo/todo.service.ts:53-95 | result and file afterwards are those of `Todos.UpdateStep` |
| TodoService.TodoService.Remove | backend/src/todo/todo.service.ts:97-106 | result and file afterwards are those of `Todos.RemoveStep` |
| TodoService.TodoService.ToggleComplete | backend/src/todo/todo.service.ts:108-111 | result and file afterwards are those of `Todos.ToggleStep` |
| UserStore.First | backend/src/database/user-database.service.ts:41-54 | `find` on a field: none exactly when no record has that value, otherwise the first record that has it |
| UserStore.FindById | backend/src/database/user-database.service.ts:41-44 | none exactly when no user has the id, otherwise the first stored user with it |
| UserStore.FirstWithEmail | backend/src/database/user-database.service.ts:46-49 | exact, case-sensitive email match: none exactly when no user has that email, otherwise the first user with it |
| UserStore.FirstWithUsername | backend/src/database/user-database.service.ts:51-54 | exact username match: none exactly when no user has that username, otherwise the first user with it |
| UserStore.NewUser | backend/src/database/user-database.service.ts:56-73 | the new record's id is above every stored id (1 on an empty list); it has the given fields and both timestamps `now` |
| UserStore.MergeUser | backend/src/database/user-database.service.ts:86-90 | the merge keeps id and createdAt, takes each supplied field, sets updatedAt to `now` |
| UserStore.UserDatabase.ReadUsers | backend/src/database/user-database.service.ts:23-31 | a missing or unreadable file reads as [] |
| UserStore.UserDatabase.WriteUsers | backend/src/database/user-database.service.ts:33-35 | the file afterwards holds exactly the given list |
| UserStore.UserDatabase.FindAll | backend/src/database/user-database.service.ts:37-39 | every stored user in file order |
| UserStore.UserDatabase.FindOne | backend/src/database/user-database.service.ts:41-44 | the first user with that id, or none |
| UserStore.UserDatabase.FindByEmail | backend/src/database/user-database.service.ts:46-49 | the first user with exactly that email, or none |
| UserStore.UserDatabase.FindByUsername | backend/src/database/user-database.service.ts:51-54 | the first user with exactly that username, or none |
| UserStore.UserDatabase.Create | backend/src/database/user-database.service.ts:56-73 | appends the new user at the end and returns it |
| UserStore.UserDatabase.Update | backend/src/database/user-database.service.ts:75-94 | an absent id returns none and leaves the file; otherwise the merge replaces that index only |
| UserStore.UserDatabase.Remove | backend/src/database/user-database.service.ts:96-107 | an absent id returns false with no change; otherwise exactly one element is removed, order kept |
| Users.IsEmail | backend/src/user/user.service.ts:52 | a string the pattern accepts has at least five characters, contains '@', and neither starts nor ends with whitespace |
| Users.EmailSpaceFree | backend/src/user/user.service.ts:52 | a matching email has no whitespace and exactly one '@' |
| Users.EmailTrimmed | backend/src/user/user.service.ts:52 | a matching email is not blank and trimming leaves it unchanged |
| Users.LowerKeepsEmail | backend/src/user/user.service.ts:52 | lower-casing a matching email keeps it matching |
| Users.StoredEmail | backend/src/user/user.service.ts:75 | for a matching email, trim-then-lower-case equals lower-case, and the result matches and is its own lower case |
| Users.EmailExamples | backend/src/user/user.service.ts:52 | "a@b.co", "A@b.co" and "first.last@mail.example.org" match; "a@b", "@b.co", "a@.co", "a@b.", "a b@c.d" and "a@b@c.d" do not |
| Users.ToUserResponse | backend/src/user/user.service.ts:181-184 | the projection keeps id, username, email, createdAt and updatedAt |
| Users.ResponseForgetsOnlyPassword | backend/src/user/user.service.ts:181-184 | two users project alike exactly when they differ at most in their password |
| Users.AllResponses | backend/src/user/user.service.ts:20-23 | `findAll` projects every user, position by position |
| Users.FindOneResult | backend/src/user/user.service.ts:25-35 | BadRequest for id ≤ 0; otherwise NotFound exactly when no user has the id, else that user projected |
| Users.CreateFieldError | backend/src/user/user.service.ts:39-55 | no field error exactly when username and email are non-blank, the password has at least 6 characters and the raw email matches |
| Users.CreateGuardOrder | backend/src/user/user.service.ts:39-55 | the first failing field guard decides the error: username, email, password length, email pattern |
| Users.ValidateCreate | backend/src/user/user.service.ts:37-77 | every refusal is a BadRequest or a Conflict; an accepted body passes the field guards, and no stored record has its raw email or its raw username |
| Users.CreateConflicts | backend/src/user/user.service.ts:57-71 | after the field guards, Conflict exactly when a stored record has the raw email (checked first) or the raw username |
| Users.CreateStoresNormalised | backend/src/user/user.service.ts:73-77 | stored username trimmed, email lower-cased (which still matches), password verbatim |
| Users.CreateStep | backend/src/user/user.service.ts:37-81 | a refused create leaves the file; an accepted one appends a record with a fresh id and returns its projection |
| Users.CreateStepOk | backend/src/user/user.service.ts:73-80 | an accepted create appends the record `NewUser` builds and returns its projection |
| Users.UsernameUpdate | backend/src/user/user.service.ts:96-112 | a supplied username is accepted exactly when non-blank and not held by another user's first matching record; then it is stored trimmed |
| Users.EmailUpdate | backend/src/user/user.service.ts:114-133 | a supplied email is accepted exactly when it matches (so it is not blank) and is not held by another user's first matching record; then it is stored lower-cased |
| Users.PasswordUpdate | backend/src/user/user.service.ts:135-140 | a supplied password is accepted exactly when it has at least 6 characters, and is stored verbatim |
| Users.UpdatePatch | backend/src/user/user.service.ts:94-140 | the patch exists exactly when all three sections accept; username errors come first, then email errors |
| Users.UpdateStep | backend/src/user/user.service.ts:83-148 | a refused update leaves the file; an accepted one needs a positive id, returns a projection with that id and keeps the number of records |
| Users.RemoveStep | backend/src/user/user.service.ts:150-159 | a refused remove leaves the file; an accepted one needs a positive id and leaves one record fewer |
| Users.UpdateChangesOnlySuppliedFields | backend/src/user/user.service.ts:94-147 | a successful update changes only the supplied fields of the first record with the id, keeps id and createdAt, and returns the projection |
| Users.InvalidUserIdRefusedFirst | backend/src/user/user.service.ts:26-28 | findOne, update and remove refuse id ≤ 0 with BadRequest and leave the file |
| Users.MissingUserNotFound | backend/src/user/user.service.ts:30-33 | an absent id is NotFound for findOne, update and remove, with the file unchanged |
| Users.Login | backend/src/user/user.service.ts:161-179 | every failure is either "Email and password are required" or the single invalid-credentials NotFound; a success had a non-empty email and password |
| Users.LoginOutcome | backend/src/user/user.service.ts:161-179 | an empty email or password is BadRequest; every other failure is the same NotFound; success returns a stored user with the lower-cased email and the same password, projected |
| Users.LoginWithUniqueEmail | backend/src/user/user.service.ts:166-178 | when one record alone holds the email, login succeeds exactly with that record's password |
| Users.LoginStopsAtFirst | backend/src/user/user.service.ts:166-168 | login never returns a user stored after the first one holding the lower-cased email |
| Users.RegisterThenLogin | backend/src/user/user.service.ts:37-81 | registering and then logging in with the same email and password returns the new account, when no earlier record holds the lower-cased email |
| Users.CaseVariantEmailSlipsThrough | backend/src/user/user.service.ts:58-77 | an email differing from a stored one only in case passes every guard and is stored as a second copy of the stored email |
| Users.CaseVariantDuplicateCannotLogIn | backend/src/user/user.service.ts:166-178 | right after it is created, that duplicate account cannot log in with its own email and password, because login stops at the older record holding the email |
| UserInvariant.CreatePreservesConsistency | backend/src/user/user.service.ts:37-81 | create keeps ids distinct and positive and every user well formed: trimmed non-empty username, matching lower-case email, password of at least 6 |
| UserInvariant.UpdatePreservesConsistency | backend/src/user/user.service.ts:83-148 | update keeps the same invariant |
| UserInvariant.RemovePreservesConsistency | backend/src/user/user.service.ts:150-159 | remove keeps the invariant, and afterwards no user has the removed id |
| UserService.UserService.FindAll | backend/src/user/user.service.ts:20-23 | every stored user projected, in storage order |
| UserService.UserService.FindOne | backend/src/user/user.service.ts:25-35 | the result of `Users.FindOneResult` on the stored list |
| UserService.UserService.Create | backend/src/user/user.service.ts:37-81 | result and file afterwards are those of `Users.CreateStep` |
| UserService.UserService.UsernameSection | backend/src/user/user.service.ts:96-112 | the result of `Users.UsernameUpdate` against the stored list |
| UserService.UserService.EmailSection | backend/src/user/user.service.ts:114-133 | the result of `Users.EmailUpdate` against the stored list |
| UserService.UserService.Update | backend/src/user/user.service.ts:83-148 | result and file afterwards are those of `Users.UpdateStep` |
| UserService.UserService.Remove | backend/src/user/user.service.ts:150-159 | result and file afterwards are those of `Users.RemoveStep` |
| UserService.UserService.Login | backend/src/user/user.service.ts:161-179 | the result of `Users.Login` on the stored list; nothing is written |
| Session.Validate | backend/src/auth/auth.service.ts:8-15 | succeeds exactly when login does, with a stored user's projection whose lower-cased email and password match; every failure becomes Unauthorized "Invalid credentials" |
| Session.Next | backend/src/auth/auth.controller.ts:11-30 | a successful login binds its user, a failed one leaves the slot, a logout clears it |
| Session.ReplayLastBinding | backend/src/auth/auth.service.ts:18-30 | after any events, the slot is decided by the last successful login or logout alone, whatever it held before |
| Session.ReplayWithoutBinding | backend/src/auth/auth.controller.ts:12-16 | failed logins alone never change the slot |
| Session.BoundUserCameFromLogin | backend/src/auth/auth.service.ts:18-26 | starting empty, a bound user is always the user of a successful login that no later login or logout displaced |
| Session.AuthService.constructor | backend/src/auth/auth.service.ts:18 | the slot starts empty |
| Session.AuthService.ValidateUser | backend/src/auth/auth.service.ts:8-15 | the result of `Session.Validate` on the stored users; the slot is not touched |
| Session.AuthService.SetCurrentUser | backend/src/auth/auth.service.ts:20-22 | the slot holds exactly the given user, replacing any earlier one |
| Session.AuthService.GetCurrentUser | backend/src/auth/auth.service.ts:24-26 | returns the slot's content |
| Session.AuthService.ClearCurrentUser | backend/src/auth/auth.service.ts:28-30 | the slot is empty afterwards, whatever it held |
| AuthRoutes.MeReply | backend/src/auth/auth.controller.ts:34-46 | `me` answers with the bound user; "No user logged in" exactly when none is bound, "Current user" exactly when one is |
| AuthRoutes.LoginReply | backend/src/auth/auth.controller.ts:11-21 | a validated user is answered with "Login successful" and that user; a failure is rethrown unchanged |
| AuthRoutes.MeAfterEvents | backend/src/auth/auth.controller.ts:11-46 | after a successful login `me` returns the user the login returned; after a failed one it answers as before; after a logout it returns null |
| AuthRoutes.AuthController.Login | backend/src/auth/auth.controller.ts:11-21 | the answer is `LoginReply` of the validation, and the slot moves by `Session.Next`: bound on success, unchanged on failure |
| AuthRoutes.AuthController.Logout | backend/src/auth/auth.controller.ts:25-30 | always "Logout successful", and the slot is cleared |
| AuthRoutes.AuthController.Me | backend/src/auth/auth.controller.ts:34-46 | `MeReply` of the slot, with no state change |
| TodoRoutes.CurrentUserId | backend/src/todo/todo.controller.ts:25-31 | Unauthorized "Please login first" exactly when the slot is empty, otherwise the bound user's id |
| TodoRoutes.Guarded | backend/src/todo/todo.controller.ts:35-72 | with no session, Unauthorized and the file unchanged; with one, exactly the service step's outcome |
| TodoRoutes.LoginCheckedBeforeId | backend/src/todo/todo.controller.ts:47-50 | with no session id 0 is Unauthorized for update, remove and toggle; with a session it is the service's BadRequest |
| TodoRoutes.TodoController.GetCurrentUserId | backend/src/todo/todo.controller.ts:25-31 | the result of `TodoRoutes.CurrentUserId` on the slot, nothing changed |
| TodoRoutes.TodoController.Create | backend/src/todo/todo.controller.ts:35-38 | the session check first, then the service's create with the body unchanged |
| TodoRoutes.TodoController.FindAll | backend/src/todo/todo.controller.ts:40-44 | Unauthorized with no session, otherwise the whole stored list |
| TodoRoutes.TodoController.FindOne | backend/src/todo/todo.controller.ts:46-50 | Unauthorized with no session, otherwise the service's findOne for the route id |
| TodoRoutes.TodoController.Update | backend/src/todo/todo.controller.ts:52-59 | the session check first, then the service's update with the id and body unchanged |
| TodoRoutes.TodoController.ToggleComplete | backend/src/todo/todo.controller.ts:61-65 | the session check first, then the service's toggle |
| TodoRoutes.TodoController.Remove | backend/src/todo/todo.controller.ts:67-72 | the session check first, then the service's remove |
| TodoCache.ListsKey | frontend/src/hooks/use-todos.ts:8 | `lists()` is ['todos', 'list'], a proper extension of `all` |
| TodoCache.ListKey | frontend/src/hooks/use-todos.ts:9 | `list(filters)` is ['todos', 'list', {filters}], so it lies under `lists()` |
| TodoCache.DetailsKey | frontend/src/hooks/use-todos.ts:10 | `details()` is ['todos', 'detail']: under `all`, and neither a prefix nor an extension of `lists()` |
| TodoCache.DetailKey | frontend/src/hooks/use-todos.ts:11 | `detail(id)` is ['todos', 'detail', id]: under `details()` and never under `lists()` |
| TodoCache.KeyShapes | frontend/src/hooks/use-todos.ts:6-12 | lists() is ['todos','list'] and detail(id) is ['todos','detail',id]; lists() is a proper prefix of every list(filters) and of no detail key; distinct ids and distinct filters give distinct keys |
| TodoCache.AfterCreate | frontend/src/hooks/use-todos.ts:39-42 | [newTodo] on an empty cache, otherwise the old list with newTodo appended |
| TodoCache.ReplaceById | frontend/src/hooks/use-todos.ts:56 | the `map`: same length, entries with the updated id replaced in place, the others unchanged |
| TodoCache.AfterUpdate | frontend/src/hooks/use-todos.ts:54-57 | [updated] on an empty cache, otherwise the replacement by id (the toggle hook, 70-73, uses the same lambda) |
| TodoCache.WithoutId | frontend/src/hooks/use-todos.ts:88 | the filter is no longer than the list, and no entry it keeps has the deleted id |
| TodoCache.AfterDelete | frontend/src/hooks/use-todos.ts:86-89 | [] on an empty cache, otherwise the filter by id |
| TodoCache.WithoutIdMembers | frontend/src/hooks/use-todos.ts:88 | the filter keeps exactly the entries with another id |
| TodoCache.WithoutIdConcat | frontend/src/hooks/use-todos.ts:88 | the filter keeps order: filtering a concatenation filters each part |
| TodoCache.DeleteRemovesOnlyThatId | frontend/src/hooks/use-todos.ts:86-89 | after a delete no entry has the deleted id, every other entry is still there, and the list is no longer |
| TodoCache.DeleteUndoesCreate | frontend/src/hooks/use-todos.ts:39-42 | deleting a freshly created todo with a new id gives back the cached list (or [] for an empty cache) |
| TodoCache.UpdateReplacesInPlace | frontend/src/hooks/use-todos.ts:54-57 | an update keeps length and positions, replaces entries with the id, and leaves a list without that id unchanged |
| TodoCache.UpdateIdempotent | frontend/src/hooks/use-todos.ts:54-57 | applying the same update twice equals applying it once |
| TodoCache.DeleteAfterUpdate | frontend/src/hooks/use-todos.ts:54-57 | deleting an id right after updating it leaves what the delete alone would |
| ClientAuth.Initial | frontend/src/store/auth-store.ts:22-24 | user null, not loading, not authenticated |
| ClientAuth.AfterLogin | frontend/src/store/auth-store.ts:26-39 | success sets the response user and authenticated; failure keeps user and flag; either way loading ends |
| ClientAuth.AfterRegister | frontend/src/store/auth-store.ts:41-56 | a failed creation only ends loading; a successful one continues as login |
| ClientAuth.RegisterError | frontend/src/store/auth-store.ts:41-56 | register rethrows nothing exactly when both calls succeed, else the first failure's error |
| ClientAuth.AfterCheckAuth | frontend/src/store/auth-store.ts:73-101 | authenticated exactly when `me` succeeded with a user, and then with that user; otherwise signed out |
| ClientAuth.Step | frontend/src/store/auth-store.ts:26-105 | logout always signs out; setLoading changes only isLoading; every other action ends with isLoading false |
| ClientAuth.StepKeepsCoherent | frontend/src/store/auth-store.ts:26-105 | every action keeps "authenticated exactly when a user is held" |
| ClientAuth.RunKeepsCoherent | frontend/src/store/auth-store.ts:22-105 | from the initial state any run of actions keeps that invariant, and ends not loading unless the last action was setLoading(true) |
| ClientAuth.RegisterNeedsBoth | frontend/src/store/auth-store.ts:41-56 | register authenticates a signed-out store exactly when creation and login both succeed, with the login's user |
| ClientAuth.AuthStore.constructor | frontend/src/store/auth-store.ts:22-24 | the store starts in `Initial()` |
| ClientAuth.AuthStore.Login | frontend/src/store/auth-store.ts:26-39 | the new state is `AfterLogin` of the old; a failure is rethrown |
| ClientAuth.AuthStore.Register | frontend/src/store/auth-store.ts:41-56 | the new state is `AfterRegister` of the old; the rethrown error is `RegisterError` |
| ClientAuth.AuthStore.Logout | frontend/src/store/auth-store.ts:58-71 | signed out whether or not the API call failed |
| ClientAuth.AuthStore.CheckAuth | frontend/src/store/auth-store.ts:73-101 | the new state is `AfterCheckAuth` of the `me` outcome |
| ClientAuth.AuthStore.SetLoading | frontend/src/store/auth-store.ts:103-105 | only isLoading changes |
| Text.TrimStartSpec | backend/src/todo/todo.service.ts:45 | the leading half of `trim()`: it removes a blank prefix of the string, keeps the rest, and the rest starts with a non-space or is empty |
| Text.TrimEndSpec | backend/src/todo/todo.service.ts:45 | the trailing half: it removes a blank suffix, keeps the rest, and the rest ends with a non-space or is empty |
| Text.Trim | backend/src/todo/todo.service.ts:45 | `trim()`: the result is no longer than the input and starts and ends with no whitespace |
| Text.TrimKeepsMiddle | backend/src/todo/todo.service.ts:45 | `trim()` keeps the middle of the string: the result is a slice of the input whose prefix and suffix are blank |
| Text.TrimEmptyIffBlank | backend/src/todo/todo.service.ts:30 | trimming gives "" exactly when the string is all whitespace |
| Text.TrimIdempotent | backend/src/todo/todo.service.ts:45 | trimming twice is trimming once |
| Text.ToLower | backend/src/user/user.service.ts:75 | `toLowerCase()`: same length, each character mapped by the ASCII case map |
| Text.ToLowerIdempotent | backend/src/user/user.service.ts:75 | lower-casing twice is lower-casing once |

## Left out

- File I/O, `JSON.parse`/`JSON.stringify`, `ensureDataDirectory` and the file paths: the file is a field, and a read failure only yields the empty list.
- Real `Date` values: timestamps are integer parameters, and their order is not modelled.
- The two `new Date()` calls in each store's `create` (json-database.service.ts:56-57, user-database.service.ts:66-67): they may differ by a millisecond, but the model gives createdAt and updatedAt the one value `now`.
- JavaScript number limits: ids are unbounded integers. The source uses doubles, and `Math.max(...ids)` throws a RangeError on a list too long to spread as arguments.
- Trim: its own contract states only length and trimmed ends. That the result is the middle of the input between two blank runs is the separate lemma `Text.TrimKeepsMiddle`, because that existential in Trim's contract would enter every proof that uses `trim`, and those proofs then run out of resource.
- Concurrency: each call is one atomic step. The source has no locking, and interleaved read-modify-write cycles are not modelled.
- Ownership by `userId`: the service and record as written have none. The controller's id is computed and then ignored.
- JSON `null` versus an absent field: both are `None`, so every `null` in an update body is treated as absent. The source differs in these cases, none of which is modelled:
  - a `null` password makes it throw a TypeError;
  - a `null` title, username or email is refused (todo.service.ts:63-66, user.service.ts:96-116), where the model keeps the field;
  - a `null` description is stored as '' (todo.service.ts:82), where the model keeps the old one;
  - a `null` completed becomes false through `Boolean(...)` (todo.service.ts:85-86), where the model keeps the old value.
- The `Boolean(...)` coercion of a non-boolean `completed`: the model's body field is already a boolean.
- Unicode: `trim`, `\s` and `toLowerCase` are modelled over the ECMAScript whitespace code points and ASCII letters only. Lengths count `char`s, not UTF-16 code units.
- NestJS dependency injection, decorators, HTTP status codes and `ParseIntPipe`: route ids arrive already parsed as integers.
- The frontend's HTTP calls: their outcomes are inputs to the store actions.
- The `isLoading: true` state while a call is pending: each action is modelled by its final state, and the methods set the flag first as the source does.
- The `console.log` and `console.error` calls in `checkAuth` and `logout`.
- Zustand `persist`/`partialize` and localStorage.
- react-query internals: the detail-key writes (`setQueryData(todoKeys.detail(..))`) and `removeQueries`, since only the list updaters are modelled.
- The frontend UI pages and components, `api.ts`, `api-service.ts` and `query-client.ts`.
