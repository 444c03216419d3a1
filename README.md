# Task manager authentication and authorization, in Dafny

This project models the authentication and authorization core of a Laravel + React
task-management application, and proves properties of the model.

- **Refresh tokens.** The `refresh_tokens` table is modelled with its migration's
  constraints: a unique `string(500)` token, a foreign key to `users` with cascading
  delete, and `expires_at`. `RefreshToken::generateToken` deletes the user's old tokens
  and inserts a fresh 128-hex-digit token that lives for 14 days.
  `refresh_tokens.dfy` (module `RefreshTokens`).
- **JWT middleware.** The `try`/`catch` ladder of `JWTMiddleware::handle` is a total
  function from the JWT library's outcome to a response. `jwt_middleware.dfy`.
- **Permission middleware.** `PermissionMiddleware::handle` lets a request through when
  the user holds any one of the listed permissions. `permission_middleware.dfy`.
- **Roles and permissions.** Spatie permissions are a role table that maps each role to
  a set of permission names. `RolePermissionSeeder` is modelled as an imperative
  registry with `firstOrCreate` and `syncPermissions`. `permissions.dfy`.
- **Users.** The users table is a class over a sequence of users, with unique ids and
  unique emails. The `UserSeeder` seeds three default accounts. `users.dfy`,
  `user_seeder.dfy`.
- **Controllers.** Each of `UserController` (index/store/update/destroy),
  `AuthController` (register/login/logout/me/refresh) and `DashboardController::index`
  is modelled on the stores above. `user_controller.dfy`, `auth_controller.dfy`,
  `dashboard.dfy`.
- **Validation rules.** Laravel's `required`, `sometimes` and `nullable` are modelled
  in `validation.dfy`.
- **Front end.**
  - The registration page's client-side validation, input handling and
    server-error display: `register_form.dfy`.
  - The `ProtectedRoute` decision: `protected_route.dfy`.
  - The notification centre: `notifications.dfy`.

Collaborators the core calls but does not define are parameters of the model:

- password hashing and checking
- the `email` validation rule
- JWT issuing (`fromUser`) and refreshing
- the refresh-token encoder
- the token lifetimes from configuration
- the random bytes
- the clock

## Model

| member | source | states |
|---|---|---|
| RefreshTokens.HexRoundTrip | app/Models/RefreshToken.php:40 | decoding the hex text of any bytes gives those bytes back, so `bin2hex` loses nothing |
| RefreshTokens.HexEncodeShape | app/Models/RefreshToken.php:40 | `bin2hex` output is twice as long as its input and consists of lower-case hex digits |
| RefreshTokens.HexValue | app/Models/RefreshToken.php:40 | a character has a hex value exactly when it is a lower-case hex digit, and that value names the digit |
| RefreshTokens.IsExpired | app/Models/RefreshToken.php:28-31 | `isExpired` means `expires_at` lies before `now`; `NewRowProperties` states when a fresh token expires |
| RefreshTokens.HexEncode | app/Models/RefreshToken.php:40 | `bin2hex`; `HexEncodeShape` states its shape and `HexRoundTrip` that it loses nothing |
| RefreshTokens.NewRow | app/Models/RefreshToken.php:38-42 | the row `generateToken` creates; its meaning is stated by `NewRowProperties` |
| RefreshTokens.NewRowProperties | app/Models/RefreshToken.php:28-31 | a generated token has 128 hex digits (within the 500-character column) and expires 14 days after `now`; it is not expired at `now` but is expired once its lifetime has passed |
| RefreshTokens.DeleteOfUser | app/Models/RefreshToken.php:36 | after the delete, the rows left are exactly those of other users |
| RefreshTokens.InsertError | database/migrations/2025_05_26_082916_create_refresh_tokens_table.php:16-17 | an insert is accepted exactly when the user exists, the token fits in 500 characters and is not already present |
| RefreshTokens.DeleteKeepsDistinct | database/migrations/2025_05_26_082916_create_refresh_tokens_table.php:15-17 | deleting a user's rows keeps tokens and ids unique |
| RefreshTokens.AppendKeepsDistinct | database/migrations/2025_05_26_082916_create_refresh_tokens_table.php:15-17 | appending a row with a new token and a new id keeps tokens and ids unique |
| RefreshTokens.DeletePreservesConstraints | database/migrations/2025_05_26_082916_create_refresh_tokens_table.php:14-22 | deleting a user's tokens preserves all of the table's constraints |
| RefreshTokens.InsertPreservesConstraints | database/migrations/2025_05_26_082916_create_refresh_tokens_table.php:14-22 | an insert the database accepts, with the next id, preserves all of the table's constraints |
| RefreshTokens.GenerateLeavesOnlyNewRow | app/Models/RefreshToken.php:33-43 | after `generateToken`, the new row is the user's only token |
| RefreshTokens.GenerateKeepsOtherUsers | app/Models/RefreshToken.php:33-43 | `generateToken` leaves every other user's tokens as they were |
| RefreshTokens.GenerateTwiceKeepsSecond | app/Models/RefreshToken.php:33-43 | generating twice leaves only the second token |
| RefreshTokens.RowsOfAppend | app/Models/RefreshToken.php:36-42 | a user's rows in joined tables are that user's rows in the first table followed by those in the second |
| RefreshTokens.RowsOfMembers | app/Models/RefreshToken.php:36 | a user's rows are exactly the table rows carrying that user's id |
| RefreshTokens.NoRowsOfAfterDelete | app/Models/RefreshToken.php:36 | after the delete, the user has no rows |
| RefreshTokens.RowsOfDeleteOther | app/Models/RefreshToken.php:36 | deleting one user's rows leaves another user's rows unchanged, in order |
| RefreshTokens.RefreshTokenTable.constructor | database/migrations/2025_05_26_082916_create_refresh_tokens_table.php:14-22 | the table starts out not yet created and empty, over the given users |
| RefreshTokens.RefreshTokenTable.Up | database/migrations/2025_05_26_082916_create_refresh_tokens_table.php:14-22 | `up` creates the table; creating it a second time fails, and no rows change |
| RefreshTokens.RefreshTokenTable.Down | database/migrations/2025_05_26_082916_create_refresh_tokens_table.php:28-31 | `dropIfExists` leaves no table and no rows, whether or not the table existed |
| RefreshTokens.RefreshTokenTable.UserCreated | database/migrations/2025_05_26_082916_create_refresh_tokens_table.php:16 | a new user becomes a valid foreign-key target, and no row changes |
| RefreshTokens.RefreshTokenTable.UserDeleted | database/migrations/2025_05_26_082916_create_refresh_tokens_table.php:16 | `cascadeOnDelete`: deleting a user deletes exactly that user's tokens |
| RefreshTokens.RefreshTokenTable.GenerateToken | app/Models/RefreshToken.php:33-43 | `generateToken`, on a missing table or after the delete, fails with the database's error or inserts the fresh row, which becomes the user's only unexpired token; other users' tokens are kept |
| JwtMiddleware.Handle | app/Http/Middleware/JWTMiddleware.php:14-46 | the request reaches `$next` exactly when a user is authenticated. A missing user gives 404. An expired or invalid token gives its own 401 message. Any other `JWTException` is "Token absent". Exceptions outside the family propagate |
| JwtMiddleware.CatchOrderMatters | app/Http/Middleware/JWTMiddleware.php:26-42 | with the generic `catch` first, an expired token would be reported as absent, so the clause order is what keeps the messages apart |
| PermissionMiddleware.Handle | app/Http/Middleware/PermissionMiddleware.php:10-31 | no user gives 401. Otherwise the request passes exactly when the user holds one of the listed permissions, and 403 "Insufficient permissions" otherwise |
| PermissionMiddleware.AnyHeldIsAboutTheSet | app/Http/Middleware/PermissionMiddleware.php:21-25 | the verdict depends only on which permissions are listed, not on their order or repetition |
| PermissionMiddleware.GateMonotone | app/Http/Middleware/PermissionMiddleware.php:21-25 | listing more permissions never turns a pass into a denial |
| PermissionMiddleware.GateIsUnionMembership | app/Http/Middleware/PermissionMiddleware.php:19-30 | a pass means some listed permission is in the union of the user's roles' permissions; an empty list always gives 403 |
| PermissionMiddleware.TeamMemberCannotManageUsers | database/seeders/RolePermissionSeeder.php:61-65 | with the seeded roles, a team member is refused `manage users` and an admin is let through |
| Permissions.Can | app/Http/Middleware/PermissionMiddleware.php:22 | Spatie's `can`; `CanIsMembershipInUnion` states that it is membership in the union of the user's roles' sets |
| Permissions.CanIsMembershipInUnion | database/seeders/RolePermissionSeeder.php:41-65 | `can` holds exactly for the permissions in the union of the user's roles' sets |
| Permissions.EightPermissions | database/seeders/RolePermissionSeeder.php:20-29 | the seeder names eight distinct permissions |
| Permissions.DistinctNames | database/seeders/RolePermissionSeeder.php:20-29 | the eight permission names are pairwise different |
| Permissions.SeededRoleSets | database/seeders/RolePermissionSeeder.php:36-65 | the exact permission set of each of the three roles, including what admin and project manager do not get |
| Permissions.SeededRoleRelations | database/seeders/RolePermissionSeeder.php:41-65 | every role's permissions are seeded permissions; a team member's are a subset of a project manager's but not of an admin's |
| Permissions.OnlyAdminManagesUsers | database/seeders/RolePermissionSeeder.php:41-48 | with the seeded roles, `manage users` is held exactly by users who have the admin role |
| Permissions.Registry.FirstOrCreatePermission | database/seeders/RolePermissionSeeder.php:31-33 | `firstOrCreate` adds a permission only if it is missing |
| Permissions.Registry.FirstOrCreateRole | database/seeders/RolePermissionSeeder.php:36-38 | `firstOrCreate` adds an empty role only if it is missing and keeps an existing role's permissions |
| Permissions.Registry.SyncPermissions | database/seeders/RolePermissionSeeder.php:41-65 | `syncPermissions` replaces the role's set exactly when every named permission exists, and otherwise changes nothing |
| Permissions.Registry.CreatePermissions | database/seeders/RolePermissionSeeder.php:31-33 | after the loop all eight permissions exist, each added once |
| Permissions.Registry.CreateRoles | database/seeders/RolePermissionSeeder.php:36-38 | after these calls the three roles exist, and existing roles keep their permissions |
| Permissions.Registry.SyncSeededRoles | database/seeders/RolePermissionSeeder.php:41-65 | each of the three roles gets exactly its listed permissions |
| Permissions.Registry.Run | database/seeders/RolePermissionSeeder.php:15-66 | `run` gives the seeded permissions and the seeded role table, whatever was there before |
| Permissions.RoleListsWithinSeeded | database/seeders/RolePermissionSeeder.php:41-65 | every permission a role is synced with is among the created ones, so no `syncPermissions` call fails |
| Permissions.AddIfMissing | database/seeders/RolePermissionSeeder.php:32 | after `firstOrCreate` the name is present, nothing else is added, and names stay unique |
| Permissions.AddAllMissingContains | database/seeders/RolePermissionSeeder.php:31-33 | after the loop the names present are the old ones plus the listed ones; the old rows come first; uniqueness is kept |
| Permissions.SeedRoles | database/seeders/RolePermissionSeeder.php:36-65 | seeding roles adds the three roles with their seeded sets and leaves every other role as it was |
| Permissions.SeederIdempotent | database/seeders/RolePermissionSeeder.php:15-66 | running the seeder twice gives the same permissions and roles as running it once |
| Permissions.AddAllMissingNoop | database/seeders/RolePermissionSeeder.php:31-33 | when every name already exists, the loop creates nothing |
| Permissions.AddAllMissingFresh | database/seeders/RolePermissionSeeder.php:31-33 | when no name exists yet, the loop appends them all in order |
| Permissions.SeedFromEmpty | database/seeders/RolePermissionSeeder.php:15-66 | on an empty database the seeder produces exactly the listed permissions and the three seeded roles |
| Users.Public | app/Models/User.php:41-44 | the serialised user carries id, name, email and roles, and no password |
| Users.PublicHidesPassword | app/Models/User.php:41-44 | changing the password does not change the serialised user |
| Users.IndexOfEmail | app/Http/Controllers/API/AuthController.php:95-100 | finds the first user with the given email, or reports that there is none |
| Users.IndexOfId | app/Http/Controllers/UserController.php:47 | finds the user with the given id (route-model binding) or reports that there is none |
| Users.InsertKeepsInvariant | app/Http/Controllers/UserController.php:34-39 | creating a user with an email that is not taken keeps ids and emails unique |
| Users.ReplaceKeepsInvariant | app/Http/Controllers/UserController.php:68 | saving a user whose email no other user has keeps ids and emails unique |
| Users.RemoveKeepsInvariant | app/Http/Controllers/UserController.php:80 | deleting a user keeps the invariant, and the id is then gone |
| Users.Removed | app/Http/Controllers/UserController.php:80 | deleting removes one user and adds none |
| Users.UserStore.Create | app/Http/Controllers/UserController.php:34-39 | `User::create` appends a user with the next id and no roles |
| Users.UserStore.Save | app/Http/Controllers/UserController.php:68 | `save` replaces that one user |
| Users.UserStore.AssignRole | app/Http/Controllers/UserController.php:41 | `assignRole` adds the role when it exists and otherwise changes nothing |
| Users.UserStore.SyncRoles | app/Http/Controllers/UserController.php:70-72 | `syncRoles` replaces the user's roles with the one role |
| Users.UserStore.Delete | app/Http/Controllers/UserController.php:78-82 | `delete` removes that user, and its id no longer resolves |
| UserSeeder.SeedOne | database/seeders/UserSeeder.php:17-25 | one `firstOrCreate` plus `assignRole`; its meaning is stated by `SeedOneEffect`, `SeedOneNoop` and `SeedOneKeepsAccount` |
| UserSeeder.Seed | database/seeders/UserSeeder.php:15-48 | the three accounts in order; `SeedEstablishesAccounts` and `SeedIdempotent` state what it does |
| UserSeeder.SeedOneEffect | database/seeders/UserSeeder.php:17-25 | `firstOrCreate` plus `assignRole` keeps the store valid. Afterwards the account's email resolves to a user holding its role. Nothing is added when the email exists; otherwise one user is appended with the account's name and hashed password |
| UserSeeder.SeedOneNoop | database/seeders/UserSeeder.php:17-25 | seeding an account that is already present with its role changes nothing |
| UserSeeder.SeedOneKeepsAccount | database/seeders/UserSeeder.php:15-48 | seeding one account does not undo another that is already in place |
| UserSeeder.SeedEstablishesAccounts | database/seeders/UserSeeder.php:15-48 | after the seeder the admin, project manager and team member accounts exist with their roles |
| UserSeeder.SeedIdempotent | database/seeders/UserSeeder.php:15-48 | running the seeder twice gives the same users as running it once |
| UserSeeder.SeedKeepsExistingUsers | database/seeders/UserSeeder.php:15-48 | every user who existed before keeps the same id, name, email and password, and gains roles only |
| UserSeeder.RunOne | database/seeders/UserSeeder.php:17-25 | the imperative seeding of one account does what `SeedOne` describes |
| UserSeeder.Run | database/seeders/UserSeeder.php:15-48 | the seeder's `run` does what `Seed` describes |
| Validation.Passes | app/Http/Controllers/UserController.php:49-54 | `sometimes` skips an absent field. `required` demands a non-blank value that passes the remaining rules. A blank field that is not required passes |
| Validation.ErrorIf | app/Http/Controllers/UserController.php:27-32 | a field is reported exactly when its rules fail |
| UserController.StoreErrors | app/Http/Controllers/UserController.php:27-32 | `store` validation passes exactly when: the name is filled and at most 255 long; the email is filled, valid and not taken by any user; the password is filled and at least 6 long; the role is filled and names an existing role. There is no rule for the profile photo |
| UserController.UpdateErrors | app/Http/Controllers/UserController.php:49-54 | `update` validation passes exactly when every present field obeys its rule, and the email is unique except for the user's own row |
| UserController.Updated | app/Http/Controllers/UserController.php:56-67 | each field changes exactly when it was sent. The password changes, hashed, only when it is filled. The role replaces the user's roles |
| UserController.EmptyUpdateChangesNothing | app/Http/Controllers/UserController.php:56-67 | an update that sends nothing (or a blank password) leaves the user as it was |
| UserController.OwnEmailIsNotTaken | app/Http/Controllers/UserController.php:51 | a user's own email never fails the `unique:users,email,{id}` rule |
| UserController.Gate | app/Http/Controllers/UserController.php:11-15 | the constructor's `permission:manage users` middleware: 401 without a user, otherwise a pass exactly when the user can manage users, and 403 otherwise |
| UserController.Index | app/Http/Controllers/UserController.php:18-22 | an authorised caller gets 200 and every user in serialised form; anyone else gets 401 or 403 and nothing |
| UserController.Store | app/Http/Controllers/UserController.php:25-44 | unauthorised or invalid requests change nothing (401/403/422). Otherwise a user is created with the hashed password and the role, and the response is 201 with the serialised user |
| UserController.Update | app/Http/Controllers/UserController.php:47-75 | an unknown id gives 404 whoever asks, since route binding runs before the permission middleware. A caller without `manage users` then gets 401/403. An invalid request gets 422. None of these change anything. Otherwise the user becomes `Updated(...)`, other users are untouched, and the response is 200 |
| UserController.Destroy | app/Http/Controllers/UserController.php:78-82 | an unknown id gives 404 whoever asks. A caller without `manage users` then gets 401/403. Neither changes anything. An authorised caller deletes exactly that user and gets 200 "User deleted" |
| AuthController.Guard | app/Http/Controllers/API/AuthController.php:16-19 | `auth:api` except login and register: every other action without a user is refused with 401 and no token |
| AuthController.GuardedActions | app/Http/Controllers/API/AuthController.php:16-19 | login and register are always reachable; logout, me and refresh are not without a user |
| AuthController.TokenBlock | app/Http/Controllers/API/AuthController.php:57-62 | the authorization block is a bearer token with `expires_in` equal to the TTL in seconds |
| AuthController.ExpiresInIsTtlSeconds | app/Http/Controllers/API/AuthController.php:105-116 | login and refresh both report `expires_in` as TTL minutes times 60 |
| AuthController.RegisterErrors | app/Http/Controllers/API/AuthController.php:26-38 | register validation passes exactly when the name, email, password and confirmation meet the rules: the email is unique, the password is at least 8 long and confirmed |
| AuthController.LoginErrors | app/Http/Controllers/API/AuthController.php:79-90 | login validation passes exactly when the email is filled and valid and the password is filled |
| AuthController.Attempt | app/Http/Controllers/API/AuthController.php:95-100 | the credentials hold exactly when the first stored user with the email exists and the password checks against that user's hash |
| AuthController.DoLogin | app/Http/Controllers/API/AuthController.php:77-126 | 422 exactly on a validation error; 401 "Invalid credentials" exactly when the credentials fail; 500 "Could not create token" exactly when the credentials hold but no token can be issued; 200 with the token pair and the user otherwise, and only 200 carries tokens |
| AuthController.FailedLoginIssuesNothing | app/Http/Controllers/API/AuthController.php:95-124 | a failed login never returns a token or a user |
| AuthController.LoginFindsStoredUser | app/Http/Controllers/API/AuthController.php:95-115 | a user who registered with a password logs in with it and gets a token for themselves |
| AuthController.DoLogout | app/Http/Controllers/API/AuthController.php:131-148 | logout succeeds exactly when the token was invalidated, fails with 500 otherwise, and never issues a token |
| AuthController.DoMe | app/Http/Controllers/API/AuthController.php:153-177 | `me` answers 200 with the caller's serialised user, or the guard's 401 without one |
| AuthController.MeNeverNotFound | app/Http/Controllers/API/AuthController.php:153-177 | the 404 branch of `me` is unreachable behind the `auth:api` guard |
| AuthController.DoRefresh | app/Http/Controllers/API/AuthController.php:182-224 | without a user, the guard's 401 "Unauthenticated.". With one: 422 exactly when `refresh_token` is not filled; 401 "Token cannot be refreshed" when the JWT refresh fails; otherwise 200, and 200 happens exactly then. The 200 carries the refreshed token and a new refresh token for the guard's user |
| AuthController.RefreshIgnoresSubmittedToken | app/Http/Controllers/API/AuthController.php:196-204 | the submitted refresh token's value does not affect the result, only its presence |
| AuthController.RefreshPayloadClaims | app/Http/Controllers/API/AuthController.php:229-238 | with an encoder that tells payloads apart, two refresh tokens are equal exactly when they carry the same user id and random value and were made at the same time; so tokens for different users never coincide |
| AuthController.CreateRefreshToken | app/Http/Controllers/API/AuthController.php:229-238 | `createRefreshToken` encodes the user id, the random value and an expiry `refresh_ttl` minutes ahead; what that determines is stated by `RefreshPayloadClaims` |
| AuthController.DoRegister | app/Http/Controllers/API/AuthController.php:24-72 | a validation error gives 422 and no change. Otherwise the user is created with the hashed password. A missing `Team Member` role gives 500, with the user row kept. A failure to issue a token gives 500. Success gives 201 with the user holding `Team Member` and a token pair |
| Dashboard.CountActive | app/Http/Controllers/API/DashboardController.php:16 | `where('status', '!=', 'completed')->count()`, which skips a NULL status; `CountsPartition` and `CountsOfOneMore` state its meaning |
| Dashboard.CountCompleted | app/Http/Controllers/API/DashboardController.php:17 | `where('status', 'completed')->count()`; `CountsPartition` and `CountsOfOneMore` state its meaning |
| Dashboard.Latest | app/Http/Controllers/API/DashboardController.php:23 | `latest()`; `LatestPermutes` and `LatestSorted` state that it is the tasks newest first |
| Dashboard.RecentTasks | app/Http/Controllers/API/DashboardController.php:23 | `latest()->limit(5)`; `RecentTasksShape` and `OmittedAreNotNewer` state that it is the five newest tasks |
| Dashboard.RecentActivities | app/Http/Controllers/API/DashboardController.php:23 | `latest()->limit(5)->pluck('title')`; `Titles` and `RecentActivitiesCount` state its meaning |
| Dashboard.CountsPartition | app/Http/Controllers/API/DashboardController.php:16-17 | active, completed and status-less tasks partition all tasks |
| Dashboard.CountsCoverAllWithoutNulls | app/Http/Controllers/API/DashboardController.php:16-17 | the active and completed counts add up to the number of tasks exactly when no task lacks a status |
| Dashboard.NoNulls | app/Http/Controllers/API/DashboardController.php:16-17 | no status-less tasks are counted exactly when every task has a status |
| Dashboard.CountsOfOneMore | app/Http/Controllers/API/DashboardController.php:16-17 | adding a task raises exactly the counter its status belongs to |
| Dashboard.InsertPermutes | app/Http/Controllers/API/DashboardController.php:23 | insertion into the ordered list keeps every task, once |
| Dashboard.InsertSorted | app/Http/Controllers/API/DashboardController.php:23 | insertion keeps the list newest first |
| Dashboard.LatestPermutes | app/Http/Controllers/API/DashboardController.php:23 | `latest()` reorders the tasks without adding or losing any |
| Dashboard.LatestSorted | app/Http/Controllers/API/DashboardController.php:23 | `latest()` orders by `created_at`, newest first |
| Dashboard.Titles | app/Http/Controllers/API/DashboardController.php:23 | `pluck('title')` gives each task's title, in order |
| Dashboard.RecentTasksShape | app/Http/Controllers/API/DashboardController.php:23 | `take(5)` gives min(n, 5) tasks, newest first, all drawn from the tasks |
| Dashboard.OmittedAreNotNewer | app/Http/Controllers/API/DashboardController.php:23 | no task left out of the recent list is newer than one shown |
| Dashboard.RecentActivitiesCount | app/Http/Controllers/API/DashboardController.php:23 | at most five activities are shown, and exactly five when there are at least five tasks |
| Dashboard.Index | app/Http/Controllers/API/DashboardController.php:12-26 | the dashboard reports the number of projects, exactly the active and completed counts (together at most all tasks), the titles of the recent tasks (at most five) and an empty team performance, so the counting and ordering lemmas apply to what it returns |
| RegisterForm.Key | resources/js/Pages/Auth/Register.tsx:78 | each field is named by one of the four form keys |
| RegisterForm.KeysDistinct | resources/js/Pages/Auth/Register.tsx:78 | different fields have different keys |
| RegisterForm.Set | resources/js/Pages/Auth/Register.tsx:79 | `{...prev, [field]: value}` sets that field and keeps the others |
| RegisterForm.TrimStart | resources/js/Pages/Auth/Register.tsx:48-52 | the left trim drops exactly the leading white space |
| RegisterForm.TrimEnd | resources/js/Pages/Auth/Register.tsx:48-52 | the right trim drops exactly the trailing white space |
| RegisterForm.TrimEmptyIffAllSpace | resources/js/Pages/Auth/Register.tsx:48 | `!name.trim()` holds exactly when the name is all white space |
| RegisterForm.FieldError | resources/js/Pages/Auth/Register.tsx:48-72 | the `if`/`else if` ladder for one field; `FieldErrorMeaning` states each message's condition |
| RegisterForm.LooksLikeEmail | resources/js/Pages/Auth/Register.tsx:56 | the regular expression `\S+@\S+\.\S+`; it is used by `FieldErrorMeaning` |
| RegisterForm.MixedCharacters | resources/js/Pages/Auth/Register.tsx:64 | the three look-aheads; `MixedIsNotBlank` and `FieldErrorMeaning` use it |
| RegisterForm.FormErrors | resources/js/Pages/Auth/Register.tsx:45-76 | `newErrors`; `FormErrorsAreFieldErrors` and `AcceptedIffNoErrors` state its meaning |
| RegisterForm.FirstMessages | resources/js/Pages/Auth/Register.tsx:124-129 | the `forEach` over the server's errors; `FirstMessagesShowsFirst` states its meaning |
| RegisterForm.AfterInput | resources/js/Pages/Auth/Register.tsx:78-92 | the errors after `handleInputChange`; `InputClearsOwnError` states its meaning |
| RegisterForm.FieldErrorMeaning | resources/js/Pages/Auth/Register.tsx:45-73 | each field's error and message: name required or too short after trimming; email required or malformed; password required, too short or lacking a lower-case letter, an upper-case letter and a digit; confirmation required or different |
| RegisterForm.Put | resources/js/Pages/Auth/Register.tsx:46-72 | setting one error key keeps the other keys |
| RegisterForm.FormErrorsAreFieldErrors | resources/js/Pages/Auth/Register.tsx:45-76 | the error map has an entry exactly for the fields with an error, holding that error, and no other key |
| RegisterForm.AcceptedIffNoErrors | resources/js/Pages/Auth/Register.tsx:74-75 | `validateForm` returns true exactly when every field is acceptable |
| RegisterForm.MixedIsNotBlank | resources/js/Pages/Auth/Register.tsx:64 | a password with a lower-case letter, an upper-case letter and a digit is never blank to the server's `required` rule |
| RegisterForm.AcceptedFormMeetsServerPasswordRule | resources/js/Pages/Auth/Register.tsx:60-72 | a form the page accepts has a filled password of at least 8 characters, equal to its confirmation, as the server's register rules demand, with `.length` counted in code points |
| RegisterForm.FirstMessagesShowsFirst | resources/js/Pages/Auth/Register.tsx:124-129 | each server field with messages shows exactly its first message, and no other field shows anything |
| RegisterForm.InputClearsOwnError | resources/js/Pages/Auth/Register.tsx:78-92 | typing blanks only that field's error. On the confirmation field it shows the mismatch when a password is set and differs, and clears it when they match |
| RegisterForm.RegisterPage.constructor | resources/js/Pages/Auth/Register.tsx:24-31 | the page starts with an empty form and no errors |
| RegisterForm.RegisterPage.ValidateForm | resources/js/Pages/Auth/Register.tsx:45-76 | `validateForm` sets the error map of the current form and returns whether the form is acceptable |
| RegisterForm.RegisterPage.HandleInputChange | resources/js/Pages/Auth/Register.tsx:78-92 | `handleInputChange` stores the value and updates the errors as `AfterInput` says |
| RegisterForm.RegisterPage.ShowServerErrors | resources/js/Pages/Auth/Register.tsx:124-129 | the `forEach` builds the first-message map |
| RegisterForm.RegisterPage.HandleResponse | resources/js/Pages/Auth/Register.tsx:116-134 | success clears the errors. A 422 with errors shows the server's first messages. Anything else shows one general message, the server's or the fallback |
| ProtectedRoute.Decide | resources/js/Components/ProtectedRoute.tsx:13-36 | loading shows the spinner. Unauthenticated redirects to `redirectTo` (default `/login`). A role mismatch redirects to `/unauthorized`. Otherwise the route renders |
| ProtectedRoute.RenderOnlyWhenAllowed | resources/js/Components/ProtectedRoute.tsx:21-35 | the route renders exactly when loading is over, a token and a user are present, and any required role is the user's |
| ProtectedRoute.UnauthenticatedGoesToLogin | resources/js/Components/ProtectedRoute.tsx:16 | without `redirectTo`, an unauthenticated visit goes to `/login` |
| ProtectedRoute.TokenAndUserBothNeeded | resources/js/Components/ProtectedRoute.tsx:25-28 | a missing or empty token, or a missing user, always redirects |
| Notifications.WithId | resources/js/context/NotificationContext.tsx:28-29 | a new notification is the draft with the id added |
| Notifications.AutoRemoveDelay | resources/js/context/NotificationContext.tsx:34 | `duration \|\| 5000`: a non-zero duration is used, and a missing or zero one gives 5000 ms |
| Notifications.Without | resources/js/context/NotificationContext.tsx:40-42 | the `filter`; `WithoutMembers`, `WithoutKeepsOrder` and `RemoveUndoesAdd` state its meaning |
| Notifications.WithoutMembers | resources/js/context/NotificationContext.tsx:40-42 | `filter` keeps exactly the notifications with other ids |
| Notifications.WithoutKeepsOrder | resources/js/context/NotificationContext.tsx:40-42 | `filter` keeps the remaining notifications in order |
| Notifications.WithoutAbsentIsIdentity | resources/js/context/NotificationContext.tsx:40-42 | removing an id that is not present changes nothing |
| Notifications.WithoutIdempotent | resources/js/context/NotificationContext.tsx:40-42 | removing twice is the same as removing once |
| Notifications.RemoveUndoesAdd | resources/js/context/NotificationContext.tsx:27-42 | the timer's removal of a freshly added notification with a new id restores the list |
| Notifications.ToastStyle | resources/js/context/NotificationContext.tsx:99-112 | `getToastStyles`; `StylesTellKindsApart` states that it tells the kinds apart |
| Notifications.Icon | resources/js/context/NotificationContext.tsx:114-127 | `getIcon`; `StylesTellKindsApart` states that it tells the kinds apart |
| Notifications.StylesTellKindsApart | resources/js/context/NotificationContext.tsx:99-127 | the four kinds have pairwise different styles and icons; an unknown kind gets the grey style and no icon |
| Notifications.NotificationCenter.constructor | resources/js/context/NotificationContext.tsx:25 | the centre starts with no notifications |
| Notifications.NotificationCenter.Add | resources/js/context/NotificationContext.tsx:27-38 | `addNotification` appends the notification and schedules removal after `AutoRemoveDelay` |
| Notifications.NotificationCenter.Remove | resources/js/context/NotificationContext.tsx:40-42 | `removeNotification` removes every notification with that id |
| Notifications.NotificationCenter.Notify | resources/js/context/NotificationContext.tsx:44-58 | `success`, `error`, `warning` and `info` append a notification of their kind with no duration, removed after 5000 ms |

## Left out

- JWT, bcrypt and randomness:
  - JWT signing and parsing, bcrypt and `random_bytes` are not modelled. The JWT
    library's outcome, the hash and check functions and the random bytes are inputs.
  - `JWTAuth::refresh` is a function from the bearer token to an optional new token.
  - The refresh-token encoder is an uninterpreted function.
- Validation:
  - Laravel's `email` rule is an abstract predicate.
  - Laravel's `string` rule holds for every text input in the model.
  - Lengths are counted in Dafny characters, which are code points, as `mb_strlen` counts UTF-8 input.
- String middleware: the global `TrimStrings` and `ConvertEmptyStringsToNull`
  middleware are not modelled. The rules' own treatment of blank input stands in for
  them.
- Error bodies:
  - Validation errors are the set of failing field names. The message texts and the
    JSON error bodies produced by the framework are not modelled.
  - The route-model-binding 404 body is a fixed message.
- Concurrency: there is no transaction around the delete and insert in
  `generateToken`, and concurrent requests are not modelled; each call is atomic.
- Cascading delete: `cascadeOnDelete` is modelled on the token table only (`UserDeleted`).
  `UserController.Destroy` does not call it, because the two tables are separate models.
- Route middleware: the routes of `UserController` are not part of this model. `Update` and `Destroy` resolve the bound user
  before the `permission` middleware, as Laravel's route binding does. An authentication middleware on those routes would
  run before the binding, and it is not modelled.
- Casts: the `hashed` cast in `app/Models/User.php:53` is folded into the hash
  parameter.
- `AuthController.DoMe`: the `try`/`catch` returning 500 is not modelled, because nothing
  in its body can throw once the guard has a user.
- `UserController.Index`: `with('roles')` eager loading is modelled as listing each
  user's serialised form, role names included.
- `AuthController.DoRegister`: `authId`, the id `auth()->id()` sees, is a parameter. On
  an unauthenticated register request it is None, so the refresh token carries no user
  id.
- `UserSeeder.Run`: requires the three roles to exist. Without them `assignRole` throws,
  and the seeder's run order (`RolePermissionSeeder` first) is not modelled.
- `Dashboard.LatestSorted`: ties in `created_at` are kept in table order. The database
  leaves their order unspecified.
- Front-end runtime:
  - React rendering, the network call of `submit` (including its "Network error" path and
    `router.visit`) and `useEffect` are not modelled.
  - The `setTimeout` timer and `Math.random` ids are not modelled. Ids are parameters,
    and `Add` returns the delay the timer would use.
- `Notifications.NotificationCenter.Notify`: covers the four typed helpers with one
  method over the known kinds.
- `RegisterForm.FirstMessagesShowsFirst`: a field whose server list is empty is left out
  of the map. The page stores `undefined` for it, which displays no error, the same
  thing a missing key displays.
- `RegisterForm.TrimStart`: string positions are code points, not UTF-16 code units;
  `.length` is modelled as the Dafny string length.
- `RegisterForm.AcceptedFormMeetsServerPasswordRule`: holds only with `.length` counted in
  code points. The page counts UTF-16 code units, and the server's `min:8` counts code points.
  So a password with characters above U+FFFF can pass the page and still be refused with 422.
  For example, four emoji followed by `aA1` has length 11 on the page and 7 code points.
- Starting databases: the empty `Users.UserStore` and `Permissions.Registry` that the
  constructors create are the model's starting database and have no source counterpart.
- AuthContext: `resources/js/context/AuthContext.tsx` is not part of this model. The
  route's `AuthState` stands for what it provides.
