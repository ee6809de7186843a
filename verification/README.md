# Budget tracker server: authentication and user endpoints in Dafny

This project models the account-lifecycle core of the budget tracker server:

- **Registration.** It creates an unverified user and a 15-minute confirmation token. The current controller also creates a default "My wallet" account and that account's membership row.
- **Confirmation.** One-shot confirmation of that token marks the user verified.
- **Login and refresh.** Both hand out session tokens.
- **Resending the confirmation email.** The current controller throttles this to one new token per ten minutes.
- **User endpoints.** These read the current user, delete the current user with all their data, change the password, and reset a forgotten password.
- **User mapper.** It converts between the user entity and its DTO.

There are two versions of the authentication controller, and each is modelled on its own:
- the current one (`application/controllers/AuthController.java`);
- the earlier one (`controllers/AuthController.java`).

**The store.** `Persistence.Store` is a class with one map field per table (users, confirmation tokens, accounts, account-users rows, transactions) and the id sequence. The service calls the controllers make are methods of `Store`. Each one states the new store as a whole via `Snapshot()`. Saves may refer only to rows that exist. Deletes may remove a row only once nothing refers to it, as a database with foreign keys demands. This is why the proof of `UserController.DeleteUser` also shows that the order of its cascade is admissible. `Db.Valid()` is the store invariant:
- every id is below the sequence;
- every reference resolves;
- every account has exactly one membership row.

**Endpoints.** The endpoints take one of three forms:
- Registration, confirmation, resending, deletion and the two password changes are modelled twice. A function `…Outcome` maps the store before the request to the status code and the store after it. A method makes the controller's service calls one by one on a `Store`, and is proved to end in exactly that outcome and to keep `Valid()`.
- Login and refresh change no state. Each is a single function from the authentication answer or principal to a `TokenReply`.
- `UserController.GetUser` is a single method that reads the store and changes nothing.

**Environment.** Time is one integer clock reading `now` per request, in milliseconds. Library code is passed in as uninterpreted functions in `Framework.Collaborators`: the email format check, the password encoder, and the session-token generator. The answer of the authentication manager and the authenticated principal are parameters. The random token string is a parameter `uuid` that is not yet in the token table. The random password of a reset is a parameter `generatedPassword` of length `GeneratedPasswordLength` (10).

**Errors.** Where the code dereferences a user that `getUserByEmail` did not find, the model answers 500 and leaves the store unchanged. In the current authentication controller and in the user controller the failure happens before the first write; the earlier resend endpoint is the exception, described under "## Left out".

**Confirmation at expiry.** A token counts as expired only when `now` is strictly after `expiresAt`, because the code uses `after`, so it is still accepted at `now == expiresAt` (see `AuthController.ConfirmAcceptsAtExpiry`).

**Duplicate email.** In the current controller, registering an address that is already registered answers 409.

## Model

| member | source | states |
|---|---|---|
| Persistence.Db.UserByEmail | server/src/main/java/com/ivantrykosh/app/budgettracker/server/application/controllers/AuthController.java:82 | the user lookup by email finds nothing exactly when no user carries that email; otherwise it finds a user with that email (the lowest id) |
| UserMapper.ConvertToDto | server/src/main/java/com/ivantrykosh/app/budgettracker/server/mappers/UserMapper.java:17-30 | null maps to null and only null; otherwise all six fields are copied unchanged |
| UserMapper.ConvertToEntity | server/src/main/java/com/ivantrykosh/app/budgettracker/server/mappers/UserMapper.java:38-51 | null maps to null and only null; otherwise all six fields are copied unchanged |
| UserMapper.EntityRoundTrip | server/src/main/java/com/ivantrykosh/app/budgettracker/server/mappers/UserMapper.java:17-51 | entity to DTO and back gives the same entity, null included |
| UserMapper.DtoRoundTrip | server/src/main/java/com/ivantrykosh/app/budgettracker/server/mappers/UserMapper.java:17-51 | DTO to entity and back gives the same DTO, null included |
| UserMapper.ConvertToDtoInjective | server/src/main/java/com/ivantrykosh/app/budgettracker/server/mappers/UserMapper.java:17-30 | two users with equal DTOs are equal: the DTO loses no information |
| AuthController.RegisterOutcome | server/src/main/java/com/ivantrykosh/app/budgettracker/server/application/controllers/AuthController.java:76-125 | 400 exactly for a malformed email, 409 exactly for a well-formed email already registered, 201 exactly otherwise; only 201 changes the store, and the store stays consistent |
| AuthController.RegisterUser | server/src/main/java/com/ivantrykosh/app/budgettracker/server/application/controllers/AuthController.java:76-125 | the four saves (user, token, account, membership row), in source order, end in the store and status `RegisterOutcome` gives, keeping the store invariant |
| AuthController.RegisteredValid | server/src/main/java/com/ivantrykosh/app/budgettracker/server/application/controllers/AuthController.java:93-120 | the rows a registration saves keep every reference resolved and every account with exactly one membership row |
| AuthController.RegisterAddsExactly | server/src/main/java/com/ivantrykosh/app/budgettracker/server/application/controllers/AuthController.java:87-124 | on 201 exactly one row is added to each of users, tokens, accounts and account-users, with no other row changed: an unverified user with the encoded password, an unconfirmed token expiring 15 minutes after creation, a "My wallet" account owned by the user (the user's only account) and its membership row; transactions are untouched |
| AuthController.RegisterKeepsEmailsUnique | server/src/main/java/com/ivantrykosh/app/budgettracker/server/application/controllers/AuthController.java:82-85 | if no two users share an email before a registration, none do after it |
| AuthController.LoginUser | server/src/main/java/com/ivantrykosh/app/budgettracker/server/application/controllers/AuthController.java:134-157 | 200 with a session token for the email exactly when authenticated, 403 exactly when the account is disabled (unverified), 401 otherwise, and no token unless 200 |
| AuthController.RefreshToken | server/src/main/java/com/ivantrykosh/app/budgettracker/server/application/controllers/AuthController.java:203-216 | 403 without a token exactly when the principal is not enabled, otherwise 200 with a token for the principal's name |
| AuthController.ConfirmOutcome | server/src/main/java/com/ivantrykosh/app/budgettracker/server/application/controllers/AuthController.java:167-194 | checks in order: 404 exactly for an unknown token, 409 exactly for a confirmed one, 410 exactly for an unconfirmed one past its expiry, 200 exactly otherwise; only 200 changes the store, which stays consistent |
| AuthController.ConfirmToken | server/src/main/java/com/ivantrykosh/app/budgettracker/server/application/controllers/AuthController.java:167-194 | the lookup, the three checks and the two updates, in source order, end in the outcome `ConfirmOutcome` gives |
| AuthController.ConfirmChangesOnlyTokenAndOwner | server/src/main/java/com/ivantrykosh/app/budgettracker/server/application/controllers/AuthController.java:184-189 | a successful confirmation stamps the token with `now`, marks its owner verified, and changes no other token, no other user and no other field |
| AuthController.ConfirmIsOneShot | server/src/main/java/com/ivantrykosh/app/budgettracker/server/application/controllers/AuthController.java:174-176 | after a successful confirmation, confirming the same token again at any time answers 409 and changes nothing |
| AuthController.ConfirmAcceptsAtExpiry | server/src/main/java/com/ivantrykosh/app/budgettracker/server/application/controllers/AuthController.java:179-182 | an unconfirmed token is accepted at exactly its expiry instant and refused with 410 one millisecond later |
| AuthController.RecentTokens | server/src/main/java/com/ivantrykosh/app/budgettracker/server/application/controllers/AuthController.java:240-245 | the throttle filter keeps exactly the tokens created less than ten minutes before `now`, and so keeps none exactly when every token was created ten minutes or more before `now` |
| AuthController.ResendOutcome | server/src/main/java/com/ivantrykosh/app/budgettracker/server/application/controllers/AuthController.java:225-271 | 400 exactly when authenticated (already verified), 401 exactly for bad credentials, 500 exactly for a disabled account with no user; otherwise 202 or 201, and only 201 changes the store |
| AuthController.SendConfirmationEmail | server/src/main/java/com/ivantrykosh/app/budgettracker/server/application/controllers/AuthController.java:225-271 | the lookup, the throttle filter and the save, in source order, end in the outcome `ResendOutcome` gives |
| AuthController.ResendThrottle | server/src/main/java/com/ivantrykosh/app/budgettracker/server/application/controllers/AuthController.java:238-259 | for an unverified user: 202 exactly when one of the user's tokens was created less than ten minutes ago; 201 exactly otherwise, and then one new token, expiring 15 minutes from now, is the only row added |
| AuthController.ResendIssued | server/src/main/java/com/ivantrykosh/app/budgettracker/server/application/controllers/AuthController.java:251-259 | a resend answering 201 adds exactly one token for the user found and leaves the users, and so the lookup, as they were |
| AuthController.ResendTwiceAddsAtMostOne | server/src/main/java/com/ivantrykosh/app/budgettracker/server/application/controllers/AuthController.java:238-259 | two resends at the same instant add at most one token; after a 201, any second resend less than ten minutes later answers 202 and changes nothing |
| AuthController.ResendAgainAfterWindow | server/src/main/java/com/ivantrykosh/app/budgettracker/server/application/controllers/AuthController.java:238-259 | after a resend that issued a token, a resend ten minutes or more later issues another one |
| LegacyAuthController.RegisterOutcome | server/src/main/java/com/ivantrykosh/app/budgettracker/server/controllers/AuthController.java:62-88 | 400 exactly for a malformed email, 200 exactly otherwise, whether or not the address is registered; only 200 changes the store, which stays consistent |
| LegacyAuthController.RegisterUser | server/src/main/java/com/ivantrykosh/app/budgettracker/server/controllers/AuthController.java:62-88 | the two saves (user, token), in source order, end in the outcome `RegisterOutcome` gives |
| LegacyAuthController.RegisterAddsUserAndToken | server/src/main/java/com/ivantrykosh/app/budgettracker/server/controllers/AuthController.java:67-83 | on 200 exactly one unverified user and one unconfirmed 15-minute token for it are added, and no account, membership row or transaction |
| LegacyAuthController.RegisterDuplicatesEmail | server/src/main/java/com/ivantrykosh/app/budgettracker/server/controllers/AuthController.java:62-73 | registering an address that is already registered answers 200 and leaves two users with that email |
| LegacyAuthController.LoginUser | server/src/main/java/com/ivantrykosh/app/budgettracker/server/controllers/AuthController.java:97-114 | 200 with a session token for the email exactly when authenticated, 403 exactly when disabled, 401 otherwise, no token unless 200 |
| LegacyAuthController.RefreshToken | server/src/main/java/com/ivantrykosh/app/budgettracker/server/controllers/AuthController.java:155-164 | 403 without a token exactly when the principal is not enabled, otherwise 200 with a token for the principal's name |
| LegacyAuthController.ConfirmOutcome | server/src/main/java/com/ivantrykosh/app/budgettracker/server/controllers/AuthController.java:124-146 | 404, 409, 410 and 200 under the same conditions and in the same order as the current controller; only 200 changes the store |
| LegacyAuthController.ConfirmToken | server/src/main/java/com/ivantrykosh/app/budgettracker/server/controllers/AuthController.java:124-146 | the lookup, the three checks and the two updates, in source order, end in the outcome `ConfirmOutcome` gives |
| LegacyAuthController.ConfirmThenConflict | server/src/main/java/com/ivantrykosh/app/budgettracker/server/controllers/AuthController.java:130-143 | a successful confirmation stamps the token and verifies its owner, and a second confirmation answers 409 and changes nothing |
| LegacyAuthController.ResendOutcome | server/src/main/java/com/ivantrykosh/app/budgettracker/server/controllers/AuthController.java:172-201 | 400 exactly when authenticated, 401 exactly for bad credentials, 500 exactly for a disabled account with no user, 200 exactly for a disabled account with a user; only 200 changes the store |
| LegacyAuthController.SendConfirmationEmail | server/src/main/java/com/ivantrykosh/app/budgettracker/server/controllers/AuthController.java:172-201 | the lookup and the save, in source order, end in the outcome `ResendOutcome` gives |
| LegacyAuthController.ResendAddsOne | server/src/main/java/com/ivantrykosh/app/budgettracker/server/controllers/AuthController.java:183-196 | every resend for a registered address answers 200 and adds exactly one 15-minute token for the user found, with no throttle |
| LegacyAuthController.ResendTwiceAddsTwo | server/src/main/java/com/ivantrykosh/app/budgettracker/server/controllers/AuthController.java:183-196 | two resends at the same instant both answer 200 and add two tokens |
| Versions.ConfirmUnchanged | server/src/main/java/com/ivantrykosh/app/budgettracker/server/controllers/AuthController.java:124-146 | the earlier and the current confirmation give the same status and store for every input |
| Versions.LoginAndRefreshUnchanged | server/src/main/java/com/ivantrykosh/app/budgettracker/server/controllers/AuthController.java:97-164 | the earlier and the current login and refresh give the same status and the same session token for every input |
| Versions.RegisterDuplicateDiffers | server/src/main/java/com/ivantrykosh/app/budgettracker/server/application/controllers/AuthController.java:82-85 | for a registered address the earlier version answers 200 and breaks email uniqueness; the current one answers 409, changes nothing and keeps it |
| Versions.RegisterNewAddressAgrees | server/src/main/java/com/ivantrykosh/app/budgettracker/server/application/controllers/AuthController.java:111-120 | for a new address both versions store the same users and tokens; only the current one adds an account |
| Versions.ResendThrottleDiffers | server/src/main/java/com/ivantrykosh/app/budgettracker/server/application/controllers/AuthController.java:246-249 | where the current version throttles a resend with 202, the earlier one answers 200 and adds a token |
| UserController.GetUser | server/src/main/java/com/ivantrykosh/app/budgettracker/server/controllers/UserController.java:55-64 | 403 with no body exactly when the principal is not enabled; otherwise 200 with the DTO of the user registered under the principal's name (no body when there is none), which maps back to that user's row |
| UserController.DeletedValid | server/src/main/java/com/ivantrykosh/app/budgettracker/server/controllers/UserController.java:82-96 | the store after the cascade is consistent |
| UserController.DeleteErasesUser | server/src/main/java/com/ivantrykosh/app/budgettracker/server/controllers/UserController.java:82-96 | after the cascade none of these is left: the user (one user fewer), their tokens, their accounts, the transactions and membership rows of those accounts, and their membership in any other account |
| UserController.DeleteKeepsOtherUser | server/src/main/java/com/ivantrykosh/app/budgettracker/server/controllers/UserController.java:82-96 | the cascade keeps every other user's row, and every token of a user other than the deleted one stays in the table under its own token string, unchanged |
| UserController.DeleteKeepsOtherAccounts | server/src/main/java/com/ivantrykosh/app/budgettracker/server/controllers/UserController.java:84-94 | the cascade keeps every other user's accounts, their transactions and their membership rows, taking only the deleted user out of the members |
| UserController.DeleteOutcome | server/src/main/java/com/ivantrykosh/app/budgettracker/server/controllers/UserController.java:74-99 | 403 exactly when the principal is not enabled, 500 exactly when no user has the principal's name, 200 exactly otherwise; only 200 changes the store, which stays consistent |
| UserController.DeleteOwnedAccountData | server/src/main/java/com/ivantrykosh/app/budgettracker/server/controllers/UserController.java:84-90 | the loop over the owned accounts removes exactly their transactions and their membership rows and nothing else |
| UserController.DeleteUser | server/src/main/java/com/ivantrykosh/app/budgettracker/server/controllers/UserController.java:74-99 | the deletes in source order are each admissible (nothing still refers to a deleted row) and end in the outcome `DeleteOutcome` gives |
| UserController.OnlyPasswordHashChanges | server/src/main/java/com/ivantrykosh/app/budgettracker/server/controllers/UserController.java:115-118 | replacing a password hash changes that field of that user and nothing else, and keeps the store consistent |
| UserController.ChangePasswordOutcome | server/src/main/java/com/ivantrykosh/app/budgettracker/server/controllers/UserController.java:108-120 | 403 exactly when the principal is not enabled, 500 exactly when no user has the principal's name, 200 exactly otherwise; only 200 changes the store |
| UserController.ChangePasswordSetsHash | server/src/main/java/com/ivantrykosh/app/budgettracker/server/controllers/UserController.java:113-119 | on 200 the user's hash is the encoding of the new password and no other field, user or table changes |
| UserController.ChangeUserPassword | server/src/main/java/com/ivantrykosh/app/budgettracker/server/controllers/UserController.java:108-120 | the lookup and the update end in the outcome `ChangePasswordOutcome` gives |
| UserController.ResetPasswordOutcome | server/src/main/java/com/ivantrykosh/app/budgettracker/server/controllers/UserController.java:129-151 | 200 exactly for a well-formed, registered, verified email; 400 in every other case; only 200 changes the store |
| UserController.ResetPasswordSetsHash | server/src/main/java/com/ivantrykosh/app/budgettracker/server/controllers/UserController.java:141-146 | on 200 the user's hash is the encoding of the generated password, the user stays verified, and nothing else changes |
| UserController.ResetUserPassword | server/src/main/java/com/ivantrykosh/app/budgettracker/server/controllers/UserController.java:129-151 | for a generated password of the length the generator is asked for (10), the three checks in source order, then the update, end in the outcome `ResetPasswordOutcome` gives |

## Left out

- Email dispatch and the HTML templates (`buildConfirmationEmail`, `buildPasswordEmail`) are I/O and text. The model does not capture that a confirmation or new-password email is sent.
- Logging, response bodies and messages are left out; only status codes and session tokens are modelled.
- `Versions.LoginAndRefreshUnchanged`: compares status and session token only. The earlier controller sends the token as a bare string body; the current one wraps it in a `TokenResponse`. The two 410 answers of confirmation also carry different messages. The model does not tell these bodies apart.
- The three 400 answers of the password reset carry different messages. The model does not tell them apart.
- Transaction rollback (`@Transactional`) and concurrent requests are not modelled. Every request runs alone, from start to finish.
- The internals of the services, repositories, password encoder, token generator, authentication manager, email check and password generator are not part of this model. They appear as uninterpreted functions or as `Store` methods that state only the effect the controllers rely on.
- `Persistence.Db.UserByEmail` returns the lowest id when several users share an email, which only the earlier registration allows. Which row the real repository returns in that case is not specified.
- `UserController.DeleteOwnedAccountData` visits the owned accounts in an arbitrary order; the result does not depend on the order. The source iterates a list of accounts; the model iterates a set of account ids.
- Only the account of a transaction is modelled. Amounts, dates, categories and the other columns are not, since no modelled endpoint reads them.
- `LegacyAuthController.SendConfirmationEmail`: for a disabled account whose user cannot be found, the earlier code saves a confirmation token with no user (controllers/AuthController.java:192) before it fails on the missing user. Whether that save succeeds depends on the database schema, which is not part of this model. The method answers 500 before any save and leaves the store unchanged.
- `LegacyAuthController.ResendOutcome`: the same path as for `LegacyAuthController.SendConfirmationEmail`: the outcome is 500 with the store unchanged, and the token with no user that the earlier code may store is not modelled.
- `Persistence.Store.SaveUser`: no unique constraint on `users.email` is modelled; the save accepts any email. The database schema is not part of this model. The finding below, and the lowest-id choice of `Persistence.Db.UserByEmail`, depend on the table having no such constraint.
- Clock zones: the model's `now` is the UTC wall-clock reading taken for the request. The source turns that reading into an instant with `Timestamp.valueOf`, which reads it as a local time in the JVM's default zone. Across a clock change in that zone, the source's expiry comparison (410) and throttle comparison (202) can therefore answer differently from the model, which compares the readings directly.
- Session tokens are opaque values of the token generator. Their signature and expiry are not modelled.

## Findings

| source | as written | input that shows it | evidently intended | confidence | as-written member | corrected member |
|---|---|---|---|---|---|---|
| server/src/main/java/com/ivantrykosh/app/budgettracker/server/controllers/AuthController.java:62-73 | the earlier registration saves a new user without checking whether the email is already registered | register "a@x.com" twice with a well-formed email: both answer 200 and two users share the address | one user per email; the current controller answers 409 (application/controllers/AuthController.java:82-85) | not executed; medium (holds only if `users.email` has no unique constraint in the schema) | LegacyAuthController.RegisterDuplicatesEmail | AuthController.RegisterKeepsEmailsUnique |
