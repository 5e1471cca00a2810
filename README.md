# User service credential and access-control store, with the gateway's forwarding and bearer checks

This project is a Dafny model of the API gateway's user service: its credential and access-control store.

The store has five tables:
- users: username and email unique, role_id NOT NULL;
- roles: name unique;
- tokens: each row belongs to a user;
- services: name unique;
- user_services: the grants of a service to a user.

On top of the store the model covers:
- the three repositories (`UserRepository`, `RoleRepository`, `ServiceRepository`);
- the handlers of the user, role and service routers;
- the token helpers `create_token_db` and `verify_token`;
- the JWT payload built by `create_jwt_token`.

From the gateway it covers:
- the `route_service` wrapper: how it builds the upstream request and maps the upstream outcome to a reply;
- the `JWTBearer` dependency's decision chain.

## Layout

- `wrappers.dfy` (`Wrappers`): `Option` and `Result`.
- `seqs.dfy` (`Seqs`):
  - `Find`, the first element satisfying a predicate; this is `query(...).filter(...).first()`;
  - `Filter`, which keeps the elements satisfying a predicate; this is a bulk `delete()`.
- `schema.dfy` (`Schema`):
  - the rows;
  - the table constraints, as well-formedness predicates;
  - `Fault`: an HTTP error, an integrity error at commit, or the `None.id` attribute error;
  - `Outcome`: a handler's reply, which is a value, an `HTTPException(status, detail)`, or an uncaught exception (`Crashed`, which the framework answers with a bare 500).
- `store.dfy` (`Store.Session`): a class holding the five tables as sequences in insertion order, plus one id counter per table.
  - Its methods are `add`/`delete` followed by `commit`.
  - They apply the database's UNIQUE and NOT NULL checks and raise `IntegrityError` when a check fails.
  - `Valid()` holds the schema constraints, plus the absence of duplicate grant pairs (which the service repository maintains).
- `user_repository.dfy`, `role_repository.dfy`, `service_repository.dfy`: the repositories, as classes over a shared `Session`.
- `token_table.dfy`: `create_token_db` and `verify_token`.
- `bcrypt.dfy`: bcrypt as a pair of functions, `hash(password, salt)` and `check(password, hash)`. `Sound` states that a password checks against its own hash.
- `jwt.dfy`: the payload claims `sub`, `exp` and `rand`.
  - Signing is a function parameter.
  - `sub` is the decimal string of the user id, with a parser and its round trip.
  - `rand` is the lowercase hex of 16 entropy bytes.
- `user_router.dfy`, `role_router.dfy`, `service_router.dfy`: the handlers, as methods over the session that return an `Outcome`.
- `route_service.dfy`, `auth_bearer.dfy`: the gateway's forwarding rule and bearer check, as pure functions.

Things outside the model enter as parameters:
- the bcrypt salt;
- the current time, in integer seconds;
- the 16 random bytes;
- the JWT signing function;
- the upstream call, as a function from the request to its outcome;
- the token verifier, as a function from the token to its JSON reply.

## Model

| member | source | states |
|---|---|---|
| Seqs.Find | user_service/src/core/repository/user_repository.py:34 | `first()`: a returned row is in the table and matches; None exactly when no row matches; the row returned is the first match in table order |
| Seqs.Filter | user_service/src/core/repository/user_repository.py:92 | a bulk delete keeps exactly the rows that do not match, and no others |
| Seqs.FilterKeepsAll | user_service/src/core/repository/role_repository.py:18-23 | a delete that matches no row leaves the table equal to what it was |
| Store.WithRoleWellFormed | user_service/src/core/repository/role_repository.py:31-36 | setting one user's role_id keeps the users table's id, username and email uniqueness |
| Store.Session.AddUser | user_service/src/core/database/models/UserModel.py:18-22 | inserting a user fails with an integrity error, and changes nothing, exactly when role_id is NULL or the username or the email is taken; otherwise one row with the next id is appended |
| Store.Session.UpdateUserRole | user_service/src/core/repository/role_repository.py:33 | only the role_id of the user with that id changes; the schema constraints still hold |
| Store.Session.AddToken | user_service/src/core/database/models/TokenModel.py:19-21 | a token row with the next id is appended; nothing is removed |
| Store.Session.DeleteTokensOf | user_service/src/core/repository/user_repository.py:92-93 | the token table afterwards is the old one without that user's rows |
| Store.Session.AddRole | user_service/src/core/database/models/RoleModel.py:15-16 | inserting a role fails, and changes nothing, exactly when the name is taken; otherwise it is appended with the next id |
| Store.Session.DeleteRoleRow | user_service/src/core/repository/role_repository.py:20-21 | removes exactly the role with that id |
| Store.Session.AddService | user_service/src/core/database/models/ServiceModel.py:17-18 | inserting a service fails, and changes nothing, exactly when the name is taken; otherwise it is appended with the next id |
| Store.Session.DeleteServiceRow | user_service/src/core/database/models/ServiceModel.py:19 | removes the service and, through the delete-orphan cascade, every grant of it |
| Store.Session.AddUserService | user_service/src/core/database/models/UserServiceModel.py:18-20 | appends one grant with the next id; the caller guarantees the pair is new, so no pair is ever stored twice |
| UserRepo.UserRepository.IsUserExist | user_service/src/core/repository/user_repository.py:21-23 | true iff some stored user has the same username OR the same email |
| UserRepo.UserRepository.GetUserByUsername | user_service/src/core/repository/user_repository.py:25-34 | the user with that username, or None when there is none; reads only |
| UserRepo.UserRepository.GetUserById | user_service/src/core/repository/user_repository.py:36-45 | the user with that id, or None when there is none; reads only |
| UserRepo.UserRepository.IsAdminToken | user_service/src/core/repository/user_repository.py:56-61 | fails with the `None.id` error iff no role is named "admin"; otherwise true iff a stored token equal to the argument belongs to a user whose role_id is that role's id |
| UserRepo.UserRepository.CreateUser | user_service/src/core/repository/user_repository.py:63-72 | adds the user, or fails on a NULL role_id or a taken username or email and changes nothing; the inserted row is returned, where the source returns nothing and the caller reads the refreshed object |
| UserRepo.UserRepository.GetUserToken | user_service/src/core/repository/user_repository.py:74-83 | the user's first token row in table order, or None exactly when the user holds none; reads only |
| UserRepo.UserRepository.DeleteTokensByUserId | user_service/src/core/repository/user_repository.py:85-93 | every token of the user is removed; every other token stays; users are untouched |
| UserRepo.UserRepository.CreateUserToken | user_service/src/core/repository/user_repository.py:95-107 | exactly one (user, token) row is appended; tokens the user already held remain |
| UserRepo.UserRepository.VerifyUserToken | user_service/src/core/repository/user_repository.py:109-125 | the owner of a stored token equal to the argument, or 401 "Invalid user token" exactly when there is none |
| UserRepo.UserRepository.IsAnyAdminExists | user_service/src/core/repository/user_repository.py:127-128 | true iff some user has role_id 1, the hard-coded id, whatever that role is named |
| RoleRepo.RoleRepository.CreateRole | user_service/src/core/repository/role_repository.py:11-16 | a new name is appended with a fresh id and returned; a taken name fails the commit and changes nothing |
| RoleRepo.RoleRepository.DeleteRole | user_service/src/core/repository/role_repository.py:18-23 | true and exactly that role removed iff the id exists; false and no change otherwise |
| RoleRepo.RoleRepository.IsRoleExist | user_service/src/core/repository/role_repository.py:25-26 | true iff a role has that name |
| RoleRepo.RoleRepository.GetAllRoles | user_service/src/core/repository/role_repository.py:28-29 | every stored role, in table order |
| RoleRepo.RoleRepository.AssignRoleToUser | user_service/src/core/repository/role_repository.py:31-36 | true iff the user exists; then only that user's role_id is set, to a role whose existence is not checked; false and no change otherwise |
| RoleRepo.RoleRepository.GetRoleById | user_service/src/core/repository/role_repository.py:38-39 | the role with that id, or None |
| RoleRepo.RoleRepository.GetRoleByName | user_service/src/core/repository/role_repository.py:41-44 | the role with that name, or None |
| RoleRepo.RoleRepository.GetUserRoleById | user_service/src/core/repository/role_repository.py:46-53 | the user's current role_id, or None iff the user is unknown |
| RoleRepo.RoleRepository.IsDefaultRolesExists | user_service/src/core/repository/role_repository.py:55-62 | true iff both "admin" and "user" exist |
| RoleRepo.RoleRepository.CreateDefaultRoles | user_service/src/core/repository/role_repository.py:64-68 | creates "admin" then "user" without checking first: with both names free they get the next two ids; a taken "admin" fails at once and changes nothing; a taken "user" fails after "admin" was added |
| RoleRepo.RoleRepository.SeedDefaultRoles | user_service/src/config/admin_panel.py:11-13 | start-up seeding: on a fresh store "admin" gets id 1 and "user" id 2; every existing role is kept; with "admin" present nothing changes; otherwise "admin" is appended with the next id, followed by "user" with the one after unless "user" already exists; it fails exactly when one of the two names exists and the other does not; after a success both names exist |
| RoleRepo.SeededRoles | user_service/src/core/repository/role_repository.py:64-68 | what create_default_roles leaves when the two names are not both taken: existing roles kept, "admin" appended unless taken (then nothing changes), "user" after it unless taken; failure exactly when one name was taken; both names taken after a success |
| RoleRepo.RoleRepository.CreateRoleThenCheck | user_service/src/core/repository/role_repository.py:11-26 | after create_role(name), is_role_exist(name) holds |
| ServiceRepo.ServiceRepository.CreateService | user_service/src/core/repository/service_repository.py:9-14 | a new service with a fresh id is appended and returned; only the UNIQUE column refuses a taken name, without changing anything |
| ServiceRepo.ServiceRepository.DeleteService | user_service/src/core/repository/service_repository.py:16-21 | true and exactly that service (and its grants) removed iff the id exists; false and no change otherwise |
| ServiceRepo.ServiceRepository.GetAllServices | user_service/src/core/repository/service_repository.py:23-24 | every stored service, in table order |
| ServiceRepo.ServiceRepository.AssignServiceToUser | user_service/src/core/repository/service_repository.py:26-37 | false and grants unchanged iff the pair already exists; otherwise exactly that pair is appended and true is returned |
| ServiceRepo.ServiceRepository.GetServiceById | user_service/src/core/repository/service_repository.py:39-40 | the service with that id, or None |
| ServiceRepo.ServiceRepository.GetServiceByName | user_service/src/core/repository/service_repository.py:42-43 | the service with that name, or None |
| TokenTable.CreateTokenDb | User-service/core/database/token_table.py:9-13 | exactly one (user, token) row is appended; nothing is removed |
| TokenTable.VerifyToken | User-service/core/database/token_table.py:16-23 | the user owning a stored token equal to the argument; 401 "Invalid user token" exactly when there is none; the store is not modified |
| Jwt.DigitsRoundTrip | user_service/src/core/utils/utils.py:11 | the decimal digits of a natural number are non-empty, all digits, and read back as that number |
| Jwt.DecimalRoundTrip | user_service/src/core/utils/utils.py:11 | `int(str(n)) == n` for every integer, negatives included |
| Jwt.HexShape | user_service/src/core/utils/utils.py:13 | the hex of n bytes is 2n lowercase hex characters |
| Jwt.HexDigitInjective | user_service/src/core/utils/utils.py:13 | distinct nibbles give distinct hex digits |
| Jwt.HexInjective | user_service/src/core/utils/utils.py:13 | distinct byte strings give distinct hex strings |
| Jwt.PayloadClaims | user_service/src/core/utils/utils.py:9-14 | `sub` parses back to the user id; `exp` is the issue time plus one day; `rand` is 32 lowercase hex characters |
| Jwt.Payload | user_service/src/core/utils/utils.py:10-14 | the payload expires after its issue time, has a non-empty `sub` and a `rand` of two characters per random byte; the exact claims are in Jwt.PayloadClaims |
| Jwt.DistinctEntropyDistinctPayloads | user_service/src/core/utils/utils.py:10-14 | for one user and issue time, different random bytes give different payloads |
| Jwt.CreateJwtToken | user_service/src/core/utils/utils.py:9-15 | the signed payload; with an injective signer no other random bytes give the same token for that user and time |
| Jwt.DistinctEntropyDistinctTokens | user_service/src/core/utils/utils.py:13-15 | with an injective signer, different random bytes give different tokens |
| UserRouter.RegisterUser | user_service/src/routers/user.py:30-43 | as written: a username or email clash gives 400 "User with the same username or email already exists"; any other registration fails at commit (role_id NULL), so the handler never answers "User registered" and the users table never changes |
| UserRouter.RegisterUserWithRole | user_service/src/routers/user.py:30-43 | with a role supplied: a clash gives 400 and no change; otherwise "User registered", and exactly one user is appended whose stored password is the bcrypt hash of the given one |
| UserRouter.LoginUser | user_service/src/routers/user.py:58-71 | an unknown username and a wrong password give the same 401 "Invalid credentials"; a token already stored for the user is returned and nothing changes; otherwise a new signed token is stored and returned |
| UserRouter.RefreshToken | user_service/src/routers/user.py:86-94 | 401 "Invalid credentials" as in login; otherwise all of the user's tokens are deleted and exactly one new token is stored and returned, which is afterwards the user's only token; other users' tokens stay |
| UserRouter.VerifyUser | user_service/src/routers/user.py:97-107 | is_valid=true iff the token is stored for an existing user; 401 "Invalid user token" otherwise; nothing about the JWT itself is inspected |
| UserRouter.CheckAccessToService | user_service/src/routers/user.py:124-150 | in order: unknown token gives 401 "Invalid token"; missing owner gives 401 "User not found"; unknown service gives 404 "Service not found"; when the first token row, its owner and the service all exist the reply is always "Access granted" / true if the grant exists and "Access denied" / false otherwise |
| UserRouter.LoginTwice | user_service/src/routers/user.py:63-71 | two consecutive logins return the same token |
| UserRouter.RefreshAfterLogin | user_service/src/routers/user.py:91-94 | for a user who holds no token before the login, whose login token no one else holds, with an injective signer and different random bytes for the two calls: the refreshed token differs from the login token; the old token no longer verifies and the new one does |
| UserRouter.RefreshRevokes | user_service/src/routers/user.py:91-107 | after a refresh that issues a token other than the user's previous one, the previous token gives 401 "Invalid user token" and the new one verifies |
| UserRouter.RegisterThenLogin | user_service/src/routers/user.py:30-71 | with a sound hasher, after a successful registration the same registration gives 400 and a login with the same password succeeds |
| RoleRouter.CheckAdminToken | user_service/src/routers/role.py:15-24 | no "admin" role: the unguarded first lookup raises, giving an unhandled fault; a token held by an admin passes; every other token gives 401 "Invalid token", never "Not an administrator token" |
| RoleRouter.GetAllRoles | user_service/src/routers/role.py:27-41 | all roles; no admin gate |
| RoleRouter.CreateRole | user_service/src/routers/role.py:44-65 | gated by the admin check; a taken name gives 500 "Internal server error" (the 400 is swallowed); a new name creates and returns the role |
| RoleRouter.DeleteRole | user_service/src/routers/role.py:68-88 | gated by the admin check; an existing id is removed and deleted=true returned; an unknown id gives 500 (the 404 is swallowed) and no change |
| RoleRouter.GetUserRoles | user_service/src/routers/role.py:91-114 | the user's role iff the user and the role row both exist; 404 "User not found" otherwise; no admin gate |
| RoleRouter.AssignRoleToUser | user_service/src/routers/role.py:117-147 | gated by the admin check; then 404 "User not found", then 404 "Role not found", then only that user's role_id set and true returned |
| ServiceRouter.GetAllServices | user_service/src/routers/service.py:21-25 | every stored service |
| ServiceRouter.CreateService | user_service/src/routers/service.py:39-43 | a taken name gives 500 "Internal server error" and no change; otherwise the new service is created and returned |
| ServiceRouter.DeleteService | user_service/src/routers/service.py:58-65 | an existing id is removed (with its grants) and "Service deleted successfully" returned; an unknown id gives 500 (the 404 is swallowed) and no change |
| ServiceRouter.AssignServiceToUser | user_service/src/routers/service.py:81-103 | as written: 404 "User not found", then 404 "Service not found"; otherwise always "Service assigned successfully"; grants are unchanged on a repeat, and a new pair is appended as exactly one grant with the next id |
| ServiceRouter.AssignServiceToUserReportingRepeat | user_service/src/routers/service.py:94-99 | corrected: "User already has access to this service" iff the pair was already granted, "Service assigned successfully" otherwise, with exactly one grant appended and every other grant kept |
| ServiceRouter.AssignTwice | user_service/src/routers/service.py:94-99 | assigning the same service twice answers "Service assigned successfully" both times as written; the corrected handler reports the repeat |
| RouteService.BuildRequest | core/rest_api/modules/route_service.py:24-34 | the method sent is in lower case: as long as the inbound one, unchanged where it had no capital, and left as it is by lower-casing again |
| RouteService.Respond | core/rest_api/modules/route_service.py:37-56 | an unhandled fault exactly for an exception other than the two caught ones; an error carrying the upstream payload only for an upstream reply with another status, under that status; a fixed-text error only for a failed call, as 503 or 500 with `WWW-Authenticate: Bearer` |
| RouteService.Route | core/rest_api/modules/route_service.py:23-56 | a body is forwarded only when the upstream answer to the built request had the configured status, and it is that answer's body |
| RouteService.RequestTarget | core/rest_api/modules/route_service.py:30-31 | the upstream URL is the service URL followed by the path; the method is the inbound one with no upper-case letter left |
| RouteService.LowerIdempotent | core/rest_api/modules/route_service.py:31 | lower-casing an already lower-cased method changes nothing |
| RouteService.MethodCaseIrrelevant | core/rest_api/modules/route_service.py:31 | inbound methods that differ only in case give the same upstream request |
| RouteService.NothingBuiltIsEmpty | core/rest_api/modules/route_service.py:24 | a handler returning nothing sends the same request as one returning `{}`: no params, data or headers |
| RouteService.PartsPassedOn | core/rest_api/modules/route_service.py:32-34 | params, data and headers are the handler's entries when present and absent otherwise |
| RouteService.ForwardedExactlyOnConfiguredStatus | core/rest_api/modules/route_service.py:52-56 | the payload is returned unchanged iff the upstream answered with the configured status |
| RouteService.OtherStatusPassedThrough | core/rest_api/modules/route_service.py:52-54 | another upstream status becomes the error status, with the upstream payload as the detail |
| RouteService.FailedCallsAreErrors | core/rest_api/modules/route_service.py:37-52 | a connection failure gives 503 "Service is unavailable." and a reply whose Content-Type is not JSON 500 "Service error.", both with `WWW-Authenticate: Bearer`; any other exception ends in an unhandled fault; none of them forwards a body |
| AuthBearer.VerifyJwt | core/rest_api/auth/auth_bearer.py:25-33 | a value exactly when the reply is a boolean; truthy exactly when the reply is `true` |
| AuthBearer.Call | core/rest_api/auth/auth_bearer.py:14-23 | decides on the `Option<Credentials>` value the superclass returned: an acceptance returns the credential string of a credential whose scheme is exactly "Bearer"; a refusal is a 403 with one of the three details |
| AuthBearer.AcceptedExactly | core/rest_api/auth/auth_bearer.py:14-23 | accepted iff credentials are present, the scheme is "Bearer" and the verifier answers `true`; the credential string is returned unchanged |
| AuthBearer.RejectionsAre403 | core/rest_api/auth/auth_bearer.py:17-23 | every refusal the decision chain makes is a 403 (an exception in the verifier's call is not modelled, see Left out) |
| AuthBearer.SchemeCheckedFirst | core/rest_api/auth/auth_bearer.py:17-18 | present credentials whose scheme is not exactly "Bearer" give 403 "Invalid authentication scheme." whatever the verifier would answer; with auto_error=True only case variants such as "bearer" get this far (see Left out) |
| AuthBearer.NonBooleanReplyRejects | core/rest_api/auth/auth_bearer.py:19-20 | a verifier reply that is not a boolean makes verify_jwt return None, which is refused with 403 "Invalid token or expired token." |
| AuthBearer.MissingCredentialsRejected | core/rest_api/auth/auth_bearer.py:22-23 | a None credentials argument gives 403 "Invalid authorization code."; the superclass returns None only when auto_error=False (see Left out) |

## Left out

- HTTP and ORM plumbing is not modelled: FastAPI routing, dependency injection, sessions, `refresh`, the application factory and the entry points. The service router's logic is modelled although the application does not mount it.
- Network I/O is left out. `make_request` (aiohttp under a timeout) is the `send` parameter of `RouteService.Route`. The POST inside `verify_jwt` is the `verifier` parameter of `AuthBearer.Call`. A timeout, and any other exception inside the call, is the `OtherError` outcome.
- The internals of bcrypt, `jwt.encode`, `secrets.token_hex` and `datetime.utcnow` are not modelled. Salt, signer, random bytes and time are parameters. `exp` is in integer seconds rather than a datetime.
- `bcrypt.checkpw` can raise on a stored hash that is not a bcrypt hash. The model treats `check` as a total function, so this error path is not captured.
- The store follows the database the tests run against (SQLite, which does not enforce foreign keys), not the PostgreSQL engine the service is configured with (user_service/src/config/config.py:29-30). Under PostgreSQL the foreign keys users.role_id → roles.id and tokens.user_id → users.id hold, and the following differ from the model:
- RoleRepo.RoleRepository.AssignRoleToUser: with a role id no role has, PostgreSQL fails the commit, while the model sets the id and answers true.
- RoleRouter.DeleteRole: deleting a role some user still refers to fails under PostgreSQL and becomes 500, while the model deletes it and answers deleted=true.
- UserRouter.CheckAccessToService: under PostgreSQL a token cannot outlive its owner, so the "User not found" branch is unreachable there; the model keeps it reachable.
- Store.Session: the id counters never reuse an id and a failed insert does not advance them. PostgreSQL sequences are consumed by a failed INSERT, and SQLite can reuse the id of a deleted last row. The exact ids in the contracts (such as `Role(old(db.nextRoleId), name)`) rest on this choice.
- RoleRepo.RoleRepository.DeleteRole: does not model what the ORM does to users whose role_id refers to the deleted role. The declared relationships do not agree with each other, so the model leaves the users table untouched.
- Seqs.Find: `.first()` without an ORDER BY has no guaranteed row order in SQL. The model returns the first match in insertion order. This matters only when several rows match: a user holding two tokens (UserRepo.UserRepository.GetUserToken and UserRouter.LoginUser, through `Store.Session.TokenOf`), or one token string stored for two users (UserRouter.CheckAccessToService, through `Store.Session.TokenRow`).
- String length limits on columns (80/120/255 characters) are not modelled.
- The `created_at` timestamps are not modelled.
- Admin-panel writes are left out: the sqladmin views can edit any table. The model covers only the start-up seeding of default roles.
- The first-registered-user-becomes-admin policy that the tests refer to is not modelled, because no handler implements it.
- Concurrency is out of scope: the asynchronous handlers are treated as running one at a time.
- AuthBearer.Call: an exception raised by the verifier's POST or by `resp.json()` escapes `__call__` and becomes a 500. The verifier parameter always answers, so this path is not modelled.
- AuthBearer.Call: the `HTTPBearer` superclass's parsing of the Authorization header is not part of this model. Its result is the `Option<Credentials>` argument, and `Call` models only what lines 16-23 of auth_bearer.py do with it. `JWTBearer` passes auto_error=True to the superclass (the default at auth_bearer.py:11), and with that setting the superclass raises its own 403 for a missing header and for any scheme that is not "bearer" in some letter case. So as configured, the argument is never None, the "Invalid authorization code." refusal is unreachable, and "Invalid authentication scheme." is reached only by case variants of the scheme such as "bearer".
- The `src.core.database.token_table` module that `routers/user.py` imports is not part of this model. `create_token_db` and `verify_token` are modelled from the `User-service` copy. `delete_token_db` is modelled as the repository's `delete_tokens_by_user_id` query.
- The `print` calls in `check_admin_token`, `route_service` and `verify_jwt` are left out. They have no effect on the outcome.

## Findings

| source | as written | input that shows it | evidently intended | confidence | as-written member | corrected member |
|---|---|---|---|---|---|---|
| user_service/src/routers/user.py:39-41 | `register` inserts a user without a role_id, and users.role_id is NOT NULL (user_service/src/core/database/models/UserModel.py:22); the commit fails and the request ends in an unhandled 500 | any registration whose username and email are both new | the user is stored with a role and "User registered" is returned | not executed | UserRouter.RegisterUser | UserRouter.RegisterUserWithRole |
| user_service/src/routers/service.py:94-99 | the repository answers True or False, and both are `is not None`, so "User already has access to this service" is unreachable | assigning the same service to the same user twice | the repeat is reported as "User already has access to this service" | not executed | ServiceRouter.AssignServiceToUser | ServiceRouter.AssignServiceToUserReportingRepeat |
