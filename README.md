# To-do API: authentication and task ownership, in Dafny

A model of the security core of a Spring Boot to-do service, plus proofs about it. Users register
and log in under `/api/auth`. Login returns a signed JSON Web Token (RFC 7519). Every other route
needs that token as a bearer credential in the `Authorization` header (section 2.1 of RFC 6750).
A per-request filter verifies the token, loads the user it names and authenticates the request.
The task handlers under `/api/tasks` then resolve the caller to a stored user. They refuse any
task the caller does not own. The list handlers return only the caller's tasks.

Modules, one per source file:

- `Tasks`: the task entity.
  - It is a value with single-field setters.
  - Its JSON form leaves out the owner.
- `TaskStore`: the task repository.
  - The derived finders are functions over the table.
  - `TaskRepository` is a class whose `save` and `deleteById` update the table in place.
- `Users`: the user record and the user store that registration writes.
- `CustomUserDetailsService`: the lookup and its projection onto `UserDetails`.
- `JwtService`:
  - token issuance and validation over abstract claims;
  - the blank-secret check.
- `JwtAuthenticationFilter`: the filter.
  - It is a function `Filter`.
  - `DoFilterInternal` is a method that updates a `RequestContext` object and is proved to follow `Filter`.
- `SecurityConfig`:
  - the ordered authorization rules and the public-path policy;
  - `Dispatch`, one whole request: a fresh context, then the filter, then the rules.
- `AuthController`:
  - `register` as a method on the user store;
  - `login` as a function.
- `TaskController`: the seven handlers as a class over the two repositories.
- `Http` and `Wrappers`: statuses, responses, `Option` and `Result`.

Parameters stand in for the outside world:

- **The token signer.** It is a pair of functions `sign`/`parse`. The properties that need
  verification to accept what signing produced assume `Sound(s)`, which says
  `parse(sign(c)) == Some(c)`.
- **The password encoder.** It is a pair `encode`/`matches`, with `Consistent` for "a password
  matches its own hash".
- **The clock.** It is an integer number of milliseconds. `generateToken` reads the clock twice,
  once for `issuedAt` and once for the expiration, so `GenerateToken` takes two readings.
- **The properties file.** It is a map, or none when the file could not be read.
- **The security context.** It is an explicit per-request value held by `RequestContext`.

Behaviour of the code that the model keeps, where a different behaviour could be expected:

- **Bad bearer tokens make the request fail.** A fail-closed filter would treat a malformed,
  forged or expired bearer token as no token and leave the request anonymous. This filter does
  not catch what `extractUsername` or `loadUserByUsername` throw, so the request fails.
  - The model raises (`Raise`/`Failed`).
  - jjwt's `parseClaimsJws` refuses an expired token, so expiry is one of these failures:
    `ExtractAllClaims` yields `ExpiredToken`.
  - Consequently even a public path, such as the login endpoint, fails when it carries an
    expired or bad bearer token. `ExpiredTokenFails` states this.
  - The comparison in `isTokenExpired` runs only on tokens the parser accepted. With one clock
    reading per request (see Left out) it therefore never answers true (`IsTokenExpiredNeverTrue`).
    In the code, the second reading can fall after a token's expiration, and then the comparison
    answers true.
- **Anonymous requests to protected paths.** The chain configures no authentication entry
  point, so Spring answers with its default 403, not a 401. The model records the outcome as
  `Denied` without fixing the code.
- **Failed login.** Failed authentication propagates as an exception, which the code comment calls a 403.
- **The user-details builder.** Spring's `UserDetails` builder rejects an empty username and a
  role that already starts with `ROLE_`. `loadUserByUsername` therefore fails with
  `IllegalArgument` on such a record.
- **Saving a task whose id names no row.** The test sources use `MockitoBean`, which needs
  Spring Framework 6.2 (Spring Boot 3.4, Hibernate 6.6). Hibernate 6.6 refuses to merge an
  entity with a generated id that has no row. So that save fails (`StaleEntity`) and leaves the
  table alone. The handler then ends in an unmapped exception, modelled as 500 at the handler.

## Model

| member | source | states |
|---|---|---|
| Tasks.Task.SetId | src/main/java/com/rsandoval/todo_api/model/Task.java:22 | the id becomes the new value; description, flag and owner are unchanged |
| Tasks.Task.SetDescription | src/main/java/com/rsandoval/todo_api/model/Task.java:25 | only the description changes |
| Tasks.Task.SetCompleted | src/main/java/com/rsandoval/todo_api/model/Task.java:28 | only the completion flag changes |
| Tasks.Task.SetUser | src/main/java/com/rsandoval/todo_api/model/Task.java:33-35 | only the owner changes |
| Tasks.NewTask | src/main/java/com/rsandoval/todo_api/model/Task.java:11-19 | a new task is not completed and has no id, description or owner |
| Tasks.ToJson | src/main/java/com/rsandoval/todo_api/model/Task.java:18 | the JSON form carries exactly the id, description and flag |
| Tasks.OwnerNotSerialized | src/main/java/com/rsandoval/todo_api/model/Task.java:16-19 | changing the owner does not change the JSON form, so the output reveals nothing about the owner |
| Tasks.ToJsonInjectiveUpToOwner | src/main/java/com/rsandoval/todo_api/model/Task.java:9-19 | equal JSON forms mean the tasks agree on every field except the owner |
| Users.UserRepository.constructor | src/main/java/com/rsandoval/todo_api/controller/AuthController.java:24 | the user store starts empty and well formed |
| Users.UserRepository.Save | src/main/java/com/rsandoval/todo_api/controller/AuthController.java:46-51 | the new user gets the next id and is stored under its name; the store stays well formed (names are keys, ids are distinct) |
| TaskStore.Select | src/main/java/com/rsandoval/todo_api/repository/TaskRepository.java:13-17 | the selection holds every stored task that meets the criteria, only such tasks, and lists them in ascending id order; this is the query behind every derived finder |
| TaskStore.FindByCompleted | src/main/java/com/rsandoval/todo_api/repository/TaskRepository.java:13 | a task is in the result iff it is stored with that flag, whoever owns it; ascending ids |
| TaskStore.FindByUserIdAndCompleted | src/main/java/com/rsandoval/todo_api/repository/TaskRepository.java:17 | a task is in the result iff it is stored with that owner and that flag |
| TaskStore.FindByUserId | src/main/java/com/rsandoval/todo_api/repository/TaskRepository.java:15 | a task is in the result iff it is stored with that owner; sorted by flag (false first) and then id |
| TaskStore.SavePreservesWellFormed | src/main/java/com/rsandoval/todo_api/repository/TaskRepository.java:11 | a successful save of an owned task keeps every row keyed by its own id with an owner, and never lowers the counter |
| TaskStore.SaveResult | src/main/java/com/rsandoval/todo_api/repository/TaskRepository.java:11 | save fails iff the task's id names no row; on success the returned entity is the row stored under its id and differs from the payload at most in the id |
| TaskStore.SaveExistingOverwrites | src/main/java/com/rsandoval/todo_api/controller/TaskController.java:114-115 | saving a task whose id is present succeeds and overwrites that row; the key set and counter are unchanged and no other row changes |
| TaskStore.SaveNewAllocatesFreshId | src/main/java/com/rsandoval/todo_api/model/Task.java:9-11 | saving a task without an id adds exactly one row, under an id no row had, and changes no other row |
| TaskStore.DeleteRemovesOnlyThatRow | src/main/java/com/rsandoval/todo_api/controller/TaskController.java:95 | deleting removes that id and keeps every other row as it was |
| TaskStore.TaskRepository.constructor | src/main/java/com/rsandoval/todo_api/repository/TaskRepository.java:11 | an empty, well-formed table |
| TaskStore.TaskRepository.FindById | src/main/java/com/rsandoval/todo_api/repository/TaskRepository.java:11 | a result exists iff the id is a row; it is that row, persisted with an owner |
| TaskStore.TaskRepository.Save | src/main/java/com/rsandoval/todo_api/repository/TaskRepository.java:11 | the new table, counter and returned entity are the save specification's; a refused merge returns the error and changes nothing; the table stays well formed |
| TaskStore.TaskRepository.DeleteById | src/main/java/com/rsandoval/todo_api/repository/TaskRepository.java:11 | exactly that key is removed, the counter is unchanged and findById on it is empty afterwards |
| CustomUserDetailsService.BuildDetails | src/main/java/com/rsandoval/todo_api/service/CustomUserDetailsService.java:26-30 | the builder refuses an empty username or a role already carrying ROLE_; otherwise it keeps name and password and grants ROLE_ + role, from which the role reads back |
| CustomUserDetailsService.LoadUserByUsername | src/main/java/com/rsandoval/todo_api/service/CustomUserDetailsService.java:20-31 | an unknown name is UsernameNotFound; a known one loads iff the builder accepts it; the loaded details carry the stored name, the stored hash and the authority ROLE_ + role |
| CustomUserDetailsService.LoadedDetailsMatchStoredUser | src/main/java/com/rsandoval/todo_api/service/CustomUserDetailsService.java:25-30 | on a well-formed store the details name the user asked for, with the stored hash unchanged and the stored role recoverable |
| CustomUserDetailsService.RegisteredUserLoads | src/main/java/com/rsandoval/todo_api/controller/AuthController.java:46-51 | a user as registration stores them (role USER, non-empty name) always loads |
| JwtService.GenerateToken | src/main/java/com/rsandoval/todo_api/service/JwtService.java:25-37 | the token verifies to the claims {subject: the username, issuedAt: first clock reading, expiration: second reading + 86,400,000} |
| JwtService.ExtractAllClaims | src/main/java/com/rsandoval/todo_api/service/JwtService.java:71-77 | InvalidToken iff the token does not verify; ExpiredToken iff it verifies but its expiration is before now; otherwise the verified claims, unexpired |
| JwtService.ExtractUsername | src/main/java/com/rsandoval/todo_api/service/JwtService.java:60-68 | an error iff the parser refuses the token, and then the parser's error; otherwise the subject |
| JwtService.IsTokenExpired | src/main/java/com/rsandoval/todo_api/service/JwtService.java:85-91 | it is expired iff the expiration is strictly before now; a token the parser refuses gives the parser's error |
| JwtService.IsTokenValid | src/main/java/com/rsandoval/todo_api/service/JwtService.java:80-83 | an error iff the parser refuses the token (unverifiable or expired); otherwise true iff the subject is the user's name and now is not past the expiration |
| JwtService.GeneratedTokenValidUntilExpiry | src/main/java/com/rsandoval/todo_api/service/JwtService.java:29-37 | a token issued for a user is valid for that user while now ≤ the expiration, and raises ExpiredToken after it |
| JwtService.ValidAtExpirationInstant | src/main/java/com/rsandoval/todo_api/service/JwtService.java:85-87 | a token is still valid at its expiration instant and raises ExpiredToken one millisecond later |
| JwtService.GeneratedTokenRefusesOtherUser | src/main/java/com/rsandoval/todo_api/service/JwtService.java:82 | a token issued for one username is never valid for another: false while it lives, ExpiredToken after |
| JwtService.IsTokenExpiredNeverTrue | src/main/java/com/rsandoval/todo_api/service/JwtService.java:85-87 | with one clock reading per request, isTokenExpired never answers true, because the parser has already refused an expired token |
| JwtService.LifetimeIsOneDay | src/main/java/com/rsandoval/todo_api/service/JwtService.java:32-34 | the subject is the username and the lifetime is at least 24 hours, exactly 24 when the two clock readings agree |
| JwtService.TrimLeading | src/main/java/com/rsandoval/todo_api/service/JwtService.java:51 | the result is a suffix, every dropped character is at most U+0020, and the result does not start with one |
| JwtService.TrimTrailing | src/main/java/com/rsandoval/todo_api/service/JwtService.java:51 | the result is a prefix, every dropped character is at most U+0020, and the result does not end with one |
| JwtService.Trim | src/main/java/com/rsandoval/todo_api/service/JwtService.java:51 | String.trim: the result is a segment of the input with only characters at most U+0020 outside it, and neither starts nor ends with one |
| JwtService.TrimEmptyIffBlank | src/main/java/com/rsandoval/todo_api/service/JwtService.java:51 | trim is empty iff every character is at most U+0020 |
| JwtService.LoadSecretKey | src/main/java/com/rsandoval/todo_api/service/JwtService.java:46-56 | an unreadable file is CouldNotLoad; a missing or blank entry is SecretNotFound; the key is accepted iff the entry is present and has a character above U+0020, and it is then the entry, untrimmed |
| JwtAuthenticationFilter.BearerToken | src/main/java/com/rsandoval/todo_api/config/JwtAuthenticationFilter.java:42-48 | a token exists iff the header exists and starts with "Bearer ", and the header is then "Bearer " + token |
| JwtAuthenticationFilter.BearerTokenOfPrefixed | src/main/java/com/rsandoval/todo_api/config/JwtAuthenticationFilter.java:48 | the header "Bearer " + t yields exactly t |
| JwtAuthenticationFilter.NoBearerPassesThrough | src/main/java/com/rsandoval/todo_api/config/JwtAuthenticationFilter.java:42-45 | without a bearer header the context is passed on unchanged |
| JwtAuthenticationFilter.OnlyUnauthenticatedToAuthenticated | src/main/java/com/rsandoval/todo_api/config/JwtAuthenticationFilter.java:54-70 | an authentication present is kept; the only change is from none to some |
| JwtAuthenticationFilter.Filter | src/main/java/com/rsandoval/todo_api/config/JwtAuthenticationFilter.java:31-74 | the filter changes the context only from none to an authentication, and only for a bearer token the parser accepts, with the details loaded for its subject as the principal |
| JwtAuthenticationFilter.RaisesExactly | src/main/java/com/rsandoval/todo_api/config/JwtAuthenticationFilter.java:51-56 | the filter raises iff the bearer token does not verify or has expired, or the context is empty and the subject does not load; an expired token raises ExpiredToken |
| JwtAuthenticationFilter.AuthenticatesIff | src/main/java/com/rsandoval/todo_api/config/JwtAuthenticationFilter.java:54-70 | an empty context becomes authenticated iff the bearer token verifies, its subject loads and it is unexpired; the principal is then the subject's details |
| JwtAuthenticationFilter.RequestContext.constructor | src/main/java/com/rsandoval/todo_api/config/SecurityConfig.java:35-36 | every request starts with no authentication and no chain invocation |
| JwtAuthenticationFilter.DoFilterInternal | src/main/java/com/rsandoval/todo_api/config/JwtAuthenticationFilter.java:31-74 | afterwards the context is what Filter says and the chain has run exactly once; on a raise, the context and chain are untouched |
| SecurityConfig.RULES | src/main/java/com/rsandoval/todo_api/config/SecurityConfig.java:28-33 | the two rules in order: the public patterns permit all, then any request needs authentication |
| SecurityConfig.Decide | src/main/java/com/rsandoval/todo_api/config/SecurityConfig.java:28-33 | the first rule whose matcher accepts the path decides; none iff no rule accepts it |
| SecurityConfig.Policy | src/main/java/com/rsandoval/todo_api/config/SecurityConfig.java:28-33 | the rules permit a path iff it is "/", "/index.html", "/api/auth" or below "/api/auth/"; every other path needs authentication |
| SecurityConfig.TaskRoutesProtected | src/main/java/com/rsandoval/todo_api/config/SecurityConfig.java:32 | /api/tasks, /api/tasks/{id} and /api/tasks/search need authentication |
| SecurityConfig.AuthRoutesPublic | src/main/java/com/rsandoval/todo_api/config/SecurityConfig.java:30 | register, login, / and /index.html are public |
| SecurityConfig.Dispatch | src/main/java/com/rsandoval/todo_api/config/SecurityConfig.java:25-41 | one request, filter before authorization, from an empty context: a protected path is admitted only with an authentication, and a denial happens only on a protected path |
| SecurityConfig.ProtectedNeedsValidToken | src/main/java/com/rsandoval/todo_api/config/SecurityConfig.java:25-41 | a protected path is reached only with a verified, unexpired bearer token, as the user it names |
| SecurityConfig.AnonymousRequests | src/main/java/com/rsandoval/todo_api/config/SecurityConfig.java:25-41 | without a header a request reaches public paths anonymously and is denied elsewhere |
| SecurityConfig.IssuedTokenOpensProtectedPaths | src/main/java/com/rsandoval/todo_api/config/SecurityConfig.java:25-41 | a token issued for a stored user opens every path as that user until it expires |
| SecurityConfig.ExpiredTokenFails | src/main/java/com/rsandoval/todo_api/service/JwtService.java:60-77 | past its expiration that token makes the request fail with ExpiredToken on every path, public ones included |
| AuthController.Authenticate | src/main/java/com/rsandoval/todo_api/controller/AuthController.java:60-62 | success iff the user loads and the password matches the stored hash; an unknown user or a non-matching password is BadCredentials, a builder refusal InternalAuthenticationError |
| AuthController.Login | src/main/java/com/rsandoval/todo_api/controller/AuthController.java:57-69 | a failed authentication propagates and no token is issued; otherwise 200 with a token that verifies to the username, the first clock reading and the second reading plus 24 hours |
| AuthController.LoginAfterRegister | src/main/java/com/rsandoval/todo_api/controller/AuthController.java:40-69 | after registration, login with the password gives a token valid for the user until it expires and ExpiredToken after; a wrong password gives BadCredentials |
| AuthController.AuthController.constructor | src/main/java/com/rsandoval/todo_api/controller/AuthController.java:29-37 | the controller holds the given store and encoder |
| AuthController.AuthController.Register | src/main/java/com/rsandoval/todo_api/controller/AuthController.java:40-54 | a taken name is 409 and leaves the store alone; a new one adds exactly that user with the encoded password and role USER, and gives 201 |
| AuthController.AuthController.RegisterTwice | src/main/java/com/rsandoval/todo_api/controller/AuthController.java:42-44 | the second registration is 409, the first password hash stays and the store gains only that name |
| TaskController.GetCurrentUser | src/main/java/com/rsandoval/todo_api/controller/TaskController.java:35-40 | the stored user of the authenticated name, or 401 iff there is none |
| TaskController.FindOwnedTask | src/main/java/com/rsandoval/todo_api/controller/TaskController.java:55-59 | 404 iff the id is absent; 403 iff it is present and owned by someone else; otherwise the row |
| TaskController.NonOwnerLearnsOnlyExistence | src/main/java/com/rsandoval/todo_api/controller/TaskController.java:55-59 | for a non-owner the verdict depends only on whether the id exists, and is never access |
| TaskController.NonPositiveIdNotFound | src/main/java/com/rsandoval/todo_api/controller/TaskController.java:53-56 | no row has an id below 1, so such a request id is 404 for every caller and a payload carrying one is refused by save |
| TaskController.StampedAsWritten | src/main/java/com/rsandoval/todo_api/controller/TaskController.java:75 | the owner is the caller; the payload's id, description and flag are kept |
| TaskController.Stamped | src/main/java/com/rsandoval/todo_api/controller/TaskController.java:74-79 | the owner is the caller, the id is cleared, and the description and flag are the payload's |
| TaskController.CreateAsWrittenTakesOverForeignTask | src/main/java/com/rsandoval/todo_api/controller/TaskController.java:73-83 | as written, a payload naming another user's task id overwrites that row and gives it to the caller |
| TaskController.CreateAsWrittenCounterexample | src/main/java/com/rsandoval/todo_api/controller/TaskController.java:73-83 | a concrete store in which user 2 takes over user 1's task 1 |
| TaskController.CreateInsertsOwnTask | src/main/java/com/rsandoval/todo_api/controller/TaskController.java:73-83 | as intended, creating adds exactly one fresh row, owned by the caller, with the payload's fields; every other row stays |
| TaskController.TaskController.constructor | src/main/java/com/rsandoval/todo_api/controller/TaskController.java:30-33 | the controller holds the given repositories |
| TaskController.TaskController.GetAllTasks | src/main/java/com/rsandoval/todo_api/controller/TaskController.java:44-50 | 401 for an unknown caller; otherwise exactly the caller's tasks, incomplete first and then by id |
| TaskController.TaskController.GetTask | src/main/java/com/rsandoval/todo_api/controller/TaskController.java:53-62 | 401, then 404 for a missing id, then 403 for another user's task, otherwise 200 with the row |
| TaskController.TaskController.GetTasksByStatus | src/main/java/com/rsandoval/todo_api/controller/TaskController.java:66-69 | 401 for an unknown caller; otherwise exactly the caller's tasks with that flag |
| TaskController.TaskController.CreateTask | src/main/java/com/rsandoval/todo_api/controller/TaskController.java:73-83 | 401 leaves the store alone; otherwise 201 with the caller-owned task inserted under a fresh id (corrected) |
| TaskController.TaskController.CreateTaskAsWritten | src/main/java/com/rsandoval/todo_api/controller/TaskController.java:73-83 | 401 leaves the store alone; otherwise the payload, owner stamped, goes through save with its id: 201 with what save stored, or 500 with the store unchanged when the id names no row |
| TaskController.TaskController.DeleteTask | src/main/java/com/rsandoval/todo_api/controller/TaskController.java:87-97 | 401, 404 and 403 leave the store alone; for the owner 200 and exactly that row is removed |
| TaskController.TaskController.UpdateTask | src/main/java/com/rsandoval/todo_api/controller/TaskController.java:101-117 | 401, 404 and 403 leave the store alone; for the owner the row keeps its id and owner, takes the new description and flag, and no other row changes |
| TaskController.TaskController.OwnershipScenario | src/main/java/com/rsandoval/todo_api/controller/TaskController.java:53-83 | a created task is incomplete and owned by its creator: another user gets 403 for it and the creator gets it back |

## Left out

- Signing and verification are not modelled: HMAC SHA-256, the Base64 key decode and jjwt's signature check are the `Signer` parameter.
- ExtractAllClaims: jjwt writes dates as whole seconds, so the expiration read back is truncated to a second; the model keeps milliseconds, so the instant of expiry can differ by under a second.
- ExtractAllClaims: each call in the code reads the clock anew (parser, then `isTokenExpired`); the model uses one reading `now` per request.
- The `generateToken` overload with extra claims: `login` passes an empty map, so the model has only the standard claims.
- Reading `config.properties` is I/O; the file's contents, or their absence, are a parameter of `LoadSecretKey`.
- BCrypt and its random salt: folded into the opaque `encode` and `matches` of `PasswordEncoder`.
- AuthenticationManager internals: only the lookup and password comparison of the standard provider are modelled, in `Authenticate`. Account-status checks are left out because the builder sets none.
- Servlet, HTTP and JSON plumbing: annotations, payload deserialization defaults and `WebAuthenticationDetailsSource`. The payload arrives as a `Task` value.
- The thread-local security context and concurrent requests: the context is a per-request object.
- `java.util.Date` and `System.currentTimeMillis`: clock readings are integer parameters.
- JPA managed entities: a `Task` is a value, so aliasing between the loaded entity and the stored row is not modelled.
- Claims without a subject: the model's claims always have one, so the filter's null-username branch is not represented.
- Finder order: `findByCompleted` and `findByUserIdAndCompleted` promise no order; the model returns ascending ids.
- The `Sort` parameter of `findByUserId`: fixed to the sort the controller passes, ascending by completion flag and then by id.
- Not part of this model: model/User.java and repository/UserRepository.java. `Users` reconstructs them from their uses: id, username, password hash, role, lookup by name, save.
- The legacy controller, configuration and entity classes in the root package: they are superseded duplicates.
- TaskNotFoundException: folded into the NOT_FOUND status.
- Ids and timestamps as 64-bit `Long`/`long` values: the model uses unbounded integers (task ids of any sign, since a request may carry a negative one), so overflow is not represented.
- The filter's and the authorization decision's HTTP status codes for failures are not fixed; these are `Failed` and `Denied`.
- The servlet container's error dispatch is not modelled. When a handler throws (`ResponseStatusException`, or the refused merge), the container forwards to `/error`. The authorization rules do not permit that path, and the JWT filter skips the dispatch, so what the client finally sees may differ from the status at the handler. The model gives the handler's status.
- TaskRepository.Save: the refused merge follows Hibernate 6.6; with an older Hibernate the code would insert under a fresh id instead, which the model does not represent.
- The finders and `loadUserByUsername` do not modify the store: this holds because they are functions, so there is no separate lemma.

## Findings

| source | as written | input that shows it | evidently intended | confidence | as-written member | corrected member |
|---|---|---|---|---|---|---|
| src/main/java/com/rsandoval/todo_api/controller/TaskController.java:73-83 | `createTask` sets the owner on the deserialized payload and saves it with whatever id the JSON carried; `save` merges when the id is not null (and fails with 500 when that id names no row) | user 2 posts `{"id": 1, "description": "taken"}` while task 1 belongs to user 1: task 1 is overwritten and now belongs to user 2 | creating a task always inserts a new row owned by the caller and never touches existing rows | not executed; medium (depends on JPA merge semantics for a detached entity with an existing id) | TaskController.CreateAsWrittenCounterexample | TaskController.CreateInsertsOwnTask |
