# Wallet authentication: a Dafny model

This project models the account logic of a small wallet application. It has
three parts:

- **The backend authentication service** (`backend_auth.dfy`, module `BackendAuth`).
  It keeps the Users table as a sequence of rows and the next value of the
  table's identity column, both in a class.
  - Login checks, in a fixed order, that both fields are filled in, that the
    user exists and the password's hash matches, and that the account is
    active. Only then does it record the login time and issue a token.
  - Registration checks that all three fields are filled in and that the
    username and the email are both new. Only then does it insert an active
    row with the hashed password.
  - Both are class methods. Each is proved equal to a specification function
    (`LoginResult`, `RegisterResult`). The properties are proved about those
    functions: the case-by-case outcomes, that nothing else changes, that the
    uniqueness invariant of the store is kept, and that a login right after a
    registration succeeds.
- **The registration form** (`register_form.dfy`, module `RegisterForm`).
  Submitting runs a chain of checks: the fields are filled in, the username is
  at least 3 characters, the password is at least 6, the confirmation matches,
  and the email has the expected shape. The first check that fails sets its
  message. The email rule is a regular language. It is stated as a language
  over strings and as a check by index, and a lemma proves the two equal.
- **The client session store** (`client_auth.dfy`, module `ClientAuth`).
  Local storage is a `map<string, string>` with the keys `token` and `user`.
  Two subjects mirror it. Login stores both keys only for an accepted
  response, and logout removes both. "Logged in" means that a non-empty token
  is stored.

Library primitives are function values whose behaviour is not modelled. They
are SHA-256 with Base64, writing a signed JSON Web Token, validating one, and
JSON stringify/parse. The clock (`DateTime.UtcNow`) is the parameter `now`,
in seconds. The HTTP answers that the front end reacts to are parameters too.

## Model

| member | source | states |
|---|---|---|
| `BackendAuth.VerifyPasswordAgreesWithHash` | Backend/Services/AuthService.cs:190-203 | A password verifies against its own hash, and a hash it verifies against is its hash. |
| `BackendAuth.VerifyRejectsOtherPasswords` | Backend/Services/AuthService.cs:190-203 | With a collision-free hash, a password verifies against another password's hash exactly when the two passwords are equal. |
| `BackendAuth.FirstOrDefault` | Backend/Services/AuthService.cs:71 | The query answers the index of the first row satisfying the predicate, or nothing exactly when no row does. |
| `BackendAuth.FindByUsername` | Backend/Services/AuthService.cs:71 | The lookup by username finds the first row with that exact username, or nothing exactly when no row has it. |
| `BackendAuth.FindByUsernameOrEmail` | Backend/Services/AuthService.cs:122 | The existence check finds a row sharing the username or the email, or nothing exactly when every row differs in both. |
| `BackendAuth.FindByUsernameUnique` | Backend/Data/ApplicationDbContext.cs:29-30 | When usernames are unique, the lookup finds row k exactly when row k has the username. |
| `BackendAuth.LoginResult` | Backend/Services/AuthService.cs:58-111 | Empty username or password gives "Username and password are required". An unknown user and a wrong password both give "Invalid username or password". A correct password on an inactive account gives "User account is inactive". Every failure leaves the table unchanged and has no token or user. Success happens exactly when all checks pass. On success only the matched row's last login becomes `now`. The response then has the token, "Login successful" and the row's id, username and email. When usernames are unique, the matched row is the only one with that username. |
| `BackendAuth.DescriptorFor` | Backend/Services/AuthService.cs:167-184 | The token's claims carry the user's id, username and email and the username claim. It is signed with the configured secret. Its expiry, `now` plus the configured minutes, lies after the issue time exactly when the window is positive. This is a fact about the descriptor only: whether the library then issues the token is not modelled (see Left out). |
| `BackendAuth.TokenDependsOnlyOnProjection` | Backend/Services/AuthService.cs:167-188 | Two users with the same id, username and email get the same token at the same time. So updating the last login before issuing the token does not affect it. |
| `BackendAuth.LoginPreservesInvariant` | Backend/Services/AuthService.cs:91-94 | A login keeps usernames, emails and ids pairwise distinct and every id below the next identity value. |
| `BackendAuth.LoginSucceedsAgain` | Backend/Services/AuthService.cs:71-110 | After a successful login, the same login succeeds again at any later time. |
| `BackendAuth.RegisterResult` | Backend/Services/AuthService.cs:113-141 | Registration succeeds exactly when all three fields are non-empty and no row has the username or the email. A failure leaves the table and the identity counter unchanged. A success appends exactly one row with the next id, the given username and email, the password's hash, creation time `now`, no last login and active set. |
| `BackendAuth.RegisterPreservesInvariant` | Backend/Services/AuthService.cs:121-140 | Registration keeps usernames, emails and ids pairwise distinct and every id below the next identity value. |
| `BackendAuth.RegisterRejectsDuplicates` | Backend/Services/AuthService.cs:121-126 | After a successful registration, a second one with the same username or the same email fails. |
| `BackendAuth.RegisterThenLogin` | Backend/Services/AuthService.cs:129-140 | After a successful registration, logging in with the same username and password succeeds. It returns the new id, username and email and sets only the new row's last login. |
| `BackendAuth.AuthService.constructor` | Backend/Services/AuthService.cs:52-56 | The service wraps the Users table as the database holds it, including any inactive accounts. It needs only what the unique indexes and the identity column guarantee, and it establishes the store invariant. |
| `BackendAuth.AuthService.Login` | Backend/Services/AuthService.cs:58-111 | The response and the new table are those of `LoginResult` on the old table. The identity counter is unchanged, and the store invariant is kept. |
| `BackendAuth.AuthService.Register` | Backend/Services/AuthService.cs:113-141 | The result, the new table and the new counter are those of `RegisterResult` on the old state, and the store invariant is kept. |
| `RegisterForm.Utf16Length` | Frontend/src/app/components/register/register.ts:47 | The JavaScript length lies between the number of characters and twice that. It equals the number of characters exactly when every character is in the Basic Multilingual Plane. |
| `RegisterForm.IsValidEmailMatchesPattern` | Frontend/src/app/components/register/register.ts:63-64 | The index check accepts exactly the strings of the form run "@" run "." run, where each run is non-empty and has no white space and no '@'. |
| `RegisterForm.FirstValidationError` | Frontend/src/app/components/register/register.ts:42-67 | No error exactly when every check passes. Each message is reported exactly when its check fails and all earlier checks pass: emptiness, username length < 3, password length < 6, password differs from the confirmation, email shape. |
| `RegisterForm.OrElse` | Frontend/src/app/components/register/register.ts:75 | The shown message is the server's text or the fallback. A non-empty server text wins, and with a non-empty fallback the message is never empty. |
| `RegisterForm.RegisterComponent.constructor` | Frontend/src/app/components/register/register.ts:15-22 | The form starts with empty inputs and messages, not loading and not submitted. |
| `RegisterForm.RegisterComponent.OnSubmit` | Frontend/src/app/components/register/register.ts:36-71 | Submitting always marks the form submitted and clears the success message, and leaves the inputs unchanged. If a check fails, the error is the first failing check's message, loading is unchanged and nothing is posted. Otherwise the error is empty, loading is set and the three fields are posted. |
| `RegisterForm.RegisterComponent.OnRegisterResponse` | Frontend/src/app/components/register/register.ts:72-84 | Loading ends. On success the success message is set and the form is reset. On failure only the error message is set. |
| `RegisterForm.RegisterComponent.OnRegisterError` | Frontend/src/app/components/register/register.ts:85-89 | Loading ends and the error becomes "Registration failed. Please try again.". Nothing else changes. |
| `RegisterForm.RegisterComponent.ResetForm` | Frontend/src/app/components/register/register.ts:93-99 | The four inputs are emptied and `submitted` is cleared. The messages and `loading` are unchanged. |
| `ClientAuth.StoredSessionReadsBack` | Frontend/src/app/services/auth.service.ts:50-56 | After storing a non-empty token and a user, reading back gives that token and that user, the session counts as logged in, and every other key is untouched. |
| `ClientAuth.ClearedSessionIsLoggedOut` | Frontend/src/app/services/auth.service.ts:65-70 | After removing both keys there is no token and no user, the session is not logged in, and every other key is untouched. |
| `ClientAuth.AuthService.constructor` | Frontend/src/app/services/auth.service.ts:40-43 | Both subjects start from what local storage holds. |
| `ClientAuth.AuthService.Login` | Frontend/src/app/services/auth.service.ts:47-59 | The username and password are posted. Storage and both subjects change only when the response succeeded with a non-empty token and a user. Then both keys are written, the subjects hold the token and the user, and `IsLoggedIn`, `GetToken` and `GetCurrentUser` return them. Otherwise nothing changes. |
| `ClientAuth.AuthService.Register` | Frontend/src/app/services/auth.service.ts:61-63 | The three fields are posted, and storage and both subjects are untouched, since the method may modify nothing. |
| `ClientAuth.AuthService.Logout` | Frontend/src/app/services/auth.service.ts:65-70 | Both keys are removed and both subjects become null. Afterwards `IsLoggedIn` is false and `GetToken` and `GetCurrentUser` are null. |
| `ClientAuth.AuthService.GetToken` | Frontend/src/app/services/auth.service.ts:76-78 | The stored token, present exactly when the key is stored. When the subjects mirror storage, it equals the token subject's value. After a login with an accepted response it is that response's token (`Login`, `StoredSessionReadsBack`), and after a logout it is null (`Logout`, `ClearedSessionIsLoggedOut`). |
| `ClientAuth.AuthService.GetCurrentUser` | Frontend/src/app/services/auth.service.ts:80-91 | The stored user item, parsed. A missing or empty item gives null. When the subjects mirror storage, it equals the current-user subject's value. After a login with an accepted response it is that response's user, and after a logout it is null. |
| `ClientAuth.AuthService.IsLoggedIn` | Frontend/src/app/services/auth.service.ts:72-74 | True exactly when local storage holds a non-empty token. |

## Left out

- SHA-256 and Base64 inside `HashPassword`: the hash is a function value. So the model cannot show that a stored hash is never empty or differs from the plaintext. Distinct passwords give distinct hashes only under the stated collision-freedom assumption.
- Creating and validating JSON Web Tokens (HMAC-SHA256 signing, expiry, `ClockSkew`): library code. The model builds the claims, the expiry (`now` plus the configured minutes) and the signing key. Writing the token and validating it are function values. `ValidateToken` is a total function: the source catches every exception and answers false. So the model cannot show that a freshly issued token validates, or that an expired one does not.
- Parsing "Jwt:ExpirationMinutes" with `int.Parse`: the parsed number is a field of the environment. The default of 60 and the parse failure are not modelled.
- LoginResult: issuing the token is modelled as total, so a login that passes every check always succeeds. In the source, the last-login update is saved (Backend/Services/AuthService.cs:92-94) before the token is issued (:97), and issuing can throw: `int.Parse` of a malformed expiry setting (:171), an empty secret, which gives a zero-length signing key, and a window of zero or fewer minutes, which gives an expiry no later than the token's start. In those cases the source's login ends in an exception after the table has changed, while the model answers success.
- GetSecretKey: configuration plumbing with no contract of its own (the configured value, else the built-in default). It is stated only through `DescriptorFor`'s signing key. The ASCII encoding of the key into bytes is not modelled.
- ValidateToken: an abstract total predicate over the function value `jwtAccepts`. The model does not promise that a live token issued by the service validates, nor that an expired or wrongly signed token is rejected.
- The database: Entity Framework, `async`/`await`, `SaveChangesAsync` and storage errors. The table is an in-memory sequence, and the identity column is a counter above every existing id, starting wherever the database left it. The column limits (100 characters for the username, 255 for the email, Backend/Data/ApplicationDbContext.cs:22-23) are not modelled: a longer value makes the source's insert throw, while the model's `Register` succeeds.
- The race between two concurrent registrations with the same username or email: this is concurrency, and the database's unique indexes decide it.
- String comparison: usernames and emails compare by exact, case-sensitive equality. The database's comparison is not modelled: its collation may ignore case, and SQL Server's `=` and its unique indexes ignore trailing spaces. So the source rejects registering "alice " next to "alice" and logs "alice " in as "alice", while the model accepts the registration and rejects the login.
- Null strings: request fields are never null in the model, so `string.IsNullOrEmpty` is an emptiness test.
- The clock: both reads of `DateTime.UtcNow` during one login are the same `now`. Nothing orders successive values of `now`, so the model does not claim that `lastLogin` only grows.
- The front end's HTTP calls, observables, `setTimeout`, router navigation and `console.error`: a request is an out-parameter and the server's answer is a parameter.
- `JSON.stringify`/`JSON.parse`: a codec assumed to round-trip and to give non-empty text. If another party writes an unparsable `user` item, the model answers null where the browser would throw.
- The email regular expression runs in JavaScript on UTF-16 code units. The model matches on characters. The answer is the same, because both surrogate halves of a character fall in `[^\s@]`.
- `ngOnInit` of the registration form: it only navigates away when already logged in.
