/**
 * The server-side account logic of the wallet backend: logging in against the
 * Users table, registering a new user, and hashing and verifying passwords.
 *
 * The Users table is an in-memory sequence of rows together with the next
 * value of its identity column. SHA-256 with Base64, and writing and checking
 * signed JSON Web Tokens, are library code. They are function-valued fields of
 * an `Environment`. Nothing is assumed about them except that they are
 * deterministic. The clock is the parameter `now`, in seconds since the epoch
 * (UTC).
 */
module BackendAuth {
  import opened Common

  /** A row of the Users table. */
  datatype User = User(
    id: int,
    username: string,
    email: string,
    passwordHash: string,
    createdAt: int,
    lastLogin: Option<int>,
    isActive: bool)

  /** The public projection of a user that a successful login returns. It has no password hash. */
  datatype UserInfo = UserInfo(id: int, username: string, email: string)

  datatype LoginRequest = LoginRequest(username: string, password: string)

  datatype RegisterRequest = RegisterRequest(username: string, email: string, password: string)

  datatype LoginResponse = LoginResponse(
    success: bool,
    token: Option<string>,
    message: Option<string>,
    user: Option<UserInfo>)

  /** The claims, expiry and signing key that are handed to the JWT library. */
  datatype TokenDescriptor = TokenDescriptor(
    nameIdentifier: int,
    name: string,
    email: string,
    usernameClaim: string,
    expires: int,
    signingKey: string)

  /**
   * What the service uses besides the Users table:
   * - `sha256Base64`: the Base64 text of the SHA-256 digest of a password's UTF-8 bytes;
   * - `writeJwt`: the compact serialisation of a token signed with HMAC-SHA256;
   * - `jwtAccepts(token, key)`: whether the JWT handler validates `token` against `key`
   *   without throwing;
   * - `configuration`: the application settings;
   * - `expirationMinutes`: the parsed value of the "Jwt:ExpirationMinutes" setting.
   */
  datatype Environment = Environment(
    sha256Base64: string -> string,
    writeJwt: TokenDescriptor -> string,
    jwtAccepts: (string, string) -> bool,
    configuration: map<string, string>,
    expirationMinutes: int)

  const MsgCredentialsRequired := "Username and password are required"
  const MsgInvalidCredentials := "Invalid username or password"
  const MsgAccountInactive := "User account is inactive"
  const MsgLoginSuccessful := "Login successful"

  const SecretKeySetting := "Jwt:SecretKey"
  const DefaultSecretKey := "your-256-bit-secret-key-for-jwt-authentication-here!"

  /** The duration of one minute in the model's clock unit. */
  const SecondsPerMinute := 60

  // ---------------------------------------------------------------------------
  // Passwords and tokens

  function HashPassword(env: Environment, password: string): string {
    env.sha256Base64(password)
  }

  predicate VerifyPassword(env: Environment, password: string, hash: string) {
    HashPassword(env, password) == hash
  }

  /** A password is accepted against the hash stored for it, and against no other stored hash. */
  lemma VerifyPasswordAgreesWithHash(env: Environment, password: string, hash: string)
    ensures VerifyPassword(env, password, HashPassword(env, password))
    ensures VerifyPassword(env, password, hash) ==> hash == HashPassword(env, password)
  {
  }

  /** The hash is collision-free on the passwords in question. */
  ghost predicate CollisionFree(env: Environment) {
    forall p, q :: env.sha256Base64(p) == env.sha256Base64(q) ==> p == q
  }

  /** For a collision-free hash, a password verifies against the hash of another password exactly when the two are equal. */
  lemma VerifyRejectsOtherPasswords(env: Environment, password: string, other: string)
    requires CollisionFree(env)
    ensures VerifyPassword(env, password, HashPassword(env, other)) <==> password == other
  {
  }

  /** The configured secret, even an empty one. The built-in default is used only when the setting is absent. */
  function GetSecretKey(configuration: map<string, string>): string {
    if SecretKeySetting in configuration then configuration[SecretKeySetting] else DefaultSecretKey
  }

  /**
   * The token descriptor built for `user` when the token is issued at time
   * `now`. Its claims name the user's public projection. Its expiry lies after
   * `now` exactly when the configured window is positive.
   */
  function DescriptorFor(env: Environment, user: User, now: int): (d: TokenDescriptor)
    ensures UserInfo(d.nameIdentifier, d.name, d.email) == Info(user) && d.usernameClaim == user.username
    ensures d.expires > now <==> env.expirationMinutes > 0
    ensures d.signingKey == GetSecretKey(env.configuration)
  {
    TokenDescriptor(
      user.id, user.username, user.email, user.username,
      now + SecondsPerMinute * env.expirationMinutes,
      GetSecretKey(env.configuration))
  }

  function GenerateJwtToken(env: Environment, user: User, now: int): string {
    env.writeJwt(DescriptorFor(env, user, now))
  }

  /**
   * The issued token depends only on the user's id, username and email. So
   * recording the login time before issuing it does not change the token.
   */
  lemma TokenDependsOnlyOnProjection(env: Environment, user: User, other: User, now: int)
    requires Info(user) == Info(other)
    ensures GenerateJwtToken(env, user, now) == GenerateJwtToken(env, other, now)
  {
    assert DescriptorFor(env, user, now) == DescriptorFor(env, other, now);
  }

  function Info(user: User): UserInfo {
    UserInfo(user.id, user.username, user.email)
  }

  function Rejection(message: string): LoginResponse {
    LoginResponse(false, None, Some(message), None)
  }

  // ---------------------------------------------------------------------------
  // Queries on the Users table

  /** The index of the first row that satisfies `p`, if there is one. */
  function FirstOrDefault(users: seq<User>, p: User -> bool): (r: Option<nat>)
    ensures r.Some? ==> r.value < |users| && p(users[r.value])
    ensures r.Some? ==> forall j :: 0 <= j < r.value ==> !p(users[j])
    ensures r.None? <==> forall j :: 0 <= j < |users| ==> !p(users[j])
  {
    if |users| == 0 then None
    else if p(users[0]) then Some(0)
    else match FirstOrDefault(users[1..], p)
      case None => None
      case Some(k) => Some(k + 1)
  }

  /** The first row whose username is `username`. */
  function FindByUsername(users: seq<User>, username: string): (r: Option<nat>)
    ensures r.Some? ==> r.value < |users| && users[r.value].username == username
    ensures r.Some? ==> forall j :: 0 <= j < r.value ==> users[j].username != username
    ensures r.None? <==> forall j :: 0 <= j < |users| ==> users[j].username != username
  {
    FirstOrDefault(users, (u: User) => u.username == username)
  }

  /** The first row that has `username` as its username or `email` as its email. */
  function FindByUsernameOrEmail(users: seq<User>, username: string, email: string): (r: Option<nat>)
    ensures r.Some? ==> r.value < |users|
    ensures r.Some? ==> users[r.value].username == username || users[r.value].email == email
    ensures r.None? <==> forall j :: 0 <= j < |users| ==> users[j].username != username && users[j].email != email
  {
    FirstOrDefault(users, (u: User) => u.username == username || u.email == email)
  }

  // ---------------------------------------------------------------------------
  // The store invariant

  /** Usernames, emails and ids are pairwise distinct, as the unique indexes and the key demand. */
  ghost predicate UniqueAccounts(users: seq<User>) {
    forall i, j :: 0 <= i < j < |users| ==>
      users[i].username != users[j].username &&
      users[i].email != users[j].email &&
      users[i].id != users[j].id
  }

  /** The accounts are unique, and every id is below the next identity value. */
  ghost predicate StoreInvariant(users: seq<User>, nextId: int) {
    UniqueAccounts(users) && forall i :: 0 <= i < |users| ==> users[i].id < nextId
  }

  /** When usernames are unique, the first row with a username is the only one. */
  lemma FindByUsernameUnique(users: seq<User>, username: string, k: nat)
    requires UniqueAccounts(users)
    requires k < |users|
    ensures FindByUsername(users, username) == Some(k) <==> users[k].username == username
  {
  }

  // ---------------------------------------------------------------------------
  // Login

  /** The response to a login and the Users table after it. */
  datatype LoginOutcome = LoginOutcome(response: LoginResponse, users: seq<User>)

  /**
   * Login. The checks run in a fixed order:
   * 1. both fields are non-empty;
   * 2. a user with that username exists and the password's hash matches the stored hash;
   * 3. the account is active.
   * A failed check answers with one message and leaves the table as it is.
   * An unknown user and a wrong password get the same response.
   * A login that passes all checks updates only the matched user's last login time.
   */
  function LoginResult(env: Environment, users: seq<User>, request: LoginRequest, now: int): (r: LoginOutcome)
    ensures !r.response.success ==> r.users == users
    ensures !r.response.success ==> r.response.token.None? && r.response.user.None?
    ensures request.username == "" || request.password == "" ==>
              r.response == Rejection(MsgCredentialsRequired)
    ensures request.username != "" && request.password != "" &&
            (forall j :: 0 <= j < |users| ==> users[j].username != request.username) ==>
              r.response == Rejection(MsgInvalidCredentials)
    ensures var found := FindByUsername(users, request.username);
            request.username != "" && request.password != "" && found.Some? ==>
              var user := users[found.value];
              && (!VerifyPassword(env, request.password, user.passwordHash) ==>
                    r.response == Rejection(MsgInvalidCredentials))
              && (VerifyPassword(env, request.password, user.passwordHash) && !user.isActive ==>
                    r.response == Rejection(MsgAccountInactive))
    ensures var found := FindByUsername(users, request.username);
            r.response.success <==>
              && request.username != "" && request.password != ""
              && found.Some?
              && VerifyPassword(env, request.password, users[found.value].passwordHash)
              && users[found.value].isActive
    ensures var found := FindByUsername(users, request.username);
            r.response.success ==>
              var k := found.value;
              && |r.users| == |users|
              && (forall j :: 0 <= j < |users| && j != k ==> r.users[j] == users[j])
              && r.users[k] == users[k].(lastLogin := Some(now))
              && r.response.token == Some(GenerateJwtToken(env, r.users[k], now))
              && r.response.message == Some(MsgLoginSuccessful)
              && r.response.user == Some(UserInfo(users[k].id, users[k].username, users[k].email))
    ensures UniqueAccounts(users) && r.response.success ==>
              var k := FindByUsername(users, request.username).value;
              forall j :: 0 <= j < |users| ==> (users[j].username == request.username <==> j == k)
  {
    if request.username == "" || request.password == "" then
      LoginOutcome(Rejection(MsgCredentialsRequired), users)
    else match FindByUsername(users, request.username)
      case None => LoginOutcome(Rejection(MsgInvalidCredentials), users)
      case Some(k) =>
        var user := users[k];
        if !VerifyPassword(env, request.password, user.passwordHash) then
          LoginOutcome(Rejection(MsgInvalidCredentials), users)
        else if !user.isActive then
          LoginOutcome(Rejection(MsgAccountInactive), users)
        else
          var updated := user.(lastLogin := Some(now));
          var token := GenerateJwtToken(env, updated, now);
          LoginOutcome(
            LoginResponse(true, Some(token), Some(MsgLoginSuccessful), Some(Info(updated))),
            users[k := updated])
  }

  /** A login keeps usernames, emails and ids unique and below the next identity value. */
  lemma LoginPreservesInvariant(env: Environment, users: seq<User>, nextId: int, request: LoginRequest, now: int)
    requires StoreInvariant(users, nextId)
    ensures StoreInvariant(LoginResult(env, users, request, now).users, nextId)
  {
  }

  /** A successful login leaves the credentials and the active flag as they were, so the same login succeeds again later. */
  lemma LoginSucceedsAgain(env: Environment, users: seq<User>, request: LoginRequest, now: int, later: int)
    requires LoginResult(env, users, request, now).response.success
    ensures var after := LoginResult(env, users, request, now);
            LoginResult(env, after.users, request, later).response.success
  {
  }

  // ---------------------------------------------------------------------------
  // Registration

  /** Whether a registration succeeded, and the Users table and next identity value after it. */
  datatype RegisterOutcome = RegisterOutcome(ok: bool, users: seq<User>, nextId: int)

  /** The row that registering `request` at time `now` inserts with identity `id`. */
  function NewUser(env: Environment, request: RegisterRequest, id: int, now: int): User {
    User(id, request.username, request.email, HashPassword(env, request.password), now, None, true)
  }

  /**
   * Registration. It succeeds exactly when all three fields are non-empty and
   * no row already has the username or the email. On success it appends one
   * active row with the hashed password. Otherwise it changes nothing.
   */
  function RegisterResult(env: Environment, users: seq<User>, nextId: int, request: RegisterRequest, now: int): (r: RegisterOutcome)
    ensures r.ok <==>
              && request.username != "" && request.email != "" && request.password != ""
              && forall j :: 0 <= j < |users| ==>
                   users[j].username != request.username && users[j].email != request.email
    ensures !r.ok ==> r.users == users && r.nextId == nextId
    ensures r.ok ==> r.users == users + [NewUser(env, request, nextId, now)] && r.nextId == nextId + 1
  {
    if request.username == "" || request.email == "" || request.password == "" then
      RegisterOutcome(false, users, nextId)
    else if FindByUsernameOrEmail(users, request.username, request.email).Some? then
      RegisterOutcome(false, users, nextId)
    else
      RegisterOutcome(true, users + [NewUser(env, request, nextId, now)], nextId + 1)
  }

  /** Registration keeps usernames, emails and ids unique and below the next identity value. */
  lemma RegisterPreservesInvariant(env: Environment, users: seq<User>, nextId: int, request: RegisterRequest, now: int)
    requires StoreInvariant(users, nextId)
    ensures var r := RegisterResult(env, users, nextId, request, now);
            StoreInvariant(r.users, r.nextId)
  {
  }

  /** After a successful registration, a second one with the same username or the same email fails. */
  lemma RegisterRejectsDuplicates(env: Environment, users: seq<User>, nextId: int, first: RegisterRequest, second: RegisterRequest, now: int, later: int)
    requires RegisterResult(env, users, nextId, first, now).ok
    requires second.username == first.username || second.email == first.email
    ensures var r := RegisterResult(env, users, nextId, first, now);
            !RegisterResult(env, r.users, r.nextId, second, later).ok
  {
    var r := RegisterResult(env, users, nextId, first, now);
    assert r.users[|users|] == NewUser(env, first, nextId, now);
  }

  /**
   * Registering and then logging in with the same username and password
   * succeeds. The response carries the new row's id, username and email.
   */
  lemma RegisterThenLogin(env: Environment, users: seq<User>, nextId: int, request: RegisterRequest, now: int, later: int)
    requires RegisterResult(env, users, nextId, request, now).ok
    ensures var registered := RegisterResult(env, users, nextId, request, now);
            var login := LoginResult(env, registered.users, LoginRequest(request.username, request.password), later);
            && login.response.success
            && login.response.user == Some(UserInfo(nextId, request.username, request.email))
            && login.users == users + [NewUser(env, request, nextId, now).(lastLogin := Some(later))]
  {
    var registered := RegisterResult(env, users, nextId, request, now);
    var found := FindByUsername(registered.users, request.username);
    assert registered.users[|users|].username == request.username;
    assert found == Some(|users|) by {
      assert found.Some?;
    }
    var login := LoginResult(env, registered.users, LoginRequest(request.username, request.password), later);
    assert login.users == users + [NewUser(env, request, nextId, now).(lastLogin := Some(later))];
  }

  // ---------------------------------------------------------------------------
  // The service

  /** The authentication service over the Users table. */
  class AuthService {
    const env: Environment
    var users: seq<User>
    var nextId: int

    ghost predicate Valid()
      reads this
    {
      StoreInvariant(users, nextId)
    }

    /**
     * A service over the Users table as the database holds it. The rows may
     * include inactive accounts. The unique indexes keep usernames and emails
     * distinct, and the identity column is above every id.
     */
    constructor (env: Environment, users: seq<User>, nextId: int)
      requires StoreInvariant(users, nextId)
      ensures this.env == env && this.users == users && this.nextId == nextId
      ensures Valid()
    {
      this.env := env;
      this.users := users;
      this.nextId := nextId;
    }

    method Login(request: LoginRequest, now: int) returns (response: LoginResponse)
      modifies this
      ensures var outcome := LoginResult(env, old(users), request, now);
              response == outcome.response && users == outcome.users
      ensures nextId == old(nextId)
      ensures old(Valid()) ==> Valid()
    {
      if request.username == "" || request.password == "" {
        return Rejection(MsgCredentialsRequired);
      }
      var found := FindByUsername(users, request.username);
      if found.None? || !VerifyPassword(env, request.password, users[found.value].passwordHash) {
        return Rejection(MsgInvalidCredentials);
      }
      var user := users[found.value];
      if !user.isActive {
        return Rejection(MsgAccountInactive);
      }
      ghost var before := users;
      user := user.(lastLogin := Some(now));
      users := users[found.value := user];
      var token := GenerateJwtToken(env, user, now);
      response := LoginResponse(true, Some(token), Some(MsgLoginSuccessful), Some(Info(user)));
      if StoreInvariant(before, nextId) {
        LoginPreservesInvariant(env, before, nextId, request, now);
      }
    }

    method Register(request: RegisterRequest, now: int) returns (ok: bool)
      modifies this
      ensures var outcome := RegisterResult(env, old(users), old(nextId), request, now);
              ok == outcome.ok && users == outcome.users && nextId == outcome.nextId
      ensures old(Valid()) ==> Valid()
    {
      if request.username == "" || request.email == "" || request.password == "" {
        return false;
      }
      var existing := FindByUsernameOrEmail(users, request.username, request.email);
      if existing.Some? {
        return false;
      }
      ghost var before, beforeId := users, nextId;
      users := users + [NewUser(env, request, nextId, now)];
      nextId := nextId + 1;
      ok := true;
      if StoreInvariant(before, beforeId) {
        RegisterPreservesInvariant(env, before, beforeId, request, now);
      }
    }

    /**
     * Token validation never fails. Any error inside the JWT handler is
     * reported as `false`; the handler itself is the function value `jwtAccepts`.
     */
    function ValidateToken(token: string): bool {
      env.jwtAccepts(token, GetSecretKey(env.configuration))
    }
  }
}
