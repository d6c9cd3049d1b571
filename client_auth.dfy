/**
 * The front end's session store. It keeps the bearer token and the logged-in
 * user in the browser's local storage, under the keys "token" and "user", and
 * mirrors them in two observable subjects.
 *
 * Local storage is a map from keys to strings. The HTTP calls are out of the
 * model: the server's answer to a login is a parameter. JSON.stringify and
 * JSON.parse on user records are a codec that round-trips.
 */
module ClientAuth {
  import opened Common

  datatype UserInfo = UserInfo(id: int, username: string, email: string)

  datatype LoginRequest = LoginRequest(username: string, password: string)

  datatype RegisterRequest = RegisterRequest(username: string, email: string, password: string)

  datatype LoginResponse = LoginResponse(
    success: bool,
    token: Option<string>,
    message: Option<string>,
    user: Option<UserInfo>)

  datatype RegisterResponse = RegisterResponse(success: bool, message: Option<string>)

  /**
   * JSON.stringify and JSON.parse on user records. `parse` yields None where
   * JSON.parse would return null or throw.
   */
  datatype JsonCodec = JsonCodec(stringify: UserInfo -> string, parse: string -> Option<UserInfo>)

  /** Serialising a user gives a non-empty text that parses back to the same user. */
  ghost predicate RoundTrips(json: JsonCodec) {
    forall u :: json.stringify(u) != "" && json.parse(json.stringify(u)) == Some(u)
  }

  const TokenKey := "token"
  const UserKey := "user"

  /** JavaScript truthiness of a string that may be null: present and non-empty. */
  predicate Truthy(s: Option<string>) {
    s.Some? && s.value != ""
  }

  /** localStorage.getItem: the stored string, or null. */
  function GetItem(storage: map<string, string>, key: string): Option<string> {
    if key in storage then Some(storage[key]) else None
  }

  function TokenFromStorage(storage: map<string, string>): Option<string> {
    GetItem(storage, TokenKey)
  }

  /** The stored user, parsed. A missing or empty item gives null. */
  function UserFromStorage(json: JsonCodec, storage: map<string, string>): Option<UserInfo> {
    var item := GetItem(storage, UserKey);
    if Truthy(item) then json.parse(item.value) else None
  }

  /** The login side effect stores a response only if it succeeded and carries a non-empty token and a user. */
  predicate AcceptsLogin(response: LoginResponse) {
    response.success && Truthy(response.token) && response.user.Some?
  }

  /** Local storage after a login has stored `token` and `user`. */
  function StoreSession(json: JsonCodec, storage: map<string, string>, token: string, user: UserInfo): map<string, string> {
    storage[TokenKey := token][UserKey := json.stringify(user)]
  }

  /** Local storage after a logout has removed the token and the user. */
  function ClearSession(storage: map<string, string>): map<string, string> {
    storage - {TokenKey, UserKey}
  }

  /**
   * A stored session reads back as written. The token and the user are the
   * ones stored, the session counts as logged in, and every other key keeps
   * its value.
   */
  lemma StoredSessionReadsBack(json: JsonCodec, storage: map<string, string>, token: string, user: UserInfo)
    requires RoundTrips(json)
    requires token != ""
    ensures var stored := StoreSession(json, storage, token, user);
            && TokenFromStorage(stored) == Some(token)
            && Truthy(TokenFromStorage(stored))
            && UserFromStorage(json, stored) == Some(user)
            && forall key :: key != TokenKey && key != UserKey ==> GetItem(stored, key) == GetItem(storage, key)
  {
  }

  /** After a logout there is no token and no user, and every other key keeps its value. */
  lemma ClearedSessionIsLoggedOut(json: JsonCodec, storage: map<string, string>)
    ensures var cleared := ClearSession(storage);
            && TokenFromStorage(cleared) == None
            && !Truthy(TokenFromStorage(cleared))
            && UserFromStorage(json, cleared) == None
            && forall key :: key != TokenKey && key != UserKey ==> GetItem(cleared, key) == GetItem(storage, key)
  {
  }

  /** The client-side authentication service. */
  class AuthService {
    const json: JsonCodec
    var storage: map<string, string>
    var tokenSubject: Option<string>
    var currentUserSubject: Option<UserInfo>

    /** The two subjects hold what local storage holds. */
    ghost predicate Valid()
      reads this
    {
      && RoundTrips(json)
      && tokenSubject == TokenFromStorage(storage)
      && currentUserSubject == UserFromStorage(json, storage)
    }

    /** The subjects start from what local storage already holds. */
    constructor (json: JsonCodec, storage: map<string, string>)
      requires RoundTrips(json)
      ensures this.json == json && this.storage == storage
      ensures tokenSubject == TokenFromStorage(storage)
      ensures currentUserSubject == UserFromStorage(json, storage)
      ensures Valid()
    {
      this.json := json;
      this.storage := storage;
      tokenSubject := TokenFromStorage(storage);
      currentUserSubject := UserFromStorage(json, storage);
    }

    /**
     * Login posts `request` and, when the server's `response` arrives, stores
     * the token and the user and updates both subjects. It does so only for
     * an accepted response.
     */
    method Login(username: string, password: string, response: LoginResponse) returns (request: LoginRequest)
      modifies this
      ensures request == LoginRequest(username, password)
      ensures AcceptsLogin(response) ==>
                && storage == StoreSession(json, old(storage), response.token.value, response.user.value)
                && tokenSubject == response.token
                && currentUserSubject == response.user
      ensures !AcceptsLogin(response) ==>
                storage == old(storage) && tokenSubject == old(tokenSubject) && currentUserSubject == old(currentUserSubject)
      ensures AcceptsLogin(response) && RoundTrips(json) ==>
                IsLoggedIn() && GetToken() == response.token && GetCurrentUser() == response.user
      ensures old(Valid()) ==> Valid()
    {
      request := LoginRequest(username, password);
      if response.success && Truthy(response.token) && response.user.Some? {
        storage := storage[TokenKey := response.token.value];
        storage := storage[UserKey := json.stringify(response.user.value)];
        tokenSubject := response.token;
        currentUserSubject := response.user;
        if RoundTrips(json) {
          StoredSessionReadsBack(json, old(storage), response.token.value, response.user.value);
        }
      }
    }

    /** The request that register posts. Posting it changes neither storage nor the subjects. */
    method Register(username: string, email: string, password: string) returns (request: RegisterRequest)
      ensures request.username == username && request.email == email && request.password == password
    {
      request := RegisterRequest(username, email, password);
    }

    method Logout()
      modifies this
      ensures storage == ClearSession(old(storage))
      ensures tokenSubject == None && currentUserSubject == None
      ensures !IsLoggedIn() && GetToken() == None && GetCurrentUser() == None
      ensures old(Valid()) ==> Valid()
    {
      storage := storage - {TokenKey};
      storage := storage - {UserKey};
      tokenSubject := None;
      currentUserSubject := None;
      ClearedSessionIsLoggedOut(json, old(storage));
    }

    /** Logged in exactly when local storage holds a non-empty token. */
    function IsLoggedIn(): (r: bool)
      reads this
      ensures r <==> TokenKey in storage && storage[TokenKey] != ""
    {
      Truthy(GetToken())
    }

    /** The stored token, if any. Under the invariant it is the token subject's value. */
    function GetToken(): (r: Option<string>)
      reads this
      ensures r.Some? <==> TokenKey in storage
      ensures r.Some? ==> r.value == storage[TokenKey]
      ensures Valid() ==> r == tokenSubject
    {
      TokenFromStorage(storage)
    }

    /**
     * The stored user, parsed. A missing or empty item gives null. Under the
     * invariant it is the current-user subject's value.
     */
    function GetCurrentUser(): (r: Option<UserInfo>)
      reads this
      ensures r.Some? ==> UserKey in storage && storage[UserKey] != ""
      ensures UserKey in storage && storage[UserKey] != "" ==> r == json.parse(storage[UserKey])
      ensures Valid() ==> r == currentUserSubject
    {
      UserFromStorage(json, storage)
    }
  }
}
