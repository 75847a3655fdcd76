/**
 * The browser side of a session: the `AuthService` object keeps the access token, the
 * refresh token and the serialised user under three keys of `localStorage`, tells
 * whether the stored access token is still good, and refreshes it through the API.
 *
 * `JSON.stringify`/`JSON.parse` for the user, the token decoder and the API call are
 * parameters; the clock is the parameter `nowMs`, in milliseconds like `Date.now()`.
 */
module ClientSession {
  import opened Wrappers

  const ACCESS_TOKEN_KEY := "accessToken"
  const REFRESH_TOKEN_KEY := "refreshToken"
  const USER_KEY := "user"

  /** The keys the service owns; every other key belongs to someone else. */
  const SESSION_KEYS: set<string> := {ACCESS_TOKEN_KEY, REFRESH_TOKEN_KEY, USER_KEY}

  /** The claims the client reads back out of a token or out of storage. */
  datatype User = User(sub: string, email: string, name: string, picture: Option<string>, apps: map<string, string>)

  /** `JSON.stringify` and `JSON.parse` specialised to users; `parse` is `None` where it throws. */
  datatype UserJson = UserJson(stringify: User -> string, parse: string -> Option<User>)

  /**
   * What the JSON functions guarantee: a serialised user is never empty (it is an
   * object, `{...}`), parsing it gives the user back, and the text `"undefined"` (what
   * `localStorage.setItem` stores for an `undefined` value) is not JSON.
   */
  ghost predicate FollowsJson(json: UserJson) {
    && (forall u :: json.stringify(u) != "")
    && (forall u :: json.parse(json.stringify(u)) == Some(u))
    && json.parse("undefined") == None
  }

  /** What `jwtDecode` yields: nothing where it throws, else the `exp` claim in seconds, if any. */
  datatype Decoded = Decoded(exp: Option<int>)

  // ---------------------------------------------------------------- storage as a map

  /** `localStorage.getItem(key)`. */
  function Get(storage: map<string, string>, key: string): (r: Option<string>)
    ensures r.Some? <==> key in storage
    ensures r.Some? ==> r.value == storage[key]
  {
    if key in storage then Some(storage[key]) else None
  }

  /** The storage after `setTokens(accessToken, refreshToken)`. */
  function WithTokens(storage: map<string, string>, accessToken: string, refreshToken: string): map<string, string> {
    storage[ACCESS_TOKEN_KEY := accessToken][REFRESH_TOKEN_KEY := refreshToken]
  }

  /**
   * The text `setUser(user)` stores: the serialised user, or `"undefined"` when the
   * value passed is `undefined`.
   */
  function UserText(json: UserJson, user: Option<User>): string {
    match user
    case Some(u) => json.stringify(u)
    case None => "undefined"
  }

  /** The storage after `setUser(user)`. */
  function WithUser(storage: map<string, string>, json: UserJson, user: Option<User>): map<string, string> {
    storage[USER_KEY := UserText(json, user)]
  }

  /** The storage after `logout()`. */
  function WithoutSession(storage: map<string, string>): map<string, string> {
    storage - SESSION_KEYS
  }

  /** `getUser()` on a storage: nothing for a missing or empty entry or one that does not parse. */
  function UserIn(storage: map<string, string>, json: UserJson): (r: Option<User>)
    ensures USER_KEY !in storage ==> r == None
    ensures USER_KEY in storage && storage[USER_KEY] == "" ==> r == None
    ensures USER_KEY in storage && storage[USER_KEY] != "" ==> r == json.parse(storage[USER_KEY])
  {
    match Get(storage, USER_KEY)
    case None => None
    case Some(text) => if text == "" then None else json.parse(text)
  }

  /** `isTokenExpired(token)`: true when decoding fails, or when `exp * 1000 < Date.now()`. */
  function IsTokenExpired(token: string, decode: string -> Option<Decoded>, nowMs: int): (expired: bool)
    ensures decode(token).None? ==> expired
    ensures decode(token).Some? && decode(token).value.exp.None? ==> !expired
    ensures decode(token).Some? && decode(token).value.exp.Some? ==>
      (expired <==> decode(token).value.exp.value * 1000 < nowMs)
  {
    match decode(token)
    case None => true
    case Some(d) =>
      match d.exp
      case None => false
      case Some(exp) => exp * 1000 < nowMs
  }

  /** `decodeToken(token)`: the decoded claims, or nothing when `jwtDecode` throws. */
  function DecodeToken(token: string, decode: string -> Option<Decoded>): Option<Decoded> {
    decode(token)
  }

  /** A token `decodeToken` cannot read counts as expired. */
  lemma UndecodableIsExpired(token: string, decode: string -> Option<Decoded>, nowMs: int)
    requires DecodeToken(token, decode).None?
    ensures IsTokenExpired(token, decode, nowMs)
  {
  }

  /** The comparison is strict: a token is still good in the very millisecond of its `exp`, and expired after it. */
  lemma ExpiryBoundary(token: string, decode: string -> Option<Decoded>, exp: int)
    requires decode(token) == Some(Decoded(Some(exp)))
    ensures !IsTokenExpired(token, decode, exp * 1000)
    ensures IsTokenExpired(token, decode, exp * 1000 + 1)
  {
  }

  /** Once expired, a token stays expired as the clock moves on. */
  lemma ExpiryIsMonotone(token: string, decode: string -> Option<Decoded>, nowMs: int, laterMs: int)
    requires nowMs <= laterMs
    requires IsTokenExpired(token, decode, nowMs)
    ensures IsTokenExpired(token, decode, laterMs)
  {
  }

  /** `isAuthenticated()` on a storage: a non-empty access token is stored and has not expired. */
  function Authenticated(storage: map<string, string>, decode: string -> Option<Decoded>, nowMs: int): (r: bool)
    ensures r <==> (ACCESS_TOKEN_KEY in storage && storage[ACCESS_TOKEN_KEY] != ""
      && !IsTokenExpired(storage[ACCESS_TOKEN_KEY], decode, nowMs))
  {
    match Get(storage, ACCESS_TOKEN_KEY)
    case None => false
    case Some(token) => token != "" && !IsTokenExpired(token, decode, nowMs)
  }

  // ---------------------------------------------------------------- properties of the storage functions

  /** `setTokens` makes both tokens readable and touches no other key. */
  lemma SetTokensThenGet(storage: map<string, string>, accessToken: string, refreshToken: string)
    ensures var s := WithTokens(storage, accessToken, refreshToken);
      && Get(s, ACCESS_TOKEN_KEY) == Some(accessToken)
      && Get(s, REFRESH_TOKEN_KEY) == Some(refreshToken)
      && (forall k :: k != ACCESS_TOKEN_KEY && k != REFRESH_TOKEN_KEY ==> Get(s, k) == Get(storage, k))
  {
  }

  /** A stored user reads back as itself; an `undefined` user reads back as nothing. */
  lemma SetUserThenGet(storage: map<string, string>, json: UserJson, user: Option<User>)
    requires FollowsJson(json)
    ensures UserIn(WithUser(storage, json, user), json) == user
  {
    if user.Some? {
      assert json.parse(json.stringify(user.value)) == Some(user.value);
    }
  }

  /**
   * `logout` removes exactly the three session keys, leaves every other key as it was,
   * and a second `logout` changes nothing.
   */
  lemma LogoutRemovesExactlySession(storage: map<string, string>)
    ensures WithoutSession(storage).Keys == storage.Keys - SESSION_KEYS
    ensures forall k :: k in WithoutSession(storage) ==> WithoutSession(storage)[k] == storage[k]
    ensures WithoutSession(WithoutSession(storage)) == WithoutSession(storage)
    ensures Get(WithoutSession(storage), ACCESS_TOKEN_KEY) == None
    ensures Get(WithoutSession(storage), REFRESH_TOKEN_KEY) == None
    ensures forall json :: UserIn(WithoutSession(storage), json) == None
  {
  }

  /** After `logout` nobody is authenticated, whatever the clock and the decoder. */
  lemma LoggedOutIsNotAuthenticated(storage: map<string, string>, decode: string -> Option<Decoded>, nowMs: int)
    ensures !Authenticated(WithoutSession(storage), decode, nowMs)
  {
  }

  // ---------------------------------------------------------------- the service object

  /** The fields of the reply to a refresh request. */
  datatype RefreshData = RefreshData(accessToken: string, refreshToken: string, user: Option<User>)

  /**
   * How `apiService.refreshToken` ends: it throws (a non-2xx status or a network
   * error), or it yields `{success, data}`; a reply with `success` but no `data`
   * throws at `response.data.accessToken`.
   */
  datatype RefreshOutcome = Threw | Replied(success: bool, data: Option<RefreshData>)

  class AuthService {
    var storage: map<string, string>
    const json: UserJson
    const decode: string -> Option<Decoded>

    constructor (storage: map<string, string>, json: UserJson, decode: string -> Option<Decoded>)
      ensures this.storage == storage && this.json == json && this.decode == decode
    {
      this.storage := storage;
      this.json := json;
      this.decode := decode;
    }

    method SetTokens(accessToken: string, refreshToken: string)
      modifies this
      ensures storage == WithTokens(old(storage), accessToken, refreshToken)
    {
      storage := storage[ACCESS_TOKEN_KEY := accessToken];
      storage := storage[REFRESH_TOKEN_KEY := refreshToken];
    }

    function GetAccessToken(): (r: Option<string>)
      reads this
      ensures r.Some? <==> ACCESS_TOKEN_KEY in storage
      ensures r.Some? ==> r.value == storage[ACCESS_TOKEN_KEY]
    {
      Get(storage, ACCESS_TOKEN_KEY)
    }

    function GetRefreshToken(): (r: Option<string>)
      reads this
      ensures r.Some? <==> REFRESH_TOKEN_KEY in storage
      ensures r.Some? ==> r.value == storage[REFRESH_TOKEN_KEY]
    {
      Get(storage, REFRESH_TOKEN_KEY)
    }

    method SetUser(user: Option<User>)
      modifies this
      ensures storage == WithUser(old(storage), json, user)
    {
      storage := storage[USER_KEY := UserText(json, user)];
    }

    function GetUser(): (r: Option<User>)
      reads this
      ensures USER_KEY !in storage ==> r == None
      ensures USER_KEY in storage && storage[USER_KEY] == "" ==> r == None
      ensures USER_KEY in storage && storage[USER_KEY] != "" ==> r == json.parse(storage[USER_KEY])
    {
      UserIn(storage, json)
    }

    function IsAuthenticated(nowMs: int): (r: bool)
      reads this
      ensures r <==> (GetAccessToken().Some? && GetAccessToken().value != ""
        && !IsTokenExpired(GetAccessToken().value, decode, nowMs))
    {
      Authenticated(storage, decode, nowMs)
    }

    method Logout()
      modifies this
      ensures storage == WithoutSession(old(storage))
    {
      storage := storage - {ACCESS_TOKEN_KEY};
      storage := storage - {REFRESH_TOKEN_KEY};
      storage := storage - {USER_KEY};
    }

    /**
     * `refreshAccessToken()`: without a stored refresh token nothing is asked and nothing
     * changes; a call that throws logs out; a reply without `success` changes nothing;
     * a successful reply overwrites both tokens and the user.
     */
    method RefreshAccessToken(callApi: string -> RefreshOutcome) returns (ok: bool)
      modifies this
      ensures match Get(old(storage), REFRESH_TOKEN_KEY)
        case None => !ok && storage == old(storage)
        case Some(token) =>
          if token == "" then !ok && storage == old(storage)
          else match callApi(token)
            case Threw => !ok && storage == WithoutSession(old(storage))
            case Replied(success, data) =>
              if !success then !ok && storage == old(storage)
              else if data.None? then !ok && storage == WithoutSession(old(storage))
              else ok && storage == WithUser(WithTokens(old(storage), data.value.accessToken, data.value.refreshToken), json, data.value.user)
    {
      var refreshToken := GetRefreshToken();
      if refreshToken.None? || refreshToken.value == "" {
        return false;
      }
      var outcome := callApi(refreshToken.value);
      if outcome.Threw? || (outcome.success && outcome.data.None?) {
        Logout();
        return false;
      }
      if !outcome.success {
        return false;
      }
      SetTokens(outcome.data.value.accessToken, outcome.data.value.refreshToken);
      SetUser(outcome.data.value.user);
      ok := true;
    }
  }

  /**
   * After a successful refresh the service reads back exactly what the reply carried: the
   * new tokens, and the new user, or no user when the reply had none.
   */
  lemma RefreshedSessionReadsBack(storage: map<string, string>, json: UserJson, data: RefreshData)
    requires FollowsJson(json)
    ensures var s := WithUser(WithTokens(storage, data.accessToken, data.refreshToken), json, data.user);
      && Get(s, ACCESS_TOKEN_KEY) == Some(data.accessToken)
      && Get(s, REFRESH_TOKEN_KEY) == Some(data.refreshToken)
      && UserIn(s, json) == data.user
  {
    SetUserThenGet(WithTokens(storage, data.accessToken, data.refreshToken), json, data.user);
  }
}
