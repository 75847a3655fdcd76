/**
 * The authentication endpoints as transitions over the database and the token store:
 * Google login, token verification for downstream applications, logout, `me` and the
 * permission refresh.
 */
module AuthController {
  import opened Wrappers
  import opened Http
  import opened JsText
  import opened Tables
  import opened AuthService

  datatype LoginUser = LoginUser(id: string, email: string, name: string, picture: Option<string>, apps: map<string, string>)
  datatype LoginData = LoginData(user: LoginUser, accessToken: string, refreshToken: string, details: seq<AccessRow>)
  datatype PublicUser = PublicUser(id: string, email: string, name: string, picture: Option<string>)
  datatype VerifyData = VerifyData(user: PublicUser, role: Option<string>, apps: map<string, string>)
  datatype MeData = MeData(user: PublicUser, apps: map<string, string>)
  datatype RefreshData = RefreshData(accessToken: string, refreshToken: string, apps: map<string, string>)

  /** `!x || typeof x !== 'string'` rejects exactly the values that are not non-empty strings. */
  predicate IsNonEmptyString(v: JsValue) {
    Truthy(v) && v.Str?
  }

  lemma NonEmptyStringMeans(v: JsValue)
    ensures IsNonEmptyString(v) <==> v.Str? && |v.s| > 0
  {
  }

  function PublicUserOf(p: Payload): PublicUser {
    PublicUser(p.sub, p.email, p.name, p.picture)
  }

  /**
   * POST /api/auth/google. `verifyGoogle` is Google's ID-token check (`None` when it
   * throws), `now` the clock in seconds, `newId` the identifier the database would
   * generate for a new user.
   */
  method GoogleLogin(cfg: Config, codec: JwtCodec, db: Database, store: TokenStore, token: JsValue,
                     verifyGoogle: string -> Option<GoogleIdentity>, now: int, newId: string)
    returns (reply: Reply<LoginData>)
    requires db.Valid()
    requires newId !in db.users
    modifies db, store
    ensures db.Valid()
    ensures db.assignments == old(db.assignments) && db.applications == old(db.applications) && db.roles == old(db.roles)
    ensures !IsNonEmptyString(token) ==>
      reply == Fail(400, "Google token is required") && db.users == old(db.users)
    ensures IsNonEmptyString(token) && verifyGoogle(token.s).None? ==>
      reply == Fail(500, "Authentication failed") && db.users == old(db.users)
    ensures reply.Fail? ==> store.slots == old(store.slots) && store.auditLog == old(store.auditLog)
    ensures reply.Fail? && reply.status == 403 ==>
      && reply.error == "Account is inactive"
      && IsNonEmptyString(token) && verifyGoogle(token.s).Some?
      && exists id :: id in db.users && MatchesLogin(db.users[id], verifyGoogle(token.s).value) && !db.users[id].isActive
    ensures reply.Ok? ==>
      var u := reply.data.user.id;
      var pair := TokenPair(reply.data.accessToken, reply.data.refreshToken);
      && IsNonEmptyString(token) && verifyGoogle(token.s).Some?
      && u in db.users && db.users[u].isActive && MatchesLogin(db.users[u], verifyGoogle(token.s).value)
      && reply.data.user.email == db.users[u].email && reply.data.user.name == db.users[u].name
      && reply.data.user.picture == (if u in old(db.users) then old(db.users)[u].picture else verifyGoogle(token.s).value.picture)
      && reply.data.details == db.AccessRowsFor(u)
      && reply.data.user.apps == AppsOf(reply.data.details)
      && pair == GenerateTokens(cfg, codec, Identity(u, reply.data.user.email, reply.data.user.name, reply.data.user.picture), reply.data.user.apps, now)
      && store.slots == old(store.slots)[u := pair]
      && store.auditLog == old(store.auditLog) + [AuditRow(u, pair.accessToken, pair.refreshToken, now + STORE_TTL, false)]
    ensures IsNonEmptyString(token) && verifyGoogle(token.s).Some? ==> reply.Ok? || reply == Fail(403, "Account is inactive")
    ensures IsNonEmptyString(token) && verifyGoogle(token.s).Some? ==>
      var g := verifyGoogle(token.s).value;
      if KnownUser(old(db.users), g) then
        exists id :: id in old(db.users) && MatchesLogin(old(db.users)[id], g)
          && db.users == old(db.users)[id := old(db.users)[id].(lastLoginAt := Some(now), picture := g.picture)]
          && (reply.Ok? ==> reply.data.user.id == id)
      else
        && db.users == old(db.users)[newId := NewUserRow(newId, g, db.defaultIsActive)]
        && (reply.Ok? ==> reply.data.user.id == newId)
  {
    if !IsNonEmptyString(token) {
      return Fail(400, "Google token is required");
    }
    var google := verifyGoogle(token.s);
    if google.None? {
      return Fail(500, "Authentication failed");
    }
    var user := FindOrCreateUser(db, google.value, now, newId);
    assert user.userId in db.users && db.users[user.userId].isActive == user.isActive;
    assert MatchesLogin(db.users[user.userId], google.value);
    if !user.isActive {
      return Fail(403, "Account is inactive");
    }
    var apps, details := GetUserApps(db, user.userId);
    var pair := GenerateTokens(cfg, codec, Identity(user.userId, user.email, user.name, user.picture), apps, now);
    store.StoreToken(user.userId, pair.accessToken, pair.refreshToken, now);
    reply := Ok(LoginData(LoginUser(user.userId, user.email, user.name, user.picture, apps), pair.accessToken, pair.refreshToken, details));
  }

  /**
   * `app_code && !payload.apps[app_code]` AS WRITTEN: the lookup also finds the members
   * every object inherits from `Object.prototype`, which are truthy.
   */
  predicate AppAccessAsWritten(apps: map<string, string>, appCode: string) {
    PropertyTruthy(GetProperty(apps, appCode))
  }

  /** The intended check: the token grants the application a non-empty role of its own. */
  predicate AppAccess(apps: map<string, string>, appCode: string) {
    PropertyTruthy(GetOwnProperty(apps, appCode))
  }

  /** Access is granted exactly by an own, non-empty role entry. */
  lemma AppAccessMeansRole(apps: map<string, string>, appCode: string)
    ensures AppAccess(apps, appCode) <==> appCode in apps && apps[appCode] != ""
  {
  }

  /**
   * As written, a token whose `apps` is empty passes the check for `app_code`
   * "constructor" (and every other inherited name); the intended check refuses it.
   */
  lemma PrototypeNameBypassesAppCheck()
    ensures AppAccessAsWritten(map[], "constructor")
    ensures !AppAccess(map[], "constructor")
    ensures forall name :: name in OBJECT_PROTOTYPE_NAMES ==> AppAccessAsWritten(map[], name)
  {
  }

  /** The two checks differ only on the inherited names. */
  lemma AppChecksAgreeOffPrototype(apps: map<string, string>, appCode: string)
    requires appCode !in OBJECT_PROTOTYPE_NAMES || appCode in apps
    ensures AppAccessAsWritten(apps, appCode) <==> AppAccess(apps, appCode)
  {
  }

  /**
   * POST /api/auth/verify. `verifyWithRevocation` stands for
   * `AuthService.verifyTokenWithRevocationCheck`, whose definition is not part of this model.
   */
  function VerifyTokenHandler(token: JsValue, appCode: JsValue, verifyWithRevocation: string -> VerifyOutcome): (reply: Reply<VerifyData>)
    ensures !IsNonEmptyString(token) ==> reply == Fail(400, "Token is required")
    ensures IsNonEmptyString(token) && Truthy(appCode) && !appCode.Str? ==> reply == Fail(400, "Invalid app_code")
    ensures IsNonEmptyString(token) && (!Truthy(appCode) || appCode.Str?) ==>
      var outcome := verifyWithRevocation(token.s);
      && (outcome.Expired? ==> reply == Fail(401, "Token expired"))
      && (outcome.Invalid? ==> reply == Fail(401, "Invalid token"))
      && (outcome.Verified? && IsNonEmptyString(appCode) && !AppAccess(outcome.payload.apps, appCode.s) ==>
            reply == Fail(403, "No access to this application"))
    ensures reply.Ok? ==>
      && IsNonEmptyString(token)
      && verifyWithRevocation(token.s).Verified?
      && var p := verifyWithRevocation(token.s).payload;
      && reply.data.user == PublicUserOf(p)
      && reply.data.apps == p.apps
      && (IsNonEmptyString(appCode) ==> appCode.s in p.apps && p.apps[appCode.s] != "" && reply.data.role == Some(p.apps[appCode.s]))
      && (!Truthy(appCode) ==> reply.data.role == None)
    ensures (&& IsNonEmptyString(token) && (!Truthy(appCode) || appCode.Str?)
             && verifyWithRevocation(token.s).Verified?
             && (!Truthy(appCode) || AppAccess(verifyWithRevocation(token.s).payload.apps, appCode.s)))
      ==> reply.Ok?
  {
    if !IsNonEmptyString(token) then Fail(400, "Token is required")
    else if Truthy(appCode) && !appCode.Str? then Fail(400, "Invalid app_code")
    else
      match verifyWithRevocation(token.s)
      case Expired => Fail(401, "Token expired")
      case Invalid => Fail(401, "Invalid token")
      case Verified(p) =>
        if Truthy(appCode) && !AppAccess(p.apps, appCode.s) then Fail(403, "No access to this application")
        else
          var role := if Truthy(appCode) then Some(p.apps[appCode.s]) else None;
          Ok(VerifyData(PublicUserOf(p), role, p.apps))
  }

  /** POST /api/auth/logout: revoke exactly the authenticated user's tokens. */
  method Logout(store: TokenStore, user: Option<Payload>) returns (reply: Reply<()>)
    modifies store
    ensures user.None? ==>
      reply == Fail(401, "Not authenticated") && store.slots == old(store.slots) && store.auditLog == old(store.auditLog)
    ensures user.Some? ==>
      && reply.Ok?
      && store.slots == old(store.slots) - {user.value.sub}
      && store.auditLog == FlagRevoked(old(store.auditLog), user.value.sub)
  {
    if user.None? {
      return Fail(401, "Not authenticated");
    }
    store.RevokeToken(user.value.sub);
    reply := Ok(());
  }

  /** GET /api/auth/me: the authenticated user's claims, unchanged. */
  function Me(user: Option<Payload>): (reply: Reply<MeData>)
    ensures user.None? <==> reply == Fail(401, "Not authenticated")
    ensures user.Some? ==> reply.Ok?
    ensures reply.Ok? ==>
      && reply.data.user.id == user.value.sub && reply.data.user.email == user.value.email
      && reply.data.user.name == user.value.name && reply.data.user.picture == user.value.picture
      && reply.data.apps == user.value.apps
  {
    match user
    case None => Fail(401, "Not authenticated")
    case Some(p) => Ok(MeData(PublicUserOf(p), p.apps))
  }

  /**
   * POST /api/auth/refresh-token: new tokens for the authenticated user, carrying the
   * application map resolved NOW rather than the one in the old claims, stored under the
   * same `sub` so that they supersede the previous pair.
   */
  method RefreshToken(cfg: Config, codec: JwtCodec, db: Database, store: TokenStore, user: Option<Payload>, now: int)
    returns (reply: Reply<RefreshData>)
    modifies store
    ensures user.None? ==>
      reply == Fail(401, "Not authenticated") && store.slots == old(store.slots) && store.auditLog == old(store.auditLog)
    ensures user.Some? ==> reply.Ok?
    ensures reply.Ok? ==>
      && user.Some?
      && var p := user.value;
      var pair := TokenPair(reply.data.accessToken, reply.data.refreshToken);
      && reply.data.apps == AppsOf(db.AccessRowsFor(p.sub))
      && pair == GenerateTokens(cfg, codec, Identity(p.sub, p.email, p.name, p.picture), reply.data.apps, now)
      && store.slots == old(store.slots)[p.sub := pair]
      && store.auditLog == old(store.auditLog) + [AuditRow(p.sub, pair.accessToken, pair.refreshToken, now + STORE_TTL, false)]
  {
    if user.None? {
      return Fail(401, "Not authenticated");
    }
    var p := user.value;
    var apps, _ := GetUserApps(db, p.sub);
    var pair := GenerateTokens(cfg, codec, Identity(p.sub, p.email, p.name, p.picture), apps, now);
    store.StoreToken(p.sub, pair.accessToken, pair.refreshToken, now);
    reply := Ok(RefreshData(pair.accessToken, pair.refreshToken, apps));
  }

  /**
   * After a refresh the new access token carries the freshly resolved map: a role edited
   * by an administrator since the old token was issued shows up in it.
   */
  lemma RefreshedTokenCarriesFreshApps(cfg: Config, codec: JwtCodec, p: Payload, current: map<string, string>, now: int, later: int)
    requires FollowsJwtLibrary(codec)
    requires now <= later < now + cfg.accessLifetime
    ensures var pair := GenerateTokens(cfg, codec, Identity(p.sub, p.email, p.name, p.picture), current, now);
      var outcome := VerifyToken(cfg, codec, pair.accessToken, later);
      outcome.Verified? && outcome.payload.apps == current && outcome.payload.sub == p.sub
  {
    AccessTokenRoundTrip(cfg, codec, Identity(p.sub, p.email, p.name, p.picture), current, now, later);
  }
}
