/**
 * The backend's token service: the startup secret check, permission resolution
 * (`getUserApps`), token issuance (`generateTokens`), the per-user token slot with its
 * audit log (`storeToken`, `revokeToken`), signature verification (`verifyToken`) and
 * `findOrCreateUser`.
 *
 * Signing and verifying JSON Web Tokens is left to a library; here it is a record of
 * functions (`JwtCodec`) and `FollowsJwtLibrary` states what the model relies on: the
 * registered claims `sub`, `iat` and `exp` of RFC 7519 (sections 4.1.2, 4.1.6 and
 * 4.1.4), a token verifies only under the secret that signed it, and it is expired
 * from the second `exp` on.
 */
module AuthService {
  import opened Wrappers
  import opened JsText
  import opened Tables

  const SECONDS_PER_DAY := 24 * 60 * 60
  /** `JWT_EXPIRES_IN` when the variable is unset: '7d'. */
  const DEFAULT_ACCESS_LIFETIME := 7 * SECONDS_PER_DAY
  /** `JWT_REFRESH_EXPIRES_IN` when the variable is unset: '30d'. */
  const DEFAULT_REFRESH_LIFETIME := 30 * SECONDS_PER_DAY
  /** The Redis TTL of `token:<userId>` and the audit row's `expires_at` offset, fixed at 7 days. */
  const STORE_TTL := 7 * 24 * 60 * 60

  /**
   * The process environment as the module reads it at load time. A secret is `None`
   * when the variable is unset; a lifetime is `None` when unset or empty (both fall back
   * to the default through `||`) and is otherwise already converted to seconds.
   */
  datatype Environment = Environment(
    jwtSecret: Option<string>,
    jwtRefreshSecret: Option<string>,
    jwtExpiresIn: Option<nat>,
    jwtRefreshExpiresIn: Option<nat>)

  datatype RawConfig = RawConfig(accessSecret: string, refreshSecret: string, accessLifetime: nat, refreshLifetime: nat)

  /** A configuration the service can run with: both secrets present and non-empty. */
  type Config = c: RawConfig | c.accessSecret != "" && c.refreshSecret != "" witness RawConfig("a", "r", 0, 0)

  /** `!process.env.X` holds for an unset variable and for the empty string. */
  predicate SecretPresent(v: Option<string>) {
    v.Some? && v.value != ""
  }

  /**
   * Module initialisation: without both secrets the process exits (the `Failure`),
   * so no configuration, and hence no token, exists.
   */
  function LoadConfig(env: Environment): (r: Result<Config, string>)
    ensures r.Success? <==> SecretPresent(env.jwtSecret) && SecretPresent(env.jwtRefreshSecret)
    ensures r.Success? ==> r.value.accessSecret == env.jwtSecret.value && r.value.refreshSecret == env.jwtRefreshSecret.value
    ensures r.Success? && env.jwtExpiresIn.None? ==> r.value.accessLifetime == DEFAULT_ACCESS_LIFETIME
    ensures r.Success? && env.jwtRefreshExpiresIn.None? ==> r.value.refreshLifetime == DEFAULT_REFRESH_LIFETIME
    ensures r.Success? && env.jwtExpiresIn.Some? ==> r.value.accessLifetime == env.jwtExpiresIn.value
    ensures r.Success? && env.jwtRefreshExpiresIn.Some? ==> r.value.refreshLifetime == env.jwtRefreshExpiresIn.value
  {
    if !SecretPresent(env.jwtSecret) || !SecretPresent(env.jwtRefreshSecret) then
      var exit: Result<Config, string> := Failure("FATAL: JWT_SECRET and JWT_REFRESH_SECRET environment variables are required");
      exit
    else
      var access := match env.jwtExpiresIn case Some(n) => n case None => DEFAULT_ACCESS_LIFETIME;
      var refresh := match env.jwtRefreshExpiresIn case Some(n) => n case None => DEFAULT_REFRESH_LIFETIME;
      var cfg: Config := RawConfig(env.jwtSecret.value, env.jwtRefreshSecret.value, access, refresh);
      Success(cfg)
  }

  /** With nothing set but the secrets, tokens live 7 and 30 days, the refresh token longer. */
  lemma DefaultLifetimes(accessSecret: string, refreshSecret: string)
    requires accessSecret != "" && refreshSecret != ""
    ensures var r := LoadConfig(Environment(Some(accessSecret), Some(refreshSecret), None, None));
      && r.Success?
      && r.value.accessLifetime == 604800
      && r.value.refreshLifetime == 2592000
      && r.value.accessLifetime < r.value.refreshLifetime
  {
  }

  /** The fields of a `users` row that `generateTokens` reads. */
  datatype Identity = Identity(userId: string, email: string, name: string, picture: Option<string>)

  /** The access token's private claims; `sub` is `user_id`. */
  datatype AccessClaims = AccessClaims(sub: string, email: string, name: string, picture: Option<string>, apps: map<string, string>)

  /** A verified access token: its claims with the registered `iat` and `exp`, in seconds. */
  datatype Payload = Payload(sub: string, email: string, name: string, picture: Option<string>, apps: map<string, string>, iat: int, exp: int)

  datatype VerifyOutcome = Verified(payload: Payload) | Expired | Invalid

  datatype TokenPair = TokenPair(accessToken: string, refreshToken: string)

  /** `jwt.sign` for the two token kinds (claims, iat, exp, secret) and `jwt.verify` (token, secret, now). */
  datatype JwtCodec = JwtCodec(
    signAccess: (AccessClaims, int, int, string) -> string,
    signRefresh: (string, int, int, string) -> string,
    verify: (string, string, int) -> VerifyOutcome)

  function PayloadOf(c: AccessClaims, iat: int, exp: int): Payload {
    Payload(c.sub, c.email, c.name, c.picture, c.apps, iat, exp)
  }

  /**
   * What the model assumes of the JWT library: the signature is checked first (a token
   * signed under another secret is invalid, expired or not), then `exp`.
   */
  ghost predicate FollowsJwtLibrary(codec: JwtCodec) {
    && (forall c, iat, exp, key, key', now :: codec.verify(codec.signAccess(c, iat, exp, key), key', now) ==
          if key' != key then Invalid
          else if now >= exp then Expired
          else Verified(PayloadOf(c, iat, exp)))
    && (forall sub, iat, exp, key, key', now :: key' != key ==> codec.verify(codec.signRefresh(sub, iat, exp, key), key', now) == Invalid)
  }

  /** `generateTokens(user, apps)` at `now` (seconds). */
  function GenerateTokens(cfg: Config, codec: JwtCodec, user: Identity, apps: map<string, string>, now: int): TokenPair {
    var claims := AccessClaims(user.userId, user.email, user.name, user.picture, apps);
    TokenPair(
      codec.signAccess(claims, now, now + cfg.accessLifetime, cfg.accessSecret),
      codec.signRefresh(user.userId, now, now + cfg.refreshLifetime, cfg.refreshSecret))
  }

  /** `verifyToken(token)`: `jwt.verify` under the access secret. */
  function VerifyToken(cfg: Config, codec: JwtCodec, token: string, now: int): VerifyOutcome {
    codec.verify(token, cfg.accessSecret, now)
  }

  /**
   * Round trip: until its expiry an issued access token verifies to exactly the identity
   * and the application map it was issued with (the empty map included); from then on it
   * is expired.
   */
  lemma AccessTokenRoundTrip(cfg: Config, codec: JwtCodec, user: Identity, apps: map<string, string>, now: int, later: int)
    requires FollowsJwtLibrary(codec)
    ensures var outcome := VerifyToken(cfg, codec, GenerateTokens(cfg, codec, user, apps, now).accessToken, later);
      if later < now + cfg.accessLifetime then
        && outcome.Verified?
        && outcome.payload.sub == user.userId
        && outcome.payload.email == user.email
        && outcome.payload.name == user.name
        && outcome.payload.picture == user.picture
        && outcome.payload.apps == apps
        && outcome.payload.iat == now
        && outcome.payload.exp == now + cfg.accessLifetime
      else outcome == Expired
  {
  }

  /** A refresh token is not accepted where an access token is expected, as long as the secrets differ. */
  lemma RefreshTokenIsNotAccessToken(cfg: Config, codec: JwtCodec, user: Identity, apps: map<string, string>, now: int, later: int)
    requires FollowsJwtLibrary(codec)
    requires cfg.accessSecret != cfg.refreshSecret
    ensures VerifyToken(cfg, codec, GenerateTokens(cfg, codec, user, apps, now).refreshToken, later) == Invalid
  {
  }

  /**
   * `apps` after `result.rows.forEach(row => { apps[row.app_code] = row.role_code })` on
   * a plain `{}`: a row whose code is `__proto__` adds no key.
   */
  function AppsOf(rows: seq<AccessRow>): (apps: map<string, string>)
    ensures "__proto__" !in apps
    decreases |rows|
  {
    if rows == [] then map[]
    else
      var last := rows[|rows| - 1];
      SetProperty(AppsOf(rows[..|rows| - 1]), last.appCode, last.roleCode)
  }

  /** The keys are exactly the application codes among the rows, other than `__proto__`. */
  lemma {:induction false} AppsOfKeys(rows: seq<AccessRow>)
    ensures AppsOf(rows).Keys == set r | r in rows && r.appCode != "__proto__" :: r.appCode
    decreases |rows|
  {
    if rows != [] {
      var init := rows[..|rows| - 1];
      AppsOfKeys(init);
      assert rows == init + [rows[|rows| - 1]];
    }
  }

  /** Each code maps to the role of the LAST row that carries it: `forEach` overwrites. */
  lemma {:induction false} AppsOfLastWins(rows: seq<AccessRow>)
    ensures forall code :: code in AppsOf(rows) ==>
      exists i :: (0 <= i < |rows| && rows[i].appCode == code && AppsOf(rows)[code] == rows[i].roleCode
        && forall j :: i < j < |rows| ==> rows[j].appCode != code)
    decreases |rows|
  {
    if rows != [] {
      var init := rows[..|rows| - 1];
      var last := rows[|rows| - 1];
      AppsOfLastWins(init);
      forall code | code in AppsOf(rows)
        ensures exists i :: (0 <= i < |rows| && rows[i].appCode == code && AppsOf(rows)[code] == rows[i].roleCode
          && forall j :: i < j < |rows| ==> rows[j].appCode != code)
      {
        if code == last.appCode && code != "__proto__" {
          assert rows[|rows| - 1].appCode == code;
        } else {
          assert code in AppsOf(init) && AppsOf(rows)[code] == AppsOf(init)[code];
          var i :| 0 <= i < |init| && init[i].appCode == code && AppsOf(init)[code] == init[i].roleCode
            && forall j :: i < j < |init| ==> init[j].appCode != code;
          assert rows[i] == init[i];
        }
      }
    }
  }

  /**
   * The resolved map has a key exactly for the code of each application that is active
   * and that `userId` is assigned to (with a known role), the code `__proto__` excepted.
   */
  lemma ResolvedKeysAreActiveAssignments(assignments: seq<AssignmentRow>, applications: map<string, AppRow>, roles: map<string, RoleRow>, userId: string)
    ensures forall code :: code in AppsOf(AccessRows(assignments, applications, roles, userId)) <==>
      code != "__proto__" &&
      exists i :: (0 <= i < |assignments| && Selected(assignments[i], applications, roles, userId)
        && applications[assignments[i].appId].appCode == code)
  {
    var rows := AccessRows(assignments, applications, roles, userId);
    AppsOfKeys(rows);
    AccessRowsSound(assignments, applications, roles, userId);
    AccessRowsComplete(assignments, applications, roles, userId);
    forall code | code in AppsOf(rows)
      ensures exists i :: (0 <= i < |assignments| && Selected(assignments[i], applications, roles, userId)
        && applications[assignments[i].appId].appCode == code)
    {
      var r :| r in rows && r.appCode == code;
      var i :| 0 <= i < |assignments| && Selected(assignments[i], applications, roles, userId)
        && r == Joined(applications[assignments[i].appId], roles[assignments[i].roleId]);
    }
    forall code | code != "__proto__" && exists i :: (0 <= i < |assignments| && Selected(assignments[i], applications, roles, userId)
        && applications[assignments[i].appId].appCode == code)
      ensures code in AppsOf(rows)
    {
      var i :| 0 <= i < |assignments| && Selected(assignments[i], applications, roles, userId)
        && applications[assignments[i].appId].appCode == code;
      var r := Joined(applications[assignments[i].appId], roles[assignments[i].roleId]);
      assert r in rows;
    }
  }

  /** A user without assignments to active applications gets no rows and an empty map, not an error. */
  lemma {:induction false} NoAssignmentsEmptyApps(assignments: seq<AssignmentRow>, applications: map<string, AppRow>, roles: map<string, RoleRow>, userId: string)
    requires forall i :: 0 <= i < |assignments| ==> !Selected(assignments[i], applications, roles, userId)
    ensures AccessRows(assignments, applications, roles, userId) == []
    ensures AppsOf(AccessRows(assignments, applications, roles, userId)) == map[]
    decreases |assignments|
  {
    if assignments != [] {
      var init := assignments[..|assignments| - 1];
      assert forall i :: 0 <= i < |init| ==> init[i] == assignments[i];
      NoAssignmentsEmptyApps(init, applications, roles, userId);
    }
  }

  /**
   * `getUserApps(userId)`: runs the join and folds its rows into `app_code -> role_code`;
   * `details` is the row list itself.
   */
  method GetUserApps(db: Database, userId: string) returns (apps: map<string, string>, details: seq<AccessRow>)
    ensures details == db.AccessRowsFor(userId)
    ensures apps == AppsOf(details)
  {
    details := db.AccessRowsFor(userId);
    apps := map[];
    var i := 0;
    while i < |details|
      invariant 0 <= i <= |details|
      invariant apps == AppsOf(details[..i])
    {
      var row := details[i];
      assert details[..i + 1] == details[..i] + [row];
      apps := SetProperty(apps, row.appCode, row.roleCode);
      i := i + 1;
    }
    assert details[..i] == details;
  }

  /** What Google's ID-token verification yields (`verifyGoogleToken`). */
  datatype GoogleIdentity = GoogleIdentity(googleId: string, email: string, name: string, picture: Option<string>)

  /** `WHERE google_id = $1 OR email = $2`; a NULL `google_id` matches nothing. */
  predicate MatchesLogin(row: UserRow, g: GoogleIdentity) {
    row.googleId == Some(g.googleId) || row.email == g.email
  }

  predicate KnownUser(users: map<string, UserRow>, g: GoogleIdentity) {
    exists id :: id in users && MatchesLogin(users[id], g)
  }

  /** The row `INSERT INTO users (email, name, google_id, profile_picture, ...)` creates. */
  function NewUserRow(userId: string, g: GoogleIdentity, defaultIsActive: bool): UserRow {
    UserRow(userId, g.email, g.name, Some(g.googleId), g.picture, defaultIsActive, None)
  }

  /**
   * `findOrCreateUser`: some matching row (SQL fixes no order) has its last login and
   * picture updated and is returned AS READ, before the update; otherwise a row is
   * inserted under the identifier the database generates (`newId`) and returned.
   */
  method FindOrCreateUser(db: Database, g: GoogleIdentity, now: int, newId: string) returns (user: UserRow)
    requires db.Valid()
    requires newId !in db.users
    modifies db
    ensures db.Valid()
    ensures db.applications == old(db.applications) && db.roles == old(db.roles)
    ensures db.assignments == old(db.assignments)
    ensures KnownUser(old(db.users), g) ==>
      && user.userId in old(db.users)
      && old(db.users)[user.userId] == user
      && MatchesLogin(user, g)
      && db.users == old(db.users)[user.userId := user.(lastLoginAt := Some(now), picture := g.picture)]
    ensures !KnownUser(old(db.users), g) ==>
      && user == NewUserRow(newId, g, db.defaultIsActive)
      && db.users == old(db.users)[newId := user]
  {
    if KnownUser(db.users, g) {
      var id :| id in db.users && MatchesLogin(db.users[id], g);
      user := db.users[id];
      db.StoreUser(user.(lastLoginAt := Some(now), picture := g.picture));
    } else {
      user := NewUserRow(newId, g, db.defaultIsActive);
      db.StoreUser(user);
    }
  }

  /** A row of the `auth_tokens` audit table. */
  datatype AuditRow = AuditRow(userId: string, accessToken: string, refreshToken: string, expiresAt: int, isRevoked: bool)

  /** `UPDATE auth_tokens SET is_revoked = true WHERE user_id = $1`. */
  function FlagRevoked(rows: seq<AuditRow>, userId: string): (r: seq<AuditRow>)
    ensures |r| == |rows|
    ensures forall i :: 0 <= i < |rows| && rows[i].userId == userId ==> r[i] == rows[i].(isRevoked := true)
    ensures forall i :: 0 <= i < |rows| && rows[i].userId != userId ==> r[i] == rows[i]
    decreases |rows|
  {
    if rows == [] then []
    else
      var last := rows[|rows| - 1];
      FlagRevoked(rows[..|rows| - 1], userId) + [if last.userId == userId then last.(isRevoked := true) else last]
  }

  /** Revoking twice leaves the same slots and the same audit log as revoking once. */
  lemma RevokeIdempotent(slots: map<string, TokenPair>, log: seq<AuditRow>, userId: string)
    ensures (slots - {userId}) - {userId} == slots - {userId}
    ensures FlagRevoked(FlagRevoked(log, userId), userId) == FlagRevoked(log, userId)
  {
  }

  /**
   * The token store: the Redis slot `token:<userId>` (one pair per user) and the
   * `auth_tokens` audit table.
   */
  class TokenStore {
    var slots: map<string, TokenPair>
    var auditLog: seq<AuditRow>

    constructor ()
      ensures slots == map[] && auditLog == []
    {
      slots := map[];
      auditLog := [];
    }

    /** `storeToken`: overwrite the user's slot and append one audit row expiring 7 days on. */
    method StoreToken(userId: string, accessToken: string, refreshToken: string, now: int)
      modifies this
      ensures slots == old(slots)[userId := TokenPair(accessToken, refreshToken)]
      ensures auditLog == old(auditLog) + [AuditRow(userId, accessToken, refreshToken, now + STORE_TTL, false)]
    {
      slots := slots[userId := TokenPair(accessToken, refreshToken)];
      auditLog := auditLog + [AuditRow(userId, accessToken, refreshToken, now + STORE_TTL, false)];
    }

    /** `revokeToken`: delete the user's slot and flag every audit row of that user. */
    method RevokeToken(userId: string)
      modifies this
      ensures slots == old(slots) - {userId}
      ensures auditLog == FlagRevoked(old(auditLog), userId)
    {
      slots := slots - {userId};
      auditLog := FlagRevoked(auditLog, userId);
    }
  }
}
