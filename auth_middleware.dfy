/**
 * The Express middleware in front of protected routes: `authenticate` reads the
 * `Authorization` header, verifies the bearer token and attaches its payload to the
 * request; `requireRole` admits a request whose user holds one of the allowed roles in
 * ANY application.
 *
 * The bearer scheme is the one of section 2.1 of RFC 6750, but the prefix is compared
 * case-sensitively, and no revocation lookup happens here: a signature-valid, unexpired
 * access token passes even after logout.
 */
module AuthMiddleware {
  import opened Wrappers
  import opened JsText
  import opened AuthService

  const BEARER_PREFIX := "Bearer "

  /** Either `next()` runs with `req.user` set, or the request ends with a status and an error text. */
  datatype Decision = Proceed(user: Payload) | Reject(status: int, error: string)

  predicate HasBearer(header: Option<string>) {
    header.Some? && StartsWith(header.value, BEARER_PREFIX)
  }

  /** `authHeader.substring(7)`: the header without its scheme prefix. */
  function BearerToken(header: string): (token: string)
    requires StartsWith(header, BEARER_PREFIX)
    ensures header == BEARER_PREFIX + token
  {
    header[|BEARER_PREFIX|..]
  }

  /** The decision `authenticate` takes for an `Authorization` header at time `now`. */
  function Authenticate(cfg: Config, codec: JwtCodec, header: Option<string>, now: int): (d: Decision)
    ensures !HasBearer(header) ==> d == Reject(401, "No token provided")
    ensures HasBearer(header) ==>
      var outcome := VerifyToken(cfg, codec, BearerToken(header.value), now);
      && (d.Proceed? <==> outcome.Verified?)
      && (outcome.Verified? ==> d.user == outcome.payload)
      && (outcome.Expired? ==> d == Reject(401, "Token expired"))
      && (outcome.Invalid? ==> d == Reject(401, "Invalid token"))
  {
    if !HasBearer(header) then Reject(401, "No token provided")
    else
      match VerifyToken(cfg, codec, BearerToken(header.value), now)
      case Verified(payload) => Proceed(payload)
      case Expired => Reject(401, "Token expired")
      case Invalid => Reject(401, "Invalid token")
  }

  /** The scheme is matched case-sensitively, so a lower-case `bearer` is "No token provided". */
  lemma LowerCaseSchemeRejected(cfg: Config, codec: JwtCodec, token: string, now: int)
    ensures Authenticate(cfg, codec, Some("bearer " + token), now) == Reject(401, "No token provided")
  {
    assert ("bearer " + token)[0] == 'b';
  }

  /**
   * An access token freshly issued by the service passes `authenticate` with exactly the
   * payload it was issued with, until it expires; then it is "Token expired".
   */
  lemma IssuedTokenAuthenticates(cfg: Config, codec: JwtCodec, user: Identity, apps: map<string, string>, issuedAt: int, now: int)
    requires FollowsJwtLibrary(codec)
    ensures var pair := GenerateTokens(cfg, codec, user, apps, issuedAt);
      var d := Authenticate(cfg, codec, Some(BEARER_PREFIX + pair.accessToken), now);
      if now < issuedAt + cfg.accessLifetime then
        d == Proceed(Payload(user.userId, user.email, user.name, user.picture, apps, issuedAt, issuedAt + cfg.accessLifetime))
      else d == Reject(401, "Token expired")
  {
    var pair := GenerateTokens(cfg, codec, user, apps, issuedAt);
    var header := BEARER_PREFIX + pair.accessToken;
    assert header[..|BEARER_PREFIX|] == BEARER_PREFIX;
    assert BearerToken(header) == pair.accessToken;
    AccessTokenRoundTrip(cfg, codec, user, apps, issuedAt, now);
  }

  /** `Object.values(apps).some(role => allowedRoles.includes(role))`. */
  predicate HasAnyRole(apps: map<string, string>, allowed: seq<string>) {
    exists role :: role in apps.Values && role in allowed
  }

  /** The decision of `requireRole(allowed)` for the request's user. */
  function RequireRole(user: Option<Payload>, allowed: seq<string>): (d: Decision)
    ensures user.None? ==> d == Reject(401, "Authentication required")
    ensures user.Some? ==>
      && (d.Proceed? <==> exists app :: app in user.value.apps && user.value.apps[app] in allowed)
      && (d.Proceed? ==> d.user == user.value)
      && (!d.Proceed? ==> d == Reject(403, "Insufficient permissions"))
  {
    match user
    case None => Reject(401, "Authentication required")
    case Some(p) => if HasAnyRole(p.apps, allowed) then Proceed(p) else Reject(403, "Insufficient permissions")
  }

  /** A user with no application at all is never admitted, whatever the allowed roles. */
  lemma EmptyAppsRejected(p: Payload, allowed: seq<string>)
    requires p.apps == map[]
    ensures RequireRole(Some(p), allowed) == Reject(403, "Insufficient permissions")
  {
  }

  /** No allowed role admits nobody. */
  lemma NoAllowedRolesRejects(user: Option<Payload>)
    ensures !RequireRole(user, []).Proceed?
  {
  }

  /**
   * The request/response pair as the middleware sees it: `req.user`, how often `next`
   * has been called, and the response written, if any.
   */
  class Exchange {
    var user: Option<Payload>
    var nextCalls: nat
    var response: Option<(int, string)>

    constructor ()
      ensures user == None && nextCalls == 0 && response == None
    {
      user := None;
      nextCalls := 0;
      response := None;
    }
  }

  /** `authenticate(req, res, next)`: on success set `req.user` and call `next` once, else respond. */
  method AuthenticateRequest(ex: Exchange, cfg: Config, codec: JwtCodec, header: Option<string>, now: int)
    modifies ex
    ensures match Authenticate(cfg, codec, header, now)
      case Proceed(p) => ex.user == Some(p) && ex.nextCalls == old(ex.nextCalls) + 1 && ex.response == old(ex.response)
      case Reject(status, error) => ex.user == old(ex.user) && ex.nextCalls == old(ex.nextCalls) && ex.response == Some((status, error))
  {
    match Authenticate(cfg, codec, header, now)
    case Proceed(p) =>
      ex.user := Some(p);
      ex.nextCalls := ex.nextCalls + 1;
    case Reject(status, error) =>
      ex.response := Some((status, error));
  }

  /** `requireRole(allowed)(req, res, next)`: `next` runs exactly when the decision admits. */
  method RequireRoleRequest(ex: Exchange, allowed: seq<string>)
    modifies ex
    ensures ex.user == old(ex.user)
    ensures match RequireRole(old(ex.user), allowed)
      case Proceed(_) => ex.nextCalls == old(ex.nextCalls) + 1 && ex.response == old(ex.response)
      case Reject(status, error) => ex.nextCalls == old(ex.nextCalls) && ex.response == Some((status, error))
  {
    match RequireRole(ex.user, allowed)
    case Proceed(_) =>
      ex.nextCalls := ex.nextCalls + 1;
    case Reject(status, error) =>
      ex.response := Some((status, error));
  }
}
