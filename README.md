# apps-sso: session and permission core in Dafny

This project models the session and permission core of a single-sign-on system in
Dafny. The system has an Express backend, which issues JSON Web Tokens after a Google
login and keeps one token pair per user, and a browser client, which keeps the session
in `localStorage`. The model covers these parts:

- **Token service** (`backend/src/services/auth.service.ts`, module `AuthService`):
  - the startup check for the two signing secrets;
  - `getUserApps`, a loop that folds the `user_app_roles ⋈ applications ⋈ roles` rows
    into an `app_code → role_code` map;
  - `generateTokens` and `verifyToken`, over an abstract JWT codec;
  - `findOrCreateUser`;
  - the token store (`storeToken`, `revokeToken`): a per-user slot plus an audit table.
- **Middleware** (`backend/src/middleware/auth.middleware.ts`, module `AuthMiddleware`):
  - bearer-header authentication, with its three 401 outcomes;
  - the any-application role gate `requireRole`.
- **Authentication endpoints** (`backend/src/controllers/auth.controller.ts`, module
  `AuthController`): Google login, token verification for downstream applications,
  logout, `me` and the permission refresh. Each is a transition over the database and
  the token store.
- **Administrator endpoints** (`backend/src/controllers/admin.controller.ts`, module
  `AdminController`):
  - the UUID and e-mail patterns, the name bounds and e-mail normalisation;
  - the admin gate;
  - activating a user, assigning and removing an application role, and creating a
    user, as updates of the `users` and `user_app_roles` tables.
- **Client session** (`frontend/src/services/auth.ts`, module `ClientSession`): the
  `AuthService` class, which manages three `localStorage` keys, checks token expiry
  against a millisecond clock, and refreshes the token pair.
- **Dashboard helpers** (`frontend/src/utils/dashboard-helpers.ts`, module
  `DashboardHelpers`): role badge styles, the icon and display-name lookups, and the
  trusted-domain check on application URLs.

Four supporting modules hold shared definitions:

- `Wrappers`: `Option` and `Result`.
- `Http`: the `Reply` of a handler, either a payload or a status with an error text.
- `JsText`: the JavaScript semantics the code relies on. This covers `\s` and `trim()`,
  ASCII `toLowerCase()`, truthiness of request-body values, and property lookup on a
  plain object, which also finds the members inherited from `Object.prototype`.
- `Tables`: the relational tables and the effect of each SQL statement. `users`,
  `applications` and `roles` are maps keyed by primary key. `user_app_roles` is a
  sequence of rows whose invariant is at most one row per (user, application) pair.

The model stands in for external systems as follows:

- **Database and cache:** the `Tables.Database` and `AuthService.TokenStore` classes,
  updated by methods.
- **JWT signing and verification:** a record of functions, `JwtCodec`. The predicate
  `FollowsJwtLibrary` states what is assumed of the library; it is taken from the
  registered claims `sub`, `iat` and `exp` in sections 4.1.2, 4.1.6 and 4.1.4 of
  RFC 7519.
- **Other library calls** (`JSON.stringify`/`JSON.parse`, `jwtDecode`, Google's
  ID-token check, the refresh API call): function parameters.
- **Clocks:** integer parameters, seconds on the server and milliseconds in the
  browser.
- **Generated identifiers:** parameters.

## Model

| member | source | states |
|---|---|---|
| JsText.Trim | backend/src/controllers/admin.controller.ts:241 | `trim()` returns the stretch of its input that starts right after the leading whitespace and is followed only by whitespace; the result neither starts nor ends with whitespace |
| JsText.TrimStart | backend/src/controllers/admin.controller.ts:241 | the leading part of `trim()`: a suffix of the input whose dropped prefix is all whitespace and which does not start with whitespace |
| JsText.TrimEnd | backend/src/controllers/admin.controller.ts:241 | the trailing part of `trim()`: a prefix of the input whose dropped suffix is all whitespace and which does not end with whitespace |
| JsText.Lower | frontend/src/utils/dashboard-helpers.ts:27 | `toLowerCase()` keeps the length and maps each character on its own, lowering exactly the ASCII capitals |
| JsText.LowerIdempotent | frontend/src/utils/dashboard-helpers.ts:27 | lowering an already lowered code changes nothing |
| JsText.LowerTrimCommute | backend/src/controllers/admin.controller.ts:248 | lowering and trimming give the same string in either order |
| JsText.Utf16Length | backend/src/controllers/admin.controller.ts:241 | `.length` counts UTF-16 code units: one per character up to U+FFFF and two above it, so between the character count and twice it |
| JsText.Utf16LengthTrim | backend/src/controllers/admin.controller.ts:241 | trimming never adds code units |
| JsText.TruthyString | backend/src/controllers/auth.controller.ts:12 | a string value is truthy exactly when it is non-empty |
| JsText.GetProperty | frontend/src/utils/dashboard-helpers.ts:27 | `obj[key]` finds an own value exactly when the key is an own property, and otherwise an inherited member exactly for the `Object.prototype` names |
| JsText.GetOwnProperty | backend/src/controllers/auth.controller.ts:75 | an own-property lookup never yields an inherited member, and yields the stored value exactly for own keys |
| JsText.SetProperty | backend/src/services/auth.service.ts:86 | `obj[key] = value` on a plain object stores an own property for every key except `__proto__`, whose write goes to the inherited setter and adds no key |
| Tables.SetRole | backend/src/controllers/admin.controller.ts:123-126 | the UPDATE changes the role of exactly the rows of the named pair, keeps every other row, and keeps the row count |
| Tables.DeletePair | backend/src/controllers/admin.controller.ts:160-163 | after the DELETE no row of the named pair remains, and the table does not grow |
| Tables.SetRoleTable | backend/src/controllers/admin.controller.ts:122-126 | when a row for the pair exists, the update changes the (user, app) → role relation at that pair only |
| Tables.SetRoleUnmatched | backend/src/controllers/admin.controller.ts:123-126 | an UPDATE that matches no row leaves the table unchanged |
| Tables.SetRoleUnique | backend/src/controllers/admin.controller.ts:123-126 | the UPDATE keeps at most one row per (user, app) pair |
| Tables.DeletePairTable | backend/src/controllers/admin.controller.ts:160-163 | the DELETE removes exactly that pair from the relation |
| Tables.DeletePairMembers | backend/src/controllers/admin.controller.ts:160-163 | the rows that remain are exactly the rows of other pairs |
| Tables.DeletePairUnique | backend/src/controllers/admin.controller.ts:160-163 | the DELETE keeps at most one row per pair |
| Tables.AppendUnique | backend/src/controllers/admin.controller.ts:127-131 | inserting a row for a pair that has none keeps at most one row per pair |
| Tables.AccessRows | backend/src/services/auth.service.ts:69-82 | the join returns at most one row per assignment |
| Tables.AccessRowsSound | backend/src/services/auth.service.ts:77-80 | every returned row joins an assignment of that user to an active application with an existing role |
| Tables.AccessRowsComplete | backend/src/services/auth.service.ts:77-80 | every assignment of that user to an active application with an existing role appears in the result |
| Tables.Database.StoreUser | backend/src/services/auth.service.ts:50-53 | writing one `users` row replaces that key only, keeps the other tables, and keeps every row under its own key |
| Tables.Database.StoreAssignments | backend/src/controllers/admin.controller.ts:122-132 | writing `user_app_roles` keeps the other tables and the one-row-per-pair invariant |
| AuthService.LoadConfig | backend/src/services/auth.service.ts:7-16 | a configuration exists exactly when both secrets are set and non-empty; unset lifetimes fall back to the defaults, and set ones are read as whole seconds (see Left out) |
| AuthService.DefaultLifetimes | backend/src/services/auth.service.ts:15-16 | by default, access tokens live 604800 s (7 days) and refresh tokens 2592000 s (30 days) |
| AuthService.GenerateTokens | backend/src/services/auth.service.ts:93-108 | signs the access claims with the access secret and lifetime and the `sub`-only refresh claims with the refresh secret and lifetime; its meaning is stated by `AuthService.AccessTokenRoundTrip` and `AuthService.RefreshTokenIsNotAccessToken` |
| AuthService.VerifyToken | backend/src/services/auth.service.ts:124-126 | checks a token against the access secret only; its meaning is stated by the two lemmas above |
| AuthService.AccessTokenRoundTrip | backend/src/services/auth.service.ts:93-108 | before its expiry an issued access token verifies to exactly the `sub`, e-mail, name, picture and application map it was issued with, with `iat` and `exp`; from then on it is expired |
| AuthService.RefreshTokenIsNotAccessToken | backend/src/services/auth.service.ts:102-105 | with distinct secrets, a refresh token is invalid where `verifyToken` expects an access token |
| AuthService.AppsOf | backend/src/services/auth.service.ts:84-87 | the fold of the rows into `apps` never has a `__proto__` key |
| AuthService.AppsOfKeys | backend/src/services/auth.service.ts:84-87 | the folded map's keys are exactly the application codes of the rows other than `__proto__` |
| AuthService.AppsOfLastWins | backend/src/services/auth.service.ts:85-87 | each code maps to the role of the last row carrying it, because `forEach` overwrites |
| AuthService.ResolvedKeysAreActiveAssignments | backend/src/services/auth.service.ts:68-89 | the resolved map has a key exactly for the code of each active application the user is assigned to, the code `__proto__` excepted |
| AuthService.NoAssignmentsEmptyApps | backend/src/services/auth.service.ts:84-89 | a user with no selected assignment gets no rows and an empty map, not an error |
| AuthService.GetUserApps | backend/src/services/auth.service.ts:68-90 | the loop returns the query rows unchanged as `details`, and `apps` is their fold, so its keys and roles are those of `AppsOfKeys` and `AppsOfLastWins` |
| AuthService.MatchesLogin | backend/src/services/auth.service.ts:42-45 | the `WHERE google_id = $1 OR email = $2` condition on one `users` row |
| AuthService.KnownUser | backend/src/services/auth.service.ts:47 | `result.rows.length > 0`: some `users` row meets that condition |
| AuthService.NewUserRow | backend/src/services/auth.service.ts:57-62 | the inserted row: Google's e-mail, name, id and picture, the table's default `is_active`, no login time yet |
| AuthService.FindOrCreateUser | backend/src/services/auth.service.ts:40-65 | a known Google id or e-mail gives a matching row as it was read, and that row gets the new login time and picture; otherwise the inserted row under the generated id is returned; the other tables are untouched |
| AuthService.FlagRevoked | backend/src/services/auth.service.ts:131 | every audit row of the user is flagged revoked and every other row is kept |
| AuthService.RevokeIdempotent | backend/src/services/auth.service.ts:129-132 | revoking twice gives the same slots and audit log as revoking once |
| AuthService.TokenStore.StoreToken | backend/src/services/auth.service.ts:111-121 | the user's slot holds exactly the new pair, other slots are kept, and the log grows by one unrevoked row expiring 7 days on |
| AuthService.TokenStore.RevokeToken | backend/src/services/auth.service.ts:129-132 | the user's slot is gone, other slots are kept, and the user's audit rows are flagged |
| AuthMiddleware.BearerToken | backend/src/middleware/auth.middleware.ts:16 | the extracted token is the header with the `Bearer ` prefix removed |
| AuthMiddleware.HasAnyRole | backend/src/middleware/auth.middleware.ts:36 | some role value of the application map is in the allowed list; `AuthMiddleware.RequireRole` states the gate built on it |
| AuthMiddleware.Authenticate | backend/src/middleware/auth.middleware.ts:9-27 | a missing or non-`Bearer ` header gives 401 "No token provided"; otherwise the request proceeds exactly when the token verifies, with that payload; expired gives 401 "Token expired" and anything else 401 "Invalid token" |
| AuthMiddleware.LowerCaseSchemeRejected | backend/src/middleware/auth.middleware.ts:12 | the scheme is compared case-sensitively, so `bearer <token>` counts as no token |
| AuthMiddleware.IssuedTokenAuthenticates | backend/src/middleware/auth.middleware.ts:9-20 | an access token issued by `generateTokens` passes with exactly its issued payload until it expires, and is "Token expired" from then on |
| AuthMiddleware.RequireRole | backend/src/middleware/auth.middleware.ts:29-44 | no user gives 401; otherwise the request proceeds, with the user unchanged, exactly when some application grants an allowed role, else 403 |
| AuthMiddleware.EmptyAppsRejected | backend/src/middleware/auth.middleware.ts:36-39 | a user with an empty application map is always refused with 403 |
| AuthMiddleware.NoAllowedRolesRejects | backend/src/middleware/auth.middleware.ts:36-39 | an empty allowed list admits nobody |
| AuthMiddleware.AuthenticateRequest | backend/src/middleware/auth.middleware.ts:9-27 | on success `req.user` is set and `next` runs exactly once, with no response; otherwise a response is written and `next` does not run |
| AuthMiddleware.RequireRoleRequest | backend/src/middleware/auth.middleware.ts:29-44 | `next` runs exactly once when the gate admits; otherwise the status is written; `req.user` is never changed |
| AuthController.NonEmptyStringMeans | backend/src/controllers/auth.controller.ts:12 | `!token \|\| typeof token !== 'string'` rejects exactly the values that are not non-empty strings |
| AuthController.GoogleLogin | backend/src/controllers/auth.controller.ts:8-56 | 400 for a missing or non-string token and 500 when Google verification fails, with `users` unchanged; once Google verifies, `users` changes exactly as `findOrCreateUser` says (a matching row gets the new login time and picture, also when the account is inactive, or the new row is inserted under the generated id) and the reply is either 403 for an inactive account or success for that row; no failure writes a token; on success the reply carries that active user with its stored e-mail and name and the picture as read before the login (Google's for a new user), the resolved rows and map, and the pair that `generateTokens` issues, which is also the pair stored and logged |
| AuthController.AppAccessMeansRole | backend/src/controllers/auth.controller.ts:75-77 | the corrected application check admits exactly codes with an own, non-empty role |
| AuthController.AppAccessAsWritten | backend/src/controllers/auth.controller.ts:75 | the access check as written: the property lookup, inherited members included, is truthy; stated by `AuthController.PrototypeNameBypassesAppCheck` |
| AuthController.AppAccess | backend/src/controllers/auth.controller.ts:75 | the corrected access check on own properties only; stated by `AuthController.AppAccessMeansRole` |
| AuthController.PrototypeNameBypassesAppCheck | backend/src/controllers/auth.controller.ts:75-77 | as written, a token with no applications passes the check for `app_code` "constructor" and every other inherited name |
| AuthController.AppChecksAgreeOffPrototype | backend/src/controllers/auth.controller.ts:75 | the written and corrected checks agree on every code that is not an inherited name |
| AuthController.VerifyTokenHandler | backend/src/controllers/auth.controller.ts:59-98 | 400 for a missing token or a truthy non-string `app_code`; 401 "Token expired" or "Invalid token" as verification reports; 403 without own access; success whenever the token verifies and access is granted (or no `app_code` is given), with the user fields and map from the payload, the role of `app_code`, or null without one |
| AuthController.Logout | backend/src/controllers/auth.controller.ts:101-116 | without a user, 401 and nothing changes; otherwise exactly `req.user.sub` is revoked |
| AuthController.Me | backend/src/controllers/auth.controller.ts:119-140 | 401 exactly without a user; with a user always success, with the claims and application map unchanged |
| AuthController.RefreshToken | backend/src/controllers/auth.controller.ts:143-180 | without a user, 401 and nothing is stored; otherwise new tokens carry the map resolved from the database now and are stored under the same `sub`, replacing the previous pair |
| AuthController.RefreshedTokenCarriesFreshApps | backend/src/controllers/auth.controller.ts:150-161 | a refreshed access token verifies to the freshly resolved map, not the old claim's |
| AdminController.UuidMatchesShape | backend/src/controllers/admin.controller.ts:8 | `UUID_REGEX` accepts exactly 36-character strings with dashes at 8, 13, 18 and 23 and hex digits elsewhere |
| AdminController.UuidIgnoresCase | backend/src/controllers/admin.controller.ts:8 | the flag `i`: a string is a valid UUID exactly when its lower-case form is |
| AdminController.IsValidUuid | backend/src/controllers/admin.controller.ts:8-14 | `UUID_REGEX.test`; stated by `AdminController.UuidMatchesShape` and `AdminController.UuidIgnoresCase` |
| AdminController.FirstIndexOf | backend/src/controllers/admin.controller.ts:10 | the position found holds the character and no earlier position does; no position means the character is absent |
| AdminController.EmailMatchesToRegex | backend/src/controllers/admin.controller.ts:10 | every string the scan accepts matches `^[^\s@]+@[^\s@]+\.[^\s@]+$` |
| AdminController.RegexToEmailMatches | backend/src/controllers/admin.controller.ts:10 | every string matching the pattern is accepted by the scan |
| AdminController.EmailMatchesRegex | backend/src/controllers/admin.controller.ts:10 | the scan accepts exactly the strings the pattern matches |
| AdminController.EmailMatches | backend/src/controllers/admin.controller.ts:10 | `EMAIL_REGEX.test` as a scan; stated by `AdminController.EmailMatchesRegex` |
| AdminController.IsValidNameValue | backend/src/controllers/admin.controller.ts:241 | the name check: a non-empty string whose trimmed form has at least 2 UTF-16 code units and which has at most 255; stated by `AdminController.StoredNameBounds` |
| AdminController.StoredNameBounds | backend/src/controllers/admin.controller.ts:241-243 | an accepted name is stored trimmed, with 2 to 255 UTF-16 code units |
| AdminController.NormalizeEmail | backend/src/controllers/admin.controller.ts:248 | `email.toLowerCase().trim()` is the lowered trim of the input, so it has no capital letter and no whitespace at either end |
| AdminController.EmailTaken | backend/src/controllers/admin.controller.ts:246-253 | the duplicate check: some `users` row has exactly that e-mail |
| AdminController.CreatedRow | backend/src/controllers/admin.controller.ts:256-260 | the inserted row: normalised e-mail, trimmed name, active, with no Google account and no login; stated by `AdminController.CreatedRowWellFormed` |
| AdminController.NormalizedEmailValid | backend/src/controllers/admin.controller.ts:238-259 | an accepted e-mail is only lowered by normalisation, stays accepted, and is already normal |
| AdminController.LowerEmailMatches | backend/src/controllers/admin.controller.ts:238-248 | lowering an accepted e-mail keeps it accepted |
| AdminController.IsAdminIsRequireRole | backend/src/controllers/admin.controller.ts:16-18 | `isAdmin` holds exactly when `requireRole(['admin'])` would admit the user |
| AdminController.IsAdmin | backend/src/controllers/admin.controller.ts:16-18 | some application grants `admin`; stated by `AdminController.IsAdminIsRequireRole` |
| AdminController.Upsert | backend/src/controllers/admin.controller.ts:116-132 | UPDATE when the pair has a row, otherwise INSERT; stated by the three lemmas that follow |
| AdminController.UpsertTable | backend/src/controllers/admin.controller.ts:116-132 | after the UPDATE-or-INSERT, the pair maps to the new role and every other pair keeps its role |
| AdminController.UpsertExactlyOne | backend/src/controllers/admin.controller.ts:116-132 | after the upsert exactly one row exists for the pair, with the new role, and pairs stay unique |
| AdminController.UpsertIdempotent | backend/src/controllers/admin.controller.ts:116-132 | assigning the same role twice leaves the table as one assignment does |
| AdminController.DeletePairAbsent | backend/src/controllers/admin.controller.ts:160-163 | removing a pair that has no row leaves the table unchanged |
| AdminController.DeletePairIdempotent | backend/src/controllers/admin.controller.ts:160-163 | removing twice leaves the table as removing once does |
| AdminController.ToggleUserStatus | backend/src/controllers/admin.controller.ts:68-100 | 403 for a non-admin, then 400 for a bad UUID, then 400 for a non-boolean flag, with nothing changed; otherwise only that user's flag changes, with the matching message |
| AdminController.SetActiveOnlyTarget | backend/src/controllers/admin.controller.ts:84-87 | the UPDATE touches only the target row's `is_active` and keeps every other row and column |
| AdminController.SetActive | backend/src/controllers/admin.controller.ts:84-87 | the UPDATE of `is_active`; stated by `AdminController.SetActiveOnlyTarget` |
| AdminController.AssignAppRole | backend/src/controllers/admin.controller.ts:103-145 | 403 for a non-admin and 400 for any malformed id, with nothing changed; otherwise the relation maps the pair to the new role, leaves other pairs alone, and pairs stay unique |
| AdminController.RemoveAppAccess | backend/src/controllers/admin.controller.ts:148-176 | 403 for a non-admin and 400 for a malformed id, with nothing changed; otherwise exactly that pair leaves the relation, and an absent pair is no error |
| AdminController.CreateUser | backend/src/controllers/admin.controller.ts:230-274 | 403, 400 for a bad e-mail, 400 for a bad name (length in UTF-16 code units) and 400 for a taken normalised e-mail, with nothing inserted; otherwise exactly one row is inserted under the new id: normalised e-mail, trimmed name, active |
| AdminController.CreatedRowWellFormed | backend/src/controllers/admin.controller.ts:256-260 | the inserted row is active, has a lower-case accepted e-mail and a name of 2 to 255 UTF-16 code units, and makes its e-mail taken |
| ClientSession.Get | frontend/src/services/auth.ts:15-17 | `getItem` gives the stored value exactly for a stored key, otherwise null |
| ClientSession.UserIn | frontend/src/services/auth.ts:27-35 | `getUser` gives null for an absent key or an empty stored text, otherwise the parse of the stored text |
| ClientSession.DecodeToken | frontend/src/services/auth.ts:37-43 | `jwtDecode`, or null when it throws; stated by `ClientSession.UndecodableIsExpired` |
| ClientSession.IsTokenExpired | frontend/src/services/auth.ts:45-52 | undecodable means expired; a decoded token without `exp` is not expired; otherwise expired exactly when `exp * 1000 < now` |
| ClientSession.UndecodableIsExpired | frontend/src/services/auth.ts:37-52 | a token `decodeToken` cannot read counts as expired |
| ClientSession.ExpiryBoundary | frontend/src/services/auth.ts:48 | the comparison is strict: a token is good at `exp * 1000` and expired one millisecond later |
| ClientSession.ExpiryIsMonotone | frontend/src/services/auth.ts:48 | once expired, a token stays expired as the clock advances |
| ClientSession.Authenticated | frontend/src/services/auth.ts:75-79 | authenticated exactly when a non-empty access token is stored and not expired |
| ClientSession.WithTokens | frontend/src/services/auth.ts:10-13 | the storage after `setTokens`; stated by `ClientSession.SetTokensThenGet` |
| ClientSession.WithUser | frontend/src/services/auth.ts:23-25 | the storage after `setUser`; stated by `ClientSession.SetUserThenGet` |
| ClientSession.WithoutSession | frontend/src/services/auth.ts:81-85 | the storage after `logout`; stated by `ClientSession.LogoutRemovesExactlySession` |
| ClientSession.SetTokensThenGet | frontend/src/services/auth.ts:10-21 | after `setTokens(a, r)` the getters read `a` and `r`, and every other key is unchanged |
| ClientSession.SetUserThenGet | frontend/src/services/auth.ts:23-35 | after `setUser(u)`, `getUser` reads back `u`; an `undefined` user reads back as null |
| ClientSession.LogoutRemovesExactlySession | frontend/src/services/auth.ts:81-85 | `logout` removes exactly the three session keys, keeps every other key, makes both tokens and the user read as null, and is idempotent |
| ClientSession.LoggedOutIsNotAuthenticated | frontend/src/services/auth.ts:75-85 | after `logout` nobody is authenticated, whatever the clock |
| ClientSession.AuthService.SetTokens | frontend/src/services/auth.ts:10-13 | both token keys are written and nothing else |
| ClientSession.AuthService.GetAccessToken | frontend/src/services/auth.ts:15-17 | the stored access token, or null when none is stored |
| ClientSession.AuthService.GetRefreshToken | frontend/src/services/auth.ts:19-21 | the stored refresh token, or null when none is stored |
| ClientSession.AuthService.SetUser | frontend/src/services/auth.ts:23-25 | the `user` key holds the serialised user, and nothing else changes |
| ClientSession.AuthService.GetUser | frontend/src/services/auth.ts:27-35 | null for an absent key or an empty stored text, otherwise the parse of the stored text |
| ClientSession.AuthService.IsAuthenticated | frontend/src/services/auth.ts:75-79 | true exactly when a non-empty access token is stored and not expired |
| ClientSession.AuthService.Logout | frontend/src/services/auth.ts:81-85 | the storage loses exactly the three session keys |
| ClientSession.AuthService.RefreshAccessToken | frontend/src/services/auth.ts:54-73 | no refresh token gives false with nothing changed; a failed call logs out; an unsuccessful reply changes nothing; a successful one overwrites both tokens and the user and returns true |
| ClientSession.RefreshedSessionReadsBack | frontend/src/services/auth.ts:54-73 | after a successful refresh, the session reads back exactly the reply's tokens and user |
| DashboardHelpers.RoleBadgeStyle | frontend/src/utils/dashboard-helpers.ts:3-14 | the admin style exactly for `admin`, the editor style exactly for `editor`, and the viewer style for everything else, `undefined` included |
| DashboardHelpers.GetAppIcon | frontend/src/utils/dashboard-helpers.ts:16-28 | an icon exactly when the lower-cased code is listed, and then the listed path |
| DashboardHelpers.GetAppIconAsWritten | frontend/src/utils/dashboard-helpers.ts:27 | the icon lookup as written, inherited members included; stated by `DashboardHelpers.AppIconPrototypeMember` |
| DashboardHelpers.AppIconIgnoresCase | frontend/src/utils/dashboard-helpers.ts:27 | the icon of a code equals the icon of its lower-case form |
| DashboardHelpers.AppIconListed | frontend/src/utils/dashboard-helpers.ts:17-27 | each of the eight listed codes finds its own path |
| DashboardHelpers.AppIconEmpty | frontend/src/utils/dashboard-helpers.ts:27 | the empty code has no icon |
| DashboardHelpers.AppIconPrototypeMember | frontend/src/utils/dashboard-helpers.ts:27 | as written, `getAppIcon("Constructor")` is an inherited member; the corrected lookup gives null |
| DashboardHelpers.AppIconAgreesOffPrototype | frontend/src/utils/dashboard-helpers.ts:27 | off the inherited names, the written and corrected lookups agree |
| DashboardHelpers.GetAppDisplayName | frontend/src/utils/dashboard-helpers.ts:30-35 | "AmzSellMetrics" exactly for the code `amzsellmetrics` in any letter case, otherwise `appName` unchanged |
| DashboardHelpers.GetAppDisplayNameAsWritten | frontend/src/utils/dashboard-helpers.ts:34 | the display-name lookup as written, inherited members included; stated by `DashboardHelpers.DisplayNamePrototypeMember` |
| DashboardHelpers.DisplayNamePrototypeMember | frontend/src/utils/dashboard-helpers.ts:34 | as written, the code `__proto__` yields an object where a name was expected; the corrected lookup yields `appName` |
| DashboardHelpers.SomeTrustedMeansOnDomain | frontend/src/utils/dashboard-helpers.ts:43-45 | `some` holds exactly when the host is on one of the listed domains |
| DashboardHelpers.SomeTrusted | frontend/src/utils/dashboard-helpers.ts:43-45 | `TRUSTED_DOMAINS.some(...)` as a recursion over the list; stated by `DashboardHelpers.SomeTrustedMeansOnDomain` |
| DashboardHelpers.IsValidAppUrl | frontend/src/utils/dashboard-helpers.ts:39-49 | a URL that does not parse, or whose protocol is not `https:`, is refused |
| DashboardHelpers.ValidAppUrlMeans | frontend/src/utils/dashboard-helpers.ts:41-45 | an URL passes exactly when it is `https:` and its host is a trusted domain or a subdomain of one |
| DashboardHelpers.TrustedDomainsUnfold | frontend/src/utils/dashboard-helpers.ts:37 | the trusted list is exactly `iwa.web.tr` and `apps.iwa.web.tr` |
| DashboardHelpers.TrustedPrefixRefused | frontend/src/utils/dashboard-helpers.ts:43-45 | `https://iwa.web.tr.evil.com` is refused: a trusted name used as a prefix does not count |
| DashboardHelpers.SubdomainAccepted | frontend/src/utils/dashboard-helpers.ts:43-45 | `https://stockpulse.iwa.web.tr` is accepted |
| DashboardHelpers.SecondDomainRedundant | frontend/src/utils/dashboard-helpers.ts:37-45 | a host passes exactly when it is on `iwa.web.tr`; the second entry adds nothing |

## Left out

- Logging (`logger`) and the administrator audit trail (`logAudit`) are side effects
  only. `utils/auditLog` is not part of this model.
- The bodies of Google ID-token verification, `jwt.sign`/`jwt.verify`, `jwtDecode` and
  `JSON.stringify`/`JSON.parse` belong to external libraries, so they are parameters.
  `FollowsJwtLibrary` and `FollowsJson` state what is assumed of them. In particular,
  signature soundness is assumed, not proved.
- `AuthService.verifyTokenWithRevocationCheck` is called by `verifyToken` but is not
  part of this model. It is a parameter returning verified, expired or invalid, and no
  revocation logic is invented for it.
- The token store's 7-day TTL is kept as the audit row's expiry only. Expiry of the
  Redis slot by the clock is not modelled.
- The database schema is not part of this model, and neither are the constraint
  errors that would come from it. Identifiers are compared as exact strings, not as
  `uuid` values. Unique-key and foreign-key violations, which would surface as 500,
  are not modelled. `createdAt` and `is_email_verified` are written but never read by
  the core, so they are left out.
- The administrator handlers' 500 catch paths and `googleLogin`'s 500 on a database
  failure are not modelled; the steps are taken to succeed. `googleLogin`'s 500 when
  Google verification fails is modelled.
- `getUsers`, `getApplications` and `getRoles` are read-only listings with no logic
  beyond SQL, so they are left out.
- Concurrency is not modelled; handlers run one after another. This excludes the
  read-then-write race in `assignAppRole` and concurrent logins that race on the slot.
- `isValidUUID` is given a request-body value. Only a string can match, and the
  regular expression's coercion of arrays or numbers to strings is not modelled.
- `ClientSession.IsTokenExpired`: `exp` is an integer number of seconds. A fractional,
  non-numeric or `NaN` `exp` is not modelled.
- `new URL` parsing (WHATWG URL Standard) is not part of this model. `isValidAppUrl`
  takes the already-parsed protocol and hostname, or nothing for a URL that throws.
- `toLowerCase` is modelled on ASCII letters only; other letters are kept as they are.
- `DashboardHelpers.IsValidAppUrl`: its own contract states only the refusals. The
  exact acceptance condition is `DashboardHelpers.ValidAppUrlMeans`.
- `AuthService.LoadConfig`: lifetimes are read as whole seconds. `jsonwebtoken` hands
  the environment string to `ms`, so a unit-less "3600" means 3600 milliseconds, and a
  value `ms` cannot parse makes `jwt.sign` throw, which `googleLogin` turns into 500.
  Neither reading is modelled.
- `Tables.AccessRows`: the join keeps the order of `user_app_roles`. The SQL has no
  `ORDER BY`, so this order, and with it the role `AuthService.AppsOfLastWins` picks
  for a code that appears twice, is a modelling choice.
- `AuthController.GoogleLogin`: which matching row `findOrCreateUser` returns, when
  several match, is left open, because SQL fixes no order.

## Behaviour of the code worth knowing

The model follows the code in each of these points:

- `revokeToken` flags every audit row of the user, not only the most recent.
- A new token pair overwrites the slot but does not flag the previous audit row as
  revoked.
- `authenticate` does no revocation lookup, so a signature-valid, unexpired access
  token passes it even after logout.
- The slot TTL is fixed at 7 days rather than following the access lifetime.
- Startup checks only that both secrets are present, not that they differ. That is why
  `AuthService.RefreshTokenIsNotAccessToken` requires distinct secrets.
- The bearer scheme of section 2.1 of RFC 6750 is matched case-sensitively.
- The controller's `refreshToken` is not registered as a route.
- The browser's refresh request goes to `/auth/refresh` (frontend/src/services/api.ts:36-48),
  which is not served, so it throws. `RefreshAccessToken` then logs out; this is the
  `Threw` case.

## Findings

| source | as written | input that shows it | evidently intended | confidence | as-written member | corrected member |
|---|---|---|---|---|---|---|
| backend/src/controllers/auth.controller.ts:75-77 | `payload.apps[app_code]` also finds the members every object inherits from `Object.prototype`, and they are truthy | a valid token whose `apps` is `{}` and `app_code` "constructor" (or "toString", "__proto__" and the other inherited names) passes the access check; line 88 then takes an inherited function as `role`, which the JSON reply drops | access only for an own, non-empty role entry | not executed | AuthController.PrototypeNameBypassesAppCheck | AuthController.AppAccessMeansRole |
| frontend/src/utils/dashboard-helpers.ts:27 | `icons[appCode.toLowerCase()]` also finds inherited members | `getAppIcon("Constructor")` returns the `Object` constructor function instead of a path or null | a path for a listed code, null otherwise | not executed | DashboardHelpers.AppIconPrototypeMember | DashboardHelpers.GetAppIcon |
| frontend/src/utils/dashboard-helpers.ts:34 | `displayNames[appCode.toLowerCase()]` also finds inherited members | `getAppDisplayName("Stock Pulse", "__proto__")` returns `Object.prototype` instead of a name | the listed display name, otherwise `appName` | not executed | DashboardHelpers.DisplayNamePrototypeMember | DashboardHelpers.GetAppDisplayName |

In each row:

- the as-written lookup is modelled by `AuthController.AppAccessAsWritten`,
  `DashboardHelpers.GetAppIconAsWritten` or `DashboardHelpers.GetAppDisplayNameAsWritten`;
- the corrected lookup reads own properties only, through `JsText.GetOwnProperty`. The
  corrected definitions are `AuthController.AppAccess`, used by
  `AuthController.VerifyTokenHandler`, `DashboardHelpers.GetAppIcon` and
  `DashboardHelpers.GetAppDisplayName`.

`AuthController.AppChecksAgreeOffPrototype` and `DashboardHelpers.AppIconAgreesOffPrototype`
show that each pair differs only on the inherited names.
