/**
 * The dashboard's display helpers: the badge style of a role, the icon and the display
 * name of an application (both looked up by lower-cased application code in a constant
 * table), and the check that an application's URL is an `https:` address on a trusted
 * domain.
 */
module DashboardHelpers {
  import opened Wrappers
  import opened JsText

  // ---------------------------------------------------------------- role badges

  const ADMIN_BADGE := "bg-gradient-to-r from-red-500 to-pink-500 text-white"
  const EDITOR_BADGE := "bg-gradient-to-r from-blue-500 to-cyan-500 text-white"
  const VIEWER_BADGE := "bg-gradient-to-r from-gray-400 to-gray-500 text-white"

  /** `getRoleBadgeStyle(roleCode)`; `None` is an `undefined` role code. */
  function RoleBadgeStyle(roleCode: Option<string>): (style: string)
    ensures style == ADMIN_BADGE <==> roleCode == Some("admin")
    ensures style == EDITOR_BADGE <==> roleCode == Some("editor")
    ensures roleCode != Some("admin") && roleCode != Some("editor") ==> style == VIEWER_BADGE
  {
    match roleCode
    case Some("admin") => ADMIN_BADGE
    case Some("editor") => EDITOR_BADGE
    case Some("viewer") => VIEWER_BADGE
    case _ => VIEWER_BADGE
  }

  // ---------------------------------------------------------------- application icons

  const ICONS: map<string, string> := map[
    "amzsellmetrics" := "/icons/amazon.svg",
    "stockpulse" := "/icons/stockpulse.svg",
    "pricelab" := "/icons/pricelab.svg",
    "manumaestro" := "/icons/manumaestro.svg",
    "swiftstock" := "/icons/swiftstock.svg",
    "shipmate" := "/icons/shipmate.svg",
    "fundmate" := "/icons/fundmate.svg",
    "databridge" := "/icons/databridge.svg"
  ]

  /**
   * What `icons[code] || null` can evaluate to: a path from the table, a member that
   * every object inherits from `Object.prototype` (a function, not a string), or null.
   */
  datatype Lookup = Text(value: string) | PrototypeMember(name: string) | NullResult

  /** `getAppIcon(appCode)` as written: the lookup also finds the inherited members. */
  function GetAppIconAsWritten(appCode: string): Lookup {
    match GetProperty(ICONS, Lower(appCode))
    case Own(path) => if path != "" then Text(path) else NullResult
    case Inherited(name) => PrototypeMember(name)
    case Absent => NullResult
  }

  /** `getAppIcon(appCode)` as intended: a listed path for a listed code, in any letter case, else null. */
  function GetAppIcon(appCode: string): (icon: Option<string>)
    ensures icon.Some? <==> Lower(appCode) in ICONS
    ensures icon.Some? ==> icon.value == ICONS[Lower(appCode)]
  {
    match GetOwnProperty(ICONS, Lower(appCode))
    case Own(path) => if path != "" then Some(path) else None
    case _ => None
  }

  /** The icon does not depend on the letter case of the code. */
  lemma AppIconIgnoresCase(appCode: string)
    ensures GetAppIcon(appCode) == GetAppIcon(Lower(appCode))
    ensures GetAppIconAsWritten(appCode) == GetAppIconAsWritten(Lower(appCode))
  {
    LowerIdempotent(appCode);
  }

  /** A string without capitals is its own lower-case form. */
  lemma LowerOfLowerCase(s: string)
    requires forall i :: 0 <= i < |s| ==> !IsAsciiUpper(s[i])
    ensures Lower(s) == s
  {
  }

  /** The table's codes are all lower-case, so each listed code finds its own icon. */
  lemma AppIconListed(code: string)
    requires code in ICONS
    ensures GetAppIcon(code) == Some(ICONS[code])
  {
    assert code in ICONS.Keys;
    assert forall i :: 0 <= i < |code| ==> 'a' <= code[i] <= 'z';
    LowerOfLowerCase(code);
  }

  /** The empty code has no icon. */
  lemma AppIconEmpty()
    ensures GetAppIcon("") == None
  {
    assert Lower("") == "";
  }

  /**
   * As written, `getAppIcon("constructor")`, `getAppIcon("Constructor")` or
   * `getAppIcon("__proto__")` is an inherited member instead of a path or null; as
   * intended it is null.
   */
  lemma AppIconPrototypeMember()
    ensures GetAppIconAsWritten("Constructor") == PrototypeMember("constructor")
    ensures GetAppIcon("Constructor") == None
  {
    var code := "Constructor";
    assert Lower(code) == "constructor" by {
      assert Lower(code)[0] == 'c';
      assert Lower(code)[1..] == code[1..] by {
        assert forall i :: 1 <= i < |code| ==> !IsAsciiUpper(code[i]);
      }
      assert Lower(code) == [Lower(code)[0]] + Lower(code)[1..];
    }
  }

  /** Off the inherited names the two definitions agree. */
  lemma AppIconAgreesOffPrototype(appCode: string)
    requires Lower(appCode) !in OBJECT_PROTOTYPE_NAMES
    ensures GetAppIconAsWritten(appCode) == match GetAppIcon(appCode) case Some(p) => Text(p) case None => NullResult
  {
  }

  // ---------------------------------------------------------------- display names

  const DISPLAY_NAMES: map<string, string> := map["amzsellmetrics" := "AmzSellMetrics"]

  /** `getAppDisplayName(appName, appCode)` as written: `displayNames[code] || appName`. */
  function GetAppDisplayNameAsWritten(appName: string, appCode: string): Lookup {
    match GetProperty(DISPLAY_NAMES, Lower(appCode))
    case Own(name) => if name != "" then Text(name) else Text(appName)
    case Inherited(member) => PrototypeMember(member)
    case Absent => Text(appName)
  }

  /** `getAppDisplayName(appName, appCode)` as intended: the listed display name, else `appName`. */
  function GetAppDisplayName(appName: string, appCode: string): (name: string)
    ensures Lower(appCode) == "amzsellmetrics" ==> name == "AmzSellMetrics"
    ensures Lower(appCode) != "amzsellmetrics" ==> name == appName
  {
    match GetOwnProperty(DISPLAY_NAMES, Lower(appCode))
    case Own(display) => if display != "" then display else appName
    case _ => appName
  }

  /** As written, the code `__proto__` yields an object where a display name was expected. */
  lemma DisplayNamePrototypeMember()
    ensures GetAppDisplayNameAsWritten("Stock Pulse", "__proto__") == PrototypeMember("__proto__")
    ensures GetAppDisplayName("Stock Pulse", "__proto__") == "Stock Pulse"
  {
    LowerOfLowerCase("__proto__");
  }

  // ---------------------------------------------------------------- trusted application URLs

  const TRUSTED_DOMAINS: seq<string> := ["iwa.web.tr", "apps.iwa.web.tr"]

  /** The two fields of `new URL(url)` that the check reads. */
  datatype ParsedUrl = ParsedUrl(protocol: string, hostname: string)

  /** The hostname is `domain` itself or a subdomain of it. */
  predicate OnDomain(hostname: string, domain: string) {
    hostname == domain || EndsWith(hostname, "." + domain)
  }

  /** `domains.some(domain => hostname === domain || hostname.endsWith('.' + domain))`. */
  function SomeTrusted(hostname: string, domains: seq<string>): (r: bool)
    decreases |domains|
  {
    if domains == [] then false
    else OnDomain(hostname, domains[0]) || SomeTrusted(hostname, domains[1..])
  }

  lemma {:induction false} SomeTrustedMeansOnDomain(hostname: string, domains: seq<string>)
    ensures SomeTrusted(hostname, domains) <==> exists i :: 0 <= i < |domains| && OnDomain(hostname, domains[i])
    decreases |domains|
  {
    if domains != [] {
      SomeTrustedMeansOnDomain(hostname, domains[1..]);
      if SomeTrusted(hostname, domains[1..]) {
        var i :| 0 <= i < |domains[1..]| && OnDomain(hostname, domains[1..][i]);
        assert domains[1..][i] == domains[i + 1];
      }
      if exists i :: 0 <= i < |domains| && OnDomain(hostname, domains[i]) {
        var i :| 0 <= i < |domains| && OnDomain(hostname, domains[i]);
        if i > 0 {
          assert domains[1..][i - 1] == domains[i];
        }
      }
    }
  }

  /** `isValidAppUrl(url)`; `None` is a URL that `new URL` refuses. */
  function IsValidAppUrl(parsed: Option<ParsedUrl>): (ok: bool)
    ensures parsed.None? ==> !ok
    ensures parsed.Some? && parsed.value.protocol != "https:" ==> !ok
  {
    match parsed
    case None => false
    case Some(url) => url.protocol == "https:" && SomeTrusted(url.hostname, TRUSTED_DOMAINS)
  }

  /** An https URL passes exactly when its host is a trusted domain or a subdomain of one. */
  lemma ValidAppUrlMeans(url: ParsedUrl)
    ensures IsValidAppUrl(Some(url)) <==>
      url.protocol == "https:" && exists i :: 0 <= i < |TRUSTED_DOMAINS| && OnDomain(url.hostname, TRUSTED_DOMAINS[i])
  {
    SomeTrustedMeansOnDomain(url.hostname, TRUSTED_DOMAINS);
  }

  /** A string ends with whatever was appended to it. */
  lemma EndsWithAppended(a: string, b: string)
    ensures EndsWith(a + b, b)
  {
    assert (a + b)[|a + b| - |b|..] == b;
  }

  /** A string does not end with a text whose last character differs from its own. */
  lemma LastCharDiffers(s: string, t: string)
    requires |s| > 0 && |t| > 0 && s[|s| - 1] != t[|t| - 1]
    ensures !EndsWith(s, t)
  {
  }

  /** A suffix of a suffix is a suffix. */
  lemma EndsWithTransitive(s: string, t: string, u: string)
    requires EndsWith(s, t) && EndsWith(t, u)
    ensures EndsWith(s, u)
  {
    assert s[|s| - |u|..] == s[|s| - |t|..][|t| - |u|..];
  }

  lemma TrustedDomainsUnfold(hostname: string)
    ensures SomeTrusted(hostname, TRUSTED_DOMAINS) <==>
      OnDomain(hostname, "iwa.web.tr") || OnDomain(hostname, "apps.iwa.web.tr")
  {
    assert TRUSTED_DOMAINS[1..] == ["apps.iwa.web.tr"];
    assert TRUSTED_DOMAINS[1..][1..] == [];
  }

  /** A trusted name used as a mere prefix of the host is refused. */
  lemma TrustedPrefixRefused()
    ensures !IsValidAppUrl(Some(ParsedUrl("https:", "iwa.web.tr.evil.com")))
  {
    var evil := "iwa.web.tr.evil.com";
    TrustedDomainsUnfold(evil);
    LastCharDiffers(evil, "." + "iwa.web.tr");
    LastCharDiffers(evil, "." + "apps.iwa.web.tr");
    assert |evil| != |"iwa.web.tr"| && |evil| != |"apps.iwa.web.tr"|;
  }

  /** A subdomain of a trusted domain is accepted over https. */
  lemma SubdomainAccepted()
    ensures IsValidAppUrl(Some(ParsedUrl("https:", "stockpulse.iwa.web.tr")))
  {
    var host := "stockpulse.iwa.web.tr";
    var suffix := "." + "iwa.web.tr";
    assert host == "stockpulse" + suffix;
    EndsWithAppended("stockpulse", suffix);
    assert OnDomain(host, TRUSTED_DOMAINS[0]);
  }

  /**
   * The second trusted domain adds nothing: `apps.iwa.web.tr` and its subdomains are
   * already subdomains of `iwa.web.tr`.
   */
  lemma SecondDomainRedundant(hostname: string)
    ensures SomeTrusted(hostname, TRUSTED_DOMAINS) <==> OnDomain(hostname, "iwa.web.tr")
  {
    TrustedDomainsUnfold(hostname);
    var apps := "apps.iwa.web.tr";
    var suffix := "." + "iwa.web.tr";
    assert apps == "apps" + suffix;
    EndsWithAppended("apps", suffix);
    if hostname != apps && EndsWith(hostname, "." + apps) {
      assert "." + apps == ".apps" + suffix;
      EndsWithAppended(".apps", suffix);
      EndsWithTransitive(hostname, "." + apps, suffix);
    }
  }
}
