/** The marketing app's edge middleware: one request in, one answer out. */
module WebMiddleware {
  import opened Basics
  import opened Strings
  import opened Registry

  const DEFAULT_LOCALE: string := "en"
  const LOCALES: set<string> := {"en", "fr", "de", "es", "ja", "zh", "ru", "ar", "ko"}
  const PROTECTED_PAGES: set<string> := {"/trade", "/account", "/reports"}
  const PROTECTED_APIS: set<string> := {
    "/api/account", "/api/kyc", "/api/password", "/api/positions", "/api/profile", "/api/transactions",
    "/api/wallet", "/api/security/mfa", "/api/security/sessions", "/api/security/step-up", "/api/support/cases"
  }
  const TRADE_DOMAIN_PREFIXES: set<string> := {
    "/login", "/register", "/forgot-password", "/reset-password", "/verify-email", "/trade", "/account",
    "/reports", "/admin", "/api/account", "/api/kyc", "/api/password", "/api/positions", "/api/profile",
    "/api/transactions", "/api/wallet", "/api/security", "/api/admin", "/api/register", "/api/support/cases"
  }
  const MARKETING_DOMAIN_PREFIXES: set<string> := {
    "/about", "/contact", "/analytics", "/tools", "/education", "/legal"
  }
  const STATIC_ASSETS: set<string> := {
    "/favicon.svg", "/favicon.ico", "/robots.txt", "/sitemap.xml", "/manifest.webmanifest", "/og.png",
    "/brand/", "/payments/"
  }

  /** Equal to the prefix, or below it. */
  predicate Under(path: string, prefix: string) {
    path == prefix || prefix + "/" <= path
  }

  predicate IsTradePath(path: string) {
    exists p :: p in TRADE_DOMAIN_PREFIXES && Under(path, p)
  }

  predicate IsMarketingPath(path: string) {
    path == "/" || exists p :: p in MARKETING_DOMAIN_PREFIXES && Under(path, p)
  }

  predicate StartsWithAny(path: string, prefixes: set<string>) {
    exists p :: p in prefixes && p <= path
  }

  // ---------------------------------------------------------------- hosts

  /** Within one of the first `n` domains. */
  predicate WithinAny(domains: seq<string>, n: nat, host: string)
    requires n <= |domains|
  {
    n > 0 && (WithinAny(domains, n - 1, host) || WithinApex(host, domains[n - 1]))
  }

  predicate HostIsTrusted(site: Site, host: string) {
    var stripped := StripPort(host);
    IsLocalHost(stripped) || EndsWith(stripped, ".localhost") || WithinAny(site.domains, |site.domains|, stripped)
  }

  /** The authority named by the proxy header if there is one, else by the Host header; lower-cased. */
  function RawHost(forwarded: Option<string>, host: Option<string>): string {
    Lower(if forwarded.Some? && forwarded.value != "" then Trim(Before(forwarded.value, ','))
          else if host.Some? then host.value else "")
  }

  /** An unrecognised host is replaced by the canonical brand domain. */
  function RequestHost(site: Site, raw: string): string {
    if HostIsTrusted(site, raw) then raw
    else if site.domains != [] then site.domains[0] else raw
  }

  /** The authority of `publicOrigin`, as the URL parser reads it. */
  function PublicOrigin(site: Site, raw: string): Authority {
    UrlAuthority(RequestHost(site, raw))
  }

  function TradeLabel(site: Site): string {
    Trim(if site.tradeSubdomain.Some? then site.tradeSubdomain.value else "trade")
  }

  function TradeHostOf(site: Site, domain: string): string {
    TradeLabel(site) + "." + domain
  }

  /** The trade host of one of the first `n` domains. */
  predicate AnyTradeHost(site: Site, n: nat, host: string)
    requires n <= |site.domains|
  {
    n > 0 && (AnyTradeHost(site, n - 1, host) || host == TradeHostOf(site, site.domains[n - 1]))
  }

  predicate IsTradeHost(site: Site, host: string) {
    AnyTradeHost(site, |site.domains|, host)
  }

  /** The first configured domain with the given trade host. */
  function FamilyOfTradeHost(site: Site, n: nat, host: string): (d: string)
    requires n <= |site.domains| && AnyTradeHost(site, n, host)
    ensures d in site.domains && host == TradeHostOf(site, d)
  {
    if AnyTradeHost(site, n - 1, host) then FamilyOfTradeHost(site, n - 1, host) else site.domains[n - 1]
  }

  predicate IsLocalRoute(route: string) {
    IsLocalHost(route) || EndsWith(route, ".localhost")
  }

  /** Where host routing sends a request, given the authority of the URL it edits and the family its path belongs
      to. */
  function RouteByFamily(site: Site, raw: string, base: Authority, root: bool, trade: bool, marketing: bool)
    : Option<Authority>
  {
    if site.domains == [] then None else
    var route := NormalizeHost(RequestHost(site, raw));
    if IsLocalRoute(route) then
      if trade then
        var brand := LocalDevelopmentHost(route);
        Some(if brand.Some? then WithHostname(site.tradeDevOrigin, brand.value) else site.tradeDevOrigin)
      else None
    else if route in site.domains && !root && trade then
      Some(WithHostname(base, FamilyTradeHost(site, route)))
    else if IsTradeHost(site, route) && marketing then
      Some(WithHostname(base, FamilyOfTradeHost(site, |site.domains|, route)))
    else None
  }

  /** The authority a request for `path` is bounced to, with path and query kept; None when it may stay. */
  function DomainRedirect(site: Site, raw: string, path: string): Option<Authority> {
    RedirectFrom(site, raw, PublicOrigin(site, raw), path)
  }

  function RedirectFrom(site: Site, raw: string, base: Authority, path: string): Option<Authority> {
    RouteByFamily(site, raw, base, path == "/", IsTradePath(path), IsMarketingPath(path))
  }

  /** The brand domain a locale cookie may be scoped to: the first that covers the host. */
  function CookieDomain(domains: seq<string>, raw: string): (r: Option<string>)
    ensures r.Some? ==> exists k ::
      && 0 <= k < |domains| && domains[k] == r.value && WithinApex(NormalizeHost(raw), domains[k])
      && forall j :: 0 <= j < k ==> !WithinApex(NormalizeHost(raw), domains[j])
    ensures r.None? ==> forall d :: d in domains ==> !WithinApex(NormalizeHost(raw), d)
  {
    if domains == [] then None
    else if WithinApex(NormalizeHost(raw), domains[0]) then Some(domains[0])
    else CookieDomain(domains[1..], raw)
  }

  // ---------------------------------------------------------------- locale prefixes

  predicate HasLocale(path: string) {
    && |path| >= 3 && path[0] == '/' && path[1..3] in LOCALES
    && (|path| == 3 || path[3] == '/')
  }

  function LocaleOf(path: string): (l: string)
    requires HasLocale(path)
    ensures l in LOCALES && |l| == 2
  {
    path[1..3]
  }

  function StripLocale(path: string): (r: string)
    requires HasLocale(path)
    ensures |r| < |path| && |r| >= 1 && r[0] == '/'
  {
    if |path| == 3 then "/" else path[3..]
  }

  /** One prefix removed, if there is one. */
  function Stripped(path: string): string {
    if HasLocale(path) then StripLocale(path) else path
  }

  // ---------------------------------------------------------------- URLs

  datatype Url = Url(host: Authority, path: string, query: string)

  /** `new URL(path + query, origin)`: a reference that begins with two slashes names its own authority. */
  function Resolve(path: string, query: string, origin: Authority): Url {
    if "//" <= path then
      var from := SlashesEnd(path, 2);
      var end := IndexFrom(path, '/', from);
      Url(UrlAuthority(path[from..end]), if end == |path| then "/" else path[end..], query)
    else Url(origin, path, query)
  }

  // ---------------------------------------------------------------- the handler

  datatype Request = Request(
    host: string,                 // RawHost of the headers
    path: string,
    query: string,
    cookieLocale: Option<string>, // what req.cookies reads for NEXT_LOCALE
    resolved: bool,               // the x-locale-resolved marker
    loggedIn: bool,
    originAllowed: bool
  )

  datatype Answer =
    | Pass
    | Refuse(status: int)
    | Redirect(status: int, target: Url, stamped: Option<string>)
    | Rewrite(target: Url, locale: string)

  predicate IsStatic(path: string) { StartsWithAny(path, STATIC_ASSETS) }

  predicate IsApi(path: string) { "/api/" <= path }

  predicate OnTradeHost(site: Site, raw: string) {
    IsTradeHost(site, StripPort(RequestHost(site, raw)))
  }

  /** An unprefixed page asked for with a supported non-default locale cookie moves to its prefixed URL. */
  predicate Sticky(site: Site, req: Request) {
    && req.cookieLocale.Some? && req.cookieLocale.value in LOCALES
    && req.cookieLocale.value != DEFAULT_LOCALE
    && !IsStatic(req.path) && !IsApi(req.path)
    && !OnTradeHost(site, req.host)
    && !req.resolved
  }

  predicate GuestOnly(path: string) { path == "/login" || path == "/register" }

  function CallbackQuery(path: string, query: string): string {
    "?callbackUrl=" + path + query
  }

  /** What remains once host routing and locales have let an unprefixed request through. */
  function Gate(site: Site, req: Request): Answer {
    var origin := PublicOrigin(site, req.host);
    if !("/api/auth/" <= req.path) && req.path != "/api/support" && IsApi(req.path) && !req.originAllowed
    then Refuse(403)
    else if GuestOnly(req.path) && req.loggedIn then Redirect(307, Resolve("/account", "", origin), None)
    else if !StartsWithAny(req.path, PROTECTED_PAGES) && !StartsWithAny(req.path, PROTECTED_APIS) then Pass
    else if req.loggedIn then Pass
    else if StartsWithAny(req.path, PROTECTED_APIS) then Refuse(401)
    else Redirect(307, Resolve("/login", CallbackQuery(req.path, req.query), origin), None)
  }

  /**
   * The path host routing looks at. The handler writes the stripped path to req.nextUrl and then reads
   * req.url; whether the framework keeps the two in step is not visible here, so both are modelled.
   */
  function RoutedPath(urlFollows: bool, path: string): string {
    if urlFollows then Stripped(path) else path
  }

  /** The URL a request is bounced to. Away from development hosts a path that begins with two slashes is read
      again as a reference of its own: what follows its authority decides, and the authority's port is kept. */
  function DomainBounce(site: Site, raw: string, path: string, query: string): Option<Url> {
    if "//" <= path && !IsLocalRoute(NormalizeHost(RequestHost(site, raw))) then
      var url := Resolve(path, query, PublicOrigin(site, raw));
      match RedirectFrom(site, raw, url.host, url.path)
      case Some(host) => Some(url.(host := host))
      case None => None
    else
      match DomainRedirect(site, raw, path)
      case Some(host) => Some(Url(host, path, query))
      case None => None
  }

  function AuthHandler(site: Site, urlFollows: bool, req: Request): Answer {
    var origin := PublicOrigin(site, req.host);
    var bounce := DomainBounce(site, req.host, RoutedPath(urlFollows, req.path), req.query);
    if bounce.Some? then
      Redirect(307, if HasLocale(req.path) then bounce.value.(path := req.path) else bounce.value, None)
    else if HasLocale(req.path) then
      var target := Resolve(StripLocale(req.path), req.query, origin);
      if LocaleOf(req.path) == DEFAULT_LOCALE
      then Redirect(308, target, Some(DEFAULT_LOCALE))
      else Rewrite(target, LocaleOf(req.path))
    else if Sticky(site, req) then
      Redirect(307, Resolve("/" + req.cookieLocale.value + req.path, req.query, origin), None)
    else Gate(site, req)
  }
}
