/** Which hosts the marketing app's redirects and rewrites can name. */
module RoutingTargets {
  import opened Basics
  import opened Strings
  import opened Registry
  import opened WebMiddleware
  import opened PathFamilies
  import opened RoutingChain
  import opened HostFacts

  /** At least one apex, and only names a URL can hold as apexes and trade hosts. */
  ghost predicate NamesAreSettable(site: Site) {
    && site.domains != []
    && forall d :: d in site.domains ==> Settable(d) && Settable(FamilyTradeHost(site, d))
  }

  /** Hosts of the deployment: at or below an apex, a family's trade host, or the development origin. */
  predicate Configures(site: Site, host: Authority)
    requires site.domains != []
  {
    || WithinAny(site.domains, |site.domains|, StripPort(host))
    || host == site.tradeDevOrigin
    || exists d :: d in site.domains && StripPort(host) == FamilyTradeHost(site, d)
  }

  predicate LocalName(name: string) {
    name == "localhost" || name == "127.0.0.1" || EndsWith(name, ".localhost")
  }

  /** The hosts a redirect may name. */
  predicate Inside(site: Site, host: Authority)
    requires site.domains != []
  {
    Configures(site, host) || LocalName(StripPort(host))
  }

  // ---------------------------------------------------------------- origins

  /** A trusted host header in which the URL parser reads a host outside the deployment. */
  predicate Misread(site: Site, raw: string)
    requires site.domains != []
  {
    HostIsTrusted(site, raw) && !Inside(site, UrlAuthority(raw))
  }

  lemma OriginInsideIff(site: Site, raw: string)
    requires NamesAreSettable(site)
    ensures Inside(site, PublicOrigin(site, raw)) <==> !Misread(site, raw)
  {
    var d := site.domains[0];
    assert d in site.domains;
    SettableIsItself(d);
    WithinAnyHas(site.domains, |site.domains|, d, d);
  }

  lemma SettableIsItself(d: string)
    requires Settable(d)
    ensures UrlAuthority(d) == d && StripPort(d) == d
  {
  }

  /** A host that is neither configured nor a local name but extends "127.0.0.1" or is some other dotted quad
      (or becomes "localhost" only when trimmed and stripped again). */
  predicate PassesAsLocal(site: Site, host: Authority)
    requires site.domains != []
  {
    var name := StripPort(host);
    var bare := StripPort(Lower(Trim(name)));
    && ("127.0.0.1" <= bare || DottedQuadFrom(bare, 0, false) || bare == "localhost")
    && !LocalName(name) && !Configures(site, host)
  }

  /** Without delimiters and user part, that is the only way to be misread. */
  lemma PlainHostMisreadIff(site: Site, host: Authority)
    requires site.domains != []
    ensures Misread(site, host) <==> PassesAsLocal(site, host)
  {
    hide Trim, Lower, StripPort, EndsWith, WithinAny, DottedQuadFrom, FamilyTradeHost;
  }

  // ---------------------------------------------------------------- bounces

  /** A development host whose brand name the hostname setter cuts to a host outside the deployment. */
  predicate MisreadBrand(site: Site, raw: string)
    requires site.domains != []
  {
    var route := NormalizeHost(RequestHost(site, raw));
    var brand := LocalDevelopmentHost(route);
    IsLocalRoute(route) && brand.Some? && !Inside(site, WithHostname(site.tradeDevOrigin, brand.value))
  }

  lemma LocalNameKeepsPort(authority: Authority, name: string)
    requires EndsWith(name, ".localhost") && Settable(name)
    ensures LocalName(StripPort(WithHostname(authority, name)))
  {
    StripWithHostname(authority, name);
  }

  lemma LowerKeepsMarks(s: string)
    requires IsAuthority(s)
    ensures IsAuthority(Lower(s))
  {
  }

  lemma {:induction false} TrimEndIsAuthority(s: string)
    requires IsAuthority(s)
    ensures IsAuthority(TrimEnd(s))
  {
    hide IsSpace;
    if s != [] && IsSpace(s[|s| - 1]) {
      TrimEndIsAuthority(s[..|s| - 1]);
    }
  }

  lemma {:induction false} TrimIsAuthority(s: string)
    requires IsAuthority(s)
    ensures IsAuthority(Trim(s))
    decreases |s|
  {
    hide IsSpace, TrimEnd;
    if s != [] && IsSpace(s[0]) {
      TrimIsAuthority(s[1..]);
    } else {
      TrimEndIsAuthority(s);
    }
  }

  lemma NormalizedIsAuthority(s: string)
    requires IsAuthority(s)
    ensures IsAuthority(NormalizeHost(s))
  {
    TrimIsAuthority(s);
    LowerKeepsMarks(Trim(s));
    hide Trim, Lower;
  }

  /** A plain host never has its brand misread: what the setter does not take leaves the development origin. */
  lemma PlainHostBrand(site: Site, host: Authority)
    requires site.domains != [] && IsAuthority(site.domains[0])
    ensures !MisreadBrand(site, host)
  {
    hide NormalizeHost, RequestHost, StripPort, FamilyTradeHost, WithinAny, IsLocalHost, IsAuthority, Inside;
    hide WithHostname;
    var route := NormalizeHost(RequestHost(site, host));
    RequestHostIsPlain(site, host);
    NormalizedIsAuthority(RequestHost(site, host));
    NormalizedIsAuthority(route);
    var brand := LocalDevelopmentHost(route);
    if brand.Some? {
      BrandIsInside(site, brand.value);
    }
  }

  lemma RequestHostIsPlain(site: Site, host: Authority)
    requires site.domains != [] && IsAuthority(site.domains[0])
    ensures IsAuthority(RequestHost(site, host))
  {
    hide HostIsTrusted;
  }

  lemma BrandIsInside(site: Site, brand: string)
    requires site.domains != [] && IsAuthority(brand) && EndsWith(brand, ".localhost")
    ensures Inside(site, WithHostname(site.tradeDevOrigin, brand))
  {
    assert brand[..AuthorityEnd(brand, 0)] == brand;
    if Settable(brand) {
      hide StripPort, FamilyTradeHost, WithinAny;
      LocalNameKeepsPort(site.tradeDevOrigin, brand);
    }
  }

  lemma NamedIsInside(site: Site, authority: Authority, name: string)
    requires site.domains != [] && Settable(name)
    requires name in site.domains || exists d :: d in site.domains && name == FamilyTradeHost(site, d)
    ensures Inside(site, WithHostname(authority, name))
  {
    StripWithHostname(authority, name);
    hide FamilyTradeHost, WithHostname;
    if name in site.domains {
      WithinAnyHas(site.domains, |site.domains|, name, name);
    }
  }

  lemma RedirectIsInside(site: Site, raw: string, base: Authority, path: string)
    requires NamesAreSettable(site) && RedirectFrom(site, raw, base, path).Some?
    requires !IsLocalRoute(NormalizeHost(RequestHost(site, raw)))
    ensures Inside(site, RedirectFrom(site, raw, base, path).value)
  {
    hide Inside, WithHostname, NormalizeHost, RequestHost, IsLocalRoute, Settable;
    var route := NormalizeHost(RequestHost(site, raw));
    if route in site.domains && path != "/" && IsTradePath(path) {
      NamedIsInside(site, base, FamilyTradeHost(site, route));
    } else {
      NamedIsInside(site, base, FamilyOfTradeHost(site, |site.domains|, route));
    }
  }

  lemma LocalRedirectIsInsideIff(site: Site, raw: string, path: string)
    requires site.domains != [] && DomainRedirect(site, raw, path).Some?
    requires IsLocalRoute(NormalizeHost(RequestHost(site, raw)))
    ensures Inside(site, DomainRedirect(site, raw, path).value) <==> !MisreadBrand(site, raw)
  {
    hide WithHostname, NormalizeHost, RequestHost, IsLocalRoute, EndsWith, WithinAny, FamilyTradeHost, StripPort;
  }

  /** A bounce names an apex, a family's trade host or a development host, unless the brand name is misread. */
  lemma BounceIsInsideIff(site: Site, raw: string, path: string, query: string)
    requires NamesAreSettable(site) && DomainBounce(site, raw, path, query).Some?
    ensures Inside(site, DomainBounce(site, raw, path, query).value.host) <==> !MisreadBrand(site, raw)
  {
    assert site.domains != [];
    hide RedirectFrom, Inside, NamesAreSettable, Resolve, PublicOrigin, NormalizeHost, RequestHost, WithHostname;
    if IsLocalRoute(NormalizeHost(RequestHost(site, raw))) {
      LocalRedirectIsInsideIff(site, raw, path);
    } else if "//" <= path {
      var url := Resolve(path, query, PublicOrigin(site, raw));
      RedirectIsInside(site, raw, url.host, url.path);
    } else {
      RedirectIsInside(site, raw, PublicOrigin(site, raw), path);
    }
  }

  // ---------------------------------------------------------------- locale moves

  /** Stripping the locale leaves a reference with an authority of its own. */
  predicate NamesAuthority(path: string) {
    HasLocale(path) && "//" <= StripLocale(path)
  }

  /** The text between the leading slashes of a reference and the next one. */
  function Spelled(rest: string): string {
    Before(rest[SlashesEnd(rest, 0)..], '/')
  }

  function AuthorityIn(path: string): Authority
    requires NamesAuthority(path)
  {
    UrlAuthority(Spelled(StripLocale(path)))
  }

  function Bounce(site: Site, urlFollows: bool, req: Request): Option<Url> {
    DomainBounce(site, req.host, RoutedPath(urlFollows, req.path), req.query)
  }

  lemma {:induction false} BeforeIsIndexed(s: string, c: char, from: nat)
    requires from <= |s|
    ensures Before(s[from..], c) == s[from..IndexFrom(s, c, from)]
    decreases |s| - from
  {
    if from < |s| && s[from] != c {
      BeforeIsIndexed(s, c, from + 1);
      assert s[from..][1..] == s[from + 1..];
      assert s[from..IndexFrom(s, c, from)] == [s[from]] + s[from + 1..IndexFrom(s, c, from)];
    }
  }

  lemma LocaleMoveIsResolved(site: Site, urlFollows: bool, req: Request)
    requires HasLocale(req.path) && Bounce(site, urlFollows, req).None?
    ensures AuthHandler(site, urlFollows, req)
      == var target := Resolve(StripLocale(req.path), req.query, PublicOrigin(site, req.host));
         if LocaleOf(req.path) == DEFAULT_LOCALE then Redirect(308, target, Some(DEFAULT_LOCALE))
         else Rewrite(target, LocaleOf(req.path))
  {
    hide DomainBounce, PublicOrigin, Resolve;
  }

  /** A reference is its slashes, the text of its authority, and its path. */
  ghost predicate Splits(rest: string, text: string, path: string) {
    var from := SlashesEnd(rest, 0);
    && '/' !in text
    && (if rest[from..] == text then path == "/" else rest[from..] == text + path && "/" <= path)
  }

  lemma ReferenceParts(rest: string, query: string, origin: Authority)
    requires "//" <= rest
    ensures var t := Resolve(rest, query, origin);
      t.host == UrlAuthority(Spelled(rest)) && t.query == query && Splits(rest, Spelled(rest), t.path)
  {
    var from := SlashesEnd(rest, 2);
    assert SlashesEnd(rest, 0) == SlashesEnd(rest, 1) == from;
    var end := IndexFrom(rest, '/', from);
    BeforeIsIndexed(rest, '/', from);
    hide IndexFrom, SlashesEnd, UrlAuthority;
    assert rest[from..] == rest[from..end] + rest[end..];
  }

  /** A locale move stays on the request's origin, with the stripped path, exactly when that path does not begin with
      two slashes; otherwise it goes to the authority written in the path, and only what follows is the path. */
  lemma LocaleMoveKeepsOriginIff(site: Site, urlFollows: bool, req: Request)
    requires HasLocale(req.path) && Bounce(site, urlFollows, req).None?
    ensures var t, rest := AuthHandler(site, urlFollows, req).target, StripLocale(req.path);
      && t.query == req.query
      && (t == Url(PublicOrigin(site, req.host), rest, req.query) <==> !NamesAuthority(req.path))
      && (NamesAuthority(req.path) ==> t.host == AuthorityIn(req.path) && Splits(rest, Spelled(rest), t.path))
  {
    var rest, origin := StripLocale(req.path), PublicOrigin(site, req.host);
    LocaleMoveIsResolved(site, urlFollows, req);
    hide PublicOrigin, DomainBounce, AuthHandler, HasLocale, StripLocale, Before, Splits, UrlAuthority;
    if "//" <= rest {
      hide Resolve;
      ReferenceParts(rest, req.query, origin);
      ShorterPath(rest, req.query, origin);
    }
  }

  lemma ShorterPath(rest: string, query: string, origin: Authority)
    requires "//" <= rest
    ensures |Resolve(rest, query, origin).path| < |rest|
  {
    hide UrlAuthority;
  }

  // ---------------------------------------------------------------- every target

  lemma StaysOnOrigin(path: string, query: string, origin: Authority)
    requires !("//" <= path)
    ensures Resolve(path, query, origin).host == origin
  {
  }

  lemma StickyTarget(locale: string, path: string, query: string, origin: Authority)
    requires locale in LOCALES
    ensures Resolve("/" + locale + path, query, origin).host == origin
  {
    var p := "/" + locale + path;
    assert |locale| == 2 && locale[0] != '/';
    assert p[1] != '/';
    StaysOnOrigin(p, query, origin);
    hide Resolve;
  }

  lemma UnprefixedTarget(site: Site, urlFollows: bool, req: Request)
    requires !HasLocale(req.path) && Bounce(site, urlFollows, req).None?
    ensures var a := AuthHandler(site, urlFollows, req);
      a.Redirect? || a.Rewrite? ==> a.target.host == PublicOrigin(site, req.host)
  {
    hide DomainBounce, PublicOrigin, Resolve, HasLocale, IsStatic, IsApi, OnTradeHost, Gate;
    if Sticky(site, req) {
      StickyTarget(req.cookieLocale.value, req.path, req.query, PublicOrigin(site, req.host));
    }
    GateMoves(site, req);
  }

  lemma BouncedTarget(site: Site, urlFollows: bool, req: Request)
    requires Bounce(site, urlFollows, req).Some?
    ensures var a := AuthHandler(site, urlFollows, req);
      a.Redirect? && a.target.host == Bounce(site, urlFollows, req).value.host
  {
    hide DomainBounce, PublicOrigin;
  }

  /** Every redirect and rewrite, for all headers and paths: exactly when its target is a host of the deployment. */
  lemma TargetInsideIff(site: Site, urlFollows: bool, req: Request)
    requires NamesAreSettable(site)
    ensures var a := AuthHandler(site, urlFollows, req);
      a.Redirect? || a.Rewrite? ==>
        (Inside(site, a.target.host) <==>
          if Bounce(site, urlFollows, req).Some? then !MisreadBrand(site, req.host)
          else if NamesAuthority(req.path) then Inside(site, AuthorityIn(req.path))
          else !Misread(site, req.host))
  {
    hide DomainBounce, Inside, Misread, MisreadBrand, NamesAreSettable, AuthHandler, PublicOrigin, AuthorityIn;
    hide Splits, Spelled;
    OriginInsideIff(site, req.host);
    if Bounce(site, urlFollows, req).Some? {
      BouncedTarget(site, urlFollows, req);
      BounceIsInsideIff(site, req.host, RoutedPath(urlFollows, req.path), req.query);
    } else if HasLocale(req.path) {
      LocaleMoveIsResolved(site, urlFollows, req);
      LocaleMoveKeepsOriginIff(site, urlFollows, req);
    } else {
      UnprefixedTarget(site, urlFollows, req);
    }
  }

  predicate TargetInside(site: Site, urlFollows: bool, req: Request)
    requires site.domains != []
  {
    var a := AuthHandler(site, urlFollows, req);
    a.Redirect? || a.Rewrite? ==> Inside(site, a.target.host)
  }

  /** A path without families: its default-locale form is always redirected to the bare one. */
  lemma AnyHostCanonicalises(site: Site, urlFollows: bool, req: Request)
    requires req.path == "/en/x"
    ensures AuthHandler(site, urlFollows, req)
      == Redirect(308, Url(PublicOrigin(site, req.host), "/x", req.query), Some("en"))
    ensures Bounce(site, urlFollows, req).None? && !NamesAuthority(req.path)
  {
    PrefixThenStrip("en", "/x");
    assert "/en" + "/x" == "/en/x";
    HeadlessPath("/x");
    HeadlessPath("/en/x");
    NoFamilyNoBounce(site, req.host, RoutedPath(urlFollows, req.path), req.query);
    hide DomainBounce, PublicOrigin;
    LocaleMoveIsResolved(site, urlFollows, req);
  }

  lemma HeadlessPath(path: string)
    requires path == "/x" || path == "/en/x"
    ensures !IsTradePath(path) && !IsMarketingPath(path) && !("//" <= path)
  {
    assert path[1] != '/';
    FamiliesDisjoint(path);
    if IsTradePath(path) {
      var p :| p in TRADE_DOMAIN_PREFIXES && Under(path, p);
      TradePathHead(path, p);
    }
    if IsMarketingPath(path) {
      var p :| p in MARKETING_DOMAIN_PREFIXES && Under(path, p);
      MarketingPathHead(path, p);
    }
  }

  lemma NoFamilyNoBounce(site: Site, raw: string, path: string, query: string)
    requires !IsTradePath(path) && !IsMarketingPath(path) && !("//" <= path)
    ensures DomainBounce(site, raw, path, query).None?
  {
    hide RequestHost, NormalizeHost, IsLocalRoute, PublicOrigin;
  }

  /** A bare request for a path. */
  function Probe(host: string, path: string): Request {
    Request(host, path, "", None, false, false, true)
  }

  lemma MisreadHostEscapes(site: Site, urlFollows: bool, host: string)
    requires NamesAreSettable(site) && Misread(site, host)
    ensures !NamesAuthority("/en/x") && !TargetInside(site, urlFollows, Probe(host, "/en/x"))
  {
    hide AuthHandler, Misread, MisreadBrand, NamesAreSettable, PublicOrigin, DomainBounce, NamesAuthority, Inside;
    AnyHostCanonicalises(site, urlFollows, Probe(host, "/en/x"));
    TargetInsideIff(site, urlFollows, Probe(host, "/en/x"));
  }

  lemma LoginPath()
    ensures IsTradePath("/login") && !HasLocale("/login") && !("//" <= "/login")
  {
    AuthPagesAreTradePaths();
    assert "/login"[1] != '/';
  }

  lemma LocalTradeBounce(site: Site, host: string, path: string)
    requires site.domains != [] && IsLocalRoute(NormalizeHost(RequestHost(site, host))) && IsTradePath(path)
    ensures DomainRedirect(site, host, path).Some?
  {
    hide NormalizeHost, RequestHost, IsLocalRoute, IsTradePath, WithHostname, LocalDevelopmentHost;
  }

  lemma MisreadBrandBounces(site: Site, urlFollows: bool, host: string)
    requires site.domains != [] && MisreadBrand(site, host)
    ensures !NamesAuthority("/login") && Bounce(site, urlFollows, Probe(host, "/login")).Some?
  {
    hide NormalizeHost, RequestHost, IsTradePath, Inside, WithHostname, DomainRedirect, IsLocalRoute, HasLocale;
    hide DomainBounce, LocalDevelopmentHost;
    LoginPath();
    PlainBounce(site, host, "/login", "");
    LocalTradeBounce(site, host, "/login");
  }

  lemma MisreadBrandEscapes(site: Site, urlFollows: bool, host: string)
    requires NamesAreSettable(site) && MisreadBrand(site, host)
    ensures !NamesAuthority("/login") && !TargetInside(site, urlFollows, Probe(host, "/login"))
  {
    assert site.domains != [];
    hide AuthHandler, Misread, MisreadBrand, NamesAreSettable, PublicOrigin, DomainBounce, NamesAuthority, Inside;
    MisreadBrandBounces(site, urlFollows, host);
    BouncedTarget(site, urlFollows, Probe(host, "/login"));
    TargetInsideIff(site, urlFollows, Probe(host, "/login"));
  }

  lemma OtherHostStays(site: Site, urlFollows: bool, req: Request)
    requires NamesAreSettable(site) && !NamesAuthority(req.path)
    requires !Misread(site, req.host) && !MisreadBrand(site, req.host)
    ensures TargetInside(site, urlFollows, req)
  {
    hide AuthHandler, Misread, MisreadBrand, NamesAreSettable, PublicOrigin, DomainBounce, NamesAuthority, Inside;
    TargetInsideIff(site, urlFollows, req);
  }

  /** Whatever the Host and X-Forwarded-Host headers: all targets of paths that name no authority stay inside exactly
      when neither the URL parser nor the hostname setter reads another host in what the headers name. */
  lemma HeadersKeepTargetsInsideIff(site: Site, urlFollows: bool, forwarded: Option<string>, header: Option<string>)
    requires NamesAreSettable(site)
    ensures var host := RawHost(forwarded, header);
      (forall req: Request :: req.host == host && !NamesAuthority(req.path) ==> TargetInside(site, urlFollows, req))
      <==> !Misread(site, host) && !MisreadBrand(site, host)
  {
    assert site.domains != [];
    hide TargetInside, Misread, MisreadBrand, RawHost, NamesAreSettable, NamesAuthority;
    var host := RawHost(forwarded, header);
    if Misread(site, host) {
      MisreadHostEscapes(site, urlFollows, host);
    } else if MisreadBrand(site, host) {
      MisreadBrandEscapes(site, urlFollows, host);
    } else {
      forall req: Request | req.host == host && !NamesAuthority(req.path) ensures TargetInside(site, urlFollows, req) {
        OtherHostStays(site, urlFollows, req);
      }
    }
  }

  /** For a host without delimiters and user part: exactly when it does not merely pass as local. */
  lemma PlainHostKeepsTargetsInsideIff(site: Site, urlFollows: bool, forwarded: Option<string>, header: Option<string>)
    requires NamesAreSettable(site) && IsAuthority(RawHost(forwarded, header))
    ensures var host := RawHost(forwarded, header);
      (forall req: Request :: req.host == host && !NamesAuthority(req.path) ==> TargetInside(site, urlFollows, req))
      <==> !PassesAsLocal(site, host)
  {
    assert site.domains != [] && site.domains[0] in site.domains;
    SettableIsItself(site.domains[0]);
    HeadersKeepTargetsInsideIff(site, urlFollows, forwarded, header);
    hide TargetInside, Misread, MisreadBrand, PassesAsLocal, RawHost, NamesAuthority;
    PlainHostMisreadIff(site, RawHost(forwarded, header));
    PlainHostBrand(site, RawHost(forwarded, header));
  }
}
