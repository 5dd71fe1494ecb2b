/** Concrete inputs on which the code misses what its comments promise; the exact conditions are elsewhere. */
module FailingInputs {
  import opened Basics
  import opened Strings
  import opened Registry
  import opened WebMiddleware
  import opened PathFamilies
  import opened HostFacts
  import opened RoutingChain
  import opened RoutingTheorems
  import opened RoutingPreservation
  import opened RoutingTargets
  import opened CookieText
  import opened CookieHeader
  import opened LocaleSettling
  import opened Deployments
  import RoleSync
  import DayGroups
  import ActivityStrips

  const APEX: Authority := "gbfxs.com"
  const OTHER: Authority := "other.example"

  lemma NoDevelopmentName(d: string)
    requires PlainName(d) && d != "" && 'a' <= d[0] <= 'g' && d[|d| - 1] == 'm'
    ensures !IsLocalRoute(d)
  {
    assert "localhost"[0] == 'l' && ".localhost"[9] == 't' && "127.0.0.1"[0] == '1';
    assert ".localhost"[9] != d[|d| - 1];
    SettableHasNoPort(d);
    hide Trim, Lower, StripPort, Settable;
  }

  lemma ApexIsSimple()
    ensures SimpleName(APEX) && PlainName(APEX) && NormalizeHost(APEX) == APEX
    ensures !IsLocalRoute(APEX)
  {
    assert APEX[0] == 'g' && APEX[|APEX| - 1] == 'm';
    assert SimpleName(APEX);
    hide SimpleName, NormalizeHost, Trim, Lower, PlainName;
    SimpleNameIsPlain(APEX);
    NoDevelopmentName(APEX);
  }

  /** The deployment of one brand. */
  function OneBrand(): Site {
    Deployment([APEX], {APEX}, true).site
  }

  lemma OneBrandIsWellFormed()
    ensures WellFormedSite(OneBrand()) && NamesAreSettable(OneBrand()) && APEX in OneBrand().domains
  {
    ApexIsSimple();
    DeploymentSite([APEX], {APEX}, true);
    assert forall d :: d in OneBrand().domains ==> PlainName(d) && PlainName(FamilyTradeHost(OneBrand(), d));
  }

  // ---------------------------------------------------------------- redirect targets

  const LOOPBACK_LIKE: Authority := "127.0.0.1.other.example"

  lemma LoopbackLikeName()
    ensures var h := LOOPBACK_LIKE;
      StripPort(h) == h && Lower(h) == h && Trim(h) == h && NormalizeHost(h) == h && IsLocalHost(h)
  {
    var h := LOOPBACK_LIKE;
    assert forall i :: 0 <= i < |h| ==> NameChar(h[i]);
    assert h[0] == '1' && h[|h| - 1] == 'e' && "www."[0] == 'w' && "127.0.0.1" <= h;
    hide Trim, Lower, IsSpace, NameChar;
    LowerKeeps(h);
    OrdinaryEnds(h);
    assert StripPort(h) == h;
    hide StripPort;
  }

  lemma ContactIsMarketing()
    ensures IsMarketingPath("/contact") && !IsTradePath("/contact") && !IsTradePath("/en/contact")
    ensures HasLocale("/en/contact") && StripLocale("/en/contact") == "/contact" && LocaleOf("/en/contact") == "en"
    ensures !("//" <= "/contact") && !("//" <= "/en/contact")
  {
    assert Under("/contact", "/contact");
    assert "/contact"[1] == 'c' && "/en/contact"[1] == 'e';
    PrefixThenStrip("en", "/contact");
    assert "/en" + "/contact" == "/en/contact";
    FamiliesDisjoint("/contact");
    FamiliesDisjoint("/en/contact");
  }

  lemma LoopbackLikeKeepsMarketing(site: Site, path: string, query: string)
    requires !IsTradePath(path) && !("//" <= path)
    ensures PublicOrigin(site, LOOPBACK_LIKE) == LOOPBACK_LIKE
    ensures DomainBounce(site, LOOPBACK_LIKE, path, query).None?
  {
    LoopbackLikeName();
    hide StripPort, NormalizeHost, IsLocalHost, LocalDevelopmentHost, WithinAny, AnyTradeHost, FamilyTradeHost;
    hide IsTradePath, IsMarketingPath, WithHostname, Trim, Lower;
    PlainBounce(site, LOOPBACK_LIKE, path, query);
  }

  /** Any site names a host that extends "127.0.0.1" in its own redirect. */
  lemma LoopbackLikeHostIsNamed(site: Site, urlFollows: bool, req: Request)
    requires req.host == LOOPBACK_LIKE && req.path == "/en/contact"
    ensures AuthHandler(site, urlFollows, req) == Redirect(308, Url(LOOPBACK_LIKE, "/contact", req.query), Some("en"))
  {
    ContactIsMarketing();
    hide DomainBounce, PublicOrigin, IsTradePath, IsMarketingPath, AuthHandler, Resolve, HasLocale, StripLocale;
    hide LocaleOf;
    LoopbackLikeKeepsMarketing(site, RoutedPath(urlFollows, req.path), req.query);
    LocaleMoveIsResolved(site, urlFollows, req);
    PlainResolve("/contact", req.query, LOOPBACK_LIKE);
  }

  lemma PlainResolve(path: string, query: string, origin: Authority)
    requires !("//" <= path)
    ensures Resolve(path, query, origin) == Url(origin, path, query)
  {
  }

  lemma LastCharsDiffer(s: string, t: string)
    requires s != "" && t != "" && s[|s| - 1] != t[|t| - 1]
    ensures s != t && !EndsWith(s, t)
  {
    assert t[|t| - 1] == t[|t| - 1];
  }

  lemma OneBrandCovers(host: Authority)
    requires host != "" && host[|host| - 1] != 'm' && host != TRADE_DEV && StripPort(host) == host
    ensures !Configures(OneBrand(), host)
  {
    var site, below := OneBrand(), "." + APEX;
    LastCharsDiffer(host, APEX);
    LastCharsDiffer(host, below);
    assert !WithinAny(site.domains, 0, host);
    var f := FamilyTradeHost(site, APEX);
    assert f[|f| - 1] == 'm';
  }

  /** It is not a host of the deployment. */
  lemma LoopbackLikeHostIsOutside()
    ensures PassesAsLocal(OneBrand(), LOOPBACK_LIKE) && !Inside(OneBrand(), LOOPBACK_LIKE)
  {
    var h := LOOPBACK_LIKE;
    LoopbackLikeName();
    OneBrandCovers(h);
    LastCharsDiffer(h, ".localhost");
    hide Configures;
    assert !LocalName(h);
    assert "127.0.0.1" <= h;
  }

  // ---------------------------------------------------------------- headers with a delimiter

  /** The parser stops at a slash. */
  lemma CutAtSlash(a: Authority, tail: string)
    requires a != "" && tail != "" && tail[0] == '/'
    ensures var s := a + tail; UrlAuthority(s) == a && s[..AuthorityEnd(s, 0)] == a
  {
    var s := a + tail;
    assert s[|a|] == '/' && forall i :: 0 <= i < |a| ==> s[i] == a[i];
    assert SlashesEnd(s, 0) == 0;
    var to := AuthorityEnd(s, 0);
    assert to == |a|;
    assert UserEnd(s, 0, to) == 0;
    assert s[..to] == a;
  }

  const SLASHED: string := "other.example/.gbfxs.com"

  lemma SlashedText()
    ensures SLASHED == OTHER + "/.gbfxs.com" && SLASHED == "other.example/" + "." + APEX
    ensures SLASHED[|SLASHED| - 1] == 'm' && IsLowerText(SLASHED)
  {
  }

  lemma BelowApexIsTrusted(site: Site, d: string, sub: string)
    requires d in site.domains && StripPort(sub + "." + d) == sub + "." + d
    ensures HostIsTrusted(site, sub + "." + d)
  {
    SubdomainEnds(sub, d);
    hide StripPort, IsLocalHost, EndsWith;
    WithinAnyHas(site.domains, |site.domains|, d, sub + "." + d);
  }

  lemma SlashedIsTrusted()
    ensures HostIsTrusted(OneBrand(), SLASHED) && Lower(SLASHED) == SLASHED && UrlAuthority(SLASHED) == OTHER
  {
    OneBrandIsWellFormed();
    OtherText();
    hide *;
    SlashedText();
    CutAtSlash(OTHER, "/.gbfxs.com");
    LowerTextIsLower(SLASHED);
    NoPort(SLASHED);
    BelowApexIsTrusted(OneBrand(), APEX, "other.example/");
  }

  lemma OtherText()
    ensures OTHER != "" && "/.gbfxs.com"[0] == '/' && "/.localhost"[0] == '/' && !IsDigit('m') && !IsDigit('t')
    ensures Settable(OTHER)
  {
  }

  lemma OtherIsOutside()
    ensures !Inside(OneBrand(), OTHER)
  {
    assert OTHER[|OTHER| - 1] == 'e' && OTHER[0] == 'o';
    assert StripPort(OTHER) == OTHER;
    OneBrandCovers(OTHER);
    LastCharsDiffer(OTHER, ".localhost");
    hide Configures, StripPort;
  }

  /** A header that is trusted for its ending sends the visitor to the host before the slash. */
  lemma SlashedHeaderLeaves(urlFollows: bool, req: Request)
    requires req.host == SLASHED && req.path == "/en/x"
    ensures Misread(OneBrand(), SLASHED) && !Inside(OneBrand(), OTHER)
    ensures AuthHandler(OneBrand(), urlFollows, req) == Redirect(308, Url(OTHER, "/x", req.query), Some("en"))
  {
    SlashedIsTrusted();
    OtherIsOutside();
    hide HostIsTrusted, Inside, AuthHandler, UrlAuthority, Lower;
    AnyHostCanonicalises(OneBrand(), urlFollows, req);
  }

  const SLASHED_BRAND: string := "other.example/.localhost"
  const OTHER_DEV: Authority := "other.example:3101"

  lemma SlashedBrandText()
    ensures var s := SLASHED_BRAND;
      && s == OTHER + "/.localhost" && s == "other.example/" + "." + "localhost"
      && s[|s| - 1] == 't' && s[0] == 'o' && IsLowerText(s) && !("www." <= s)
  {
    assert "www."[0] == 'w';
  }

  lemma SlashedBrandName()
    ensures NormalizeHost(SLASHED_BRAND) == SLASHED_BRAND && EndsWith(SLASHED_BRAND, ".localhost")
    ensures HostIsTrusted(OneBrand(), SLASHED_BRAND)
  {
    SlashedBrandText();
    hide NormalizeHost, IsLowerText, StripPort, IsLocalHost, WithinAny, EndsWith, OneBrand;
    OrdinaryIsNormal(SLASHED_BRAND);
    SubdomainEnds("other.example/", "localhost");
    assert "." + "localhost" == ".localhost";
  }

  lemma PortAfterCut(authority: Authority, a: Authority, s: string)
    requires Settable(a) && s[..AuthorityEnd(s, 0)] == a
    ensures WithHostname(authority, s) == a + PortOf(authority)
  {
    hide AuthorityEnd, PortOf, Settable;
  }

  lemma SlashedBrandIsCut()
    ensures WithHostname(TRADE_DEV, SLASHED_BRAND) == OTHER_DEV
  {
    OtherText();
    assert OTHER + ":3101" == OTHER_DEV;
    hide *;
    SlashedBrandText();
    CutAtSlash(OTHER, "/.localhost");
    DevelopmentPorts();
    FourDigitPort("localhost", ":3101");
    PortAfterCut(TRADE_DEV, OTHER, SLASHED_BRAND);
  }

  lemma OtherDevIsOutside()
    ensures !Inside(OneBrand(), OTHER_DEV)
  {
    FourDigitPort(OTHER, ":3101");
    assert OTHER + ":3101" == OTHER_DEV;
    hide StripPort;
    OtherIsOutside();
    OtherOriginIsOther();
  }

  lemma OtherOriginIsOther()
    ensures StripPort(OTHER) == OTHER && OTHER_DEV != TRADE_DEV
  {
    assert OTHER[|OTHER| - 1] == 'e' && OTHER_DEV[0] == 'o';
  }

  /** A development name with a slash bounces the visitor to the host before it. */
  lemma SlashedBrandLeaves(query: string)
    ensures DomainBounce(OneBrand(), SLASHED_BRAND, "/login", query) == Some(Url(OTHER_DEV, "/login", query))
    ensures !Inside(OneBrand(), OTHER_DEV) && MisreadBrand(OneBrand(), SLASHED_BRAND)
  {
    hide *;
    OneBrandFacts();
    SlashedBrandName();
    SlashedBrandIsCut();
    OtherDevIsOutside();
    LoginPath();
    BrandBounce(OneBrand(), SLASHED_BRAND, "/login", query);
    BrandMisread(OneBrand(), SLASHED_BRAND);
  }

  lemma OneBrandFacts()
    ensures OneBrand().domains != [] && OneBrand().tradeDevOrigin == TRADE_DEV
  {
  }

  /** A development host bounces a trade path to the development origin, under its own name. */
  lemma BrandBounce(site: Site, raw: string, path: string, query: string)
    requires site.domains != [] && HostIsTrusted(site, raw) && NormalizeHost(raw) == raw && EndsWith(raw, ".localhost")
    requires IsTradePath(path) && !("//" <= path)
    ensures DomainBounce(site, raw, path, query) == Some(Url(WithHostname(site.tradeDevOrigin, raw), path, query))
  {
    hide NormalizeHost, HostIsTrusted, EndsWith, WithHostname, IsTradePath, IsMarketingPath, IsLocalHost;
    PlainBounce(site, raw, path, query);
  }

  lemma BrandMisread(site: Site, raw: string)
    requires site.domains != [] && HostIsTrusted(site, raw) && NormalizeHost(raw) == raw && EndsWith(raw, ".localhost")
    requires !Inside(site, WithHostname(site.tradeDevOrigin, raw))
    ensures MisreadBrand(site, raw)
  {
    hide NormalizeHost, HostIsTrusted, EndsWith, WithHostname, IsLocalHost, Inside;
  }

  // ---------------------------------------------------------------- paths with two slashes

  const DOUBLED: string := "/en//other.example"

  lemma DoubledLocale()
    ensures HasLocale(DOUBLED) && LocaleOf(DOUBLED) == "en" && StripLocale(DOUBLED) == "//" + OTHER
    ensures !("//" <= DOUBLED) && OTHER != ""
  {
    assert DOUBLED[1..3] == "en" && DOUBLED[3..] == "//other.example" && DOUBLED[1] == 'e';
  }

  lemma OnlyAuthority(a: Authority, path: string, query: string, origin: Authority)
    requires a != "" && path == "//" + a
    ensures UrlAuthority(Spelled(path)) == a && Resolve(path, query, origin) == Url(a, "/", query)
  {
    assert path[2] == a[0] && forall i :: 2 <= i < |path| ==> path[i] == a[i - 2];
    assert SlashesEnd(path, 2) == 2 && SlashesEnd(path, 1) == 2 && SlashesEnd(path, 0) == 2;
    assert '/' !in a;
    BeforeAppend(a, "", '/');
    assert path[2..] == a + "" == a;
    var end := IndexFrom(path, '/', 2);
    assert end == |path|;
    assert path[2..end] == a;
    hide SlashesEnd, IndexFrom, UrlAuthority, Before;
  }

  lemma ApexKeeps(site: Site, d: string, path: string)
    requires WellFormedSite(site) && d in site.domains && !IsTradePath(path)
    ensures RequestHost(site, d) == d && DomainRedirect(site, d, path).None?
  {
    ApexIsTrusted(site, d);
    ApexIsNoTradeHost(site, d);
    hide IsMarketingPath, IsTradePath, HostIsTrusted, IsTradeHost, IsLocalRoute;
  }

  lemma ApexKeepsReference(site: Site, d: string, a: Authority, path: string, query: string)
    requires WellFormedSite(site) && d in site.domains && !IsLocalRoute(d) && a != "" && path == "//" + a
    ensures DomainBounce(site, d, path, query).None?
  {
    FamiliesDisjoint("/");
    ApexKeeps(site, d, "/");
    OnlyAuthority(a, path, query, PublicOrigin(site, d));
    ApexKeepsRoot(site, d, a);
    assert "//" <= path;
    hide RedirectFrom, Resolve, RequestHost, IsLocalRoute, IsTradePath, PublicOrigin;
  }

  lemma ApexKeepsRoot(site: Site, d: string, base: Authority)
    requires WellFormedSite(site) && d in site.domains
    ensures RequestHost(site, d) == d && NormalizeHost(d) == d && RedirectFrom(site, d, base, "/").None?
  {
    FamiliesDisjoint("/");
    ApexIsTrusted(site, d);
    ApexIsNoTradeHost(site, d);
    hide IsMarketingPath, IsTradePath, HostIsTrusted, IsTradeHost, IsLocalRoute;
  }

  lemma ApexKeepsBoth(site: Site, urlFollows: bool, d: string, a: Authority, path: string, query: string)
    requires WellFormedSite(site) && d in site.domains && !IsLocalRoute(d) && a != ""
    requires HasLocale(path) && StripLocale(path) == "//" + a
    ensures DomainBounce(site, d, RoutedPath(urlFollows, path), query).None?
  {
    assert !("//" <= path) by { assert path[1] == LocaleOf(path)[0]; }
    FamiliesDisjoint(path);
    hide DomainBounce, WellFormedSite, IsLocalRoute, IsTradePath, HasLocale, StripLocale, DomainRedirect;
    ApexKeeps(site, d, path);
    PlainBounce(site, d, path, query);
    ApexKeepsReference(site, d, a, "//" + a, query);
  }

  lemma DoubledStays(urlFollows: bool, query: string)
    ensures DomainBounce(OneBrand(), APEX, RoutedPath(urlFollows, DOUBLED), query).None?
  {
    hide *;
    ApexIsSimple();
    OneBrandIsWellFormed();
    DoubledLocale();
    ApexKeepsBoth(OneBrand(), urlFollows, APEX, OTHER, DOUBLED, query);
  }

  /** A path with two slashes after the locale sends the visitor to the host it spells. */
  lemma DoubledSlashLeaves(urlFollows: bool, req: Request)
    requires req.host == APEX && req.path == DOUBLED
    ensures AuthHandler(OneBrand(), urlFollows, req) == Redirect(308, Url(OTHER, "/", req.query), Some("en"))
  {
    hide DomainBounce, PublicOrigin, Resolve, HasLocale, StripLocale, LocaleOf, RoutedPath, AuthHandler, OneBrand;
    DoubledLocale();
    DoubledStays(urlFollows, req.query);
    OnlyAuthority(OTHER, "//" + OTHER, req.query, PublicOrigin(OneBrand(), APEX));
    LocaleMoveIsResolved(OneBrand(), urlFollows, req);
  }

  // ---------------------------------------------------------------- trade hosts

  /** One brand, with TRADE_SUBDOMAIN set to nothing. */
  function BlankLabel(): Site {
    Site([APEX], Some(""), map[], {APEX}, TRADE_DEV, WEB_DEV)
  }

  const TRADE_HOST: Authority := "trade.gbfxs.com"

  lemma TradeWord()
    ensures PlainName("trade") && !("www." <= "trade" + ".") && "trade" + "." + APEX == TRADE_HOST
  {
    TradeText();
    hide Trim, Lower, StripPort;
    OrdinaryIsNormal("trade");
    LowerTextIsLower("trade");
    OrdinaryEnds("trade");
  }

  lemma TradeText()
    ensures var s := "trade";
      s != "" && s[0] == 't' && s[|s| - 1] == 'e' && IsLowerText(s) && !("www." <= s) && Settable(s)
    ensures !("www." <= "trade" + ".") && "trade" + "." + APEX == TRADE_HOST
  {
    assert "www."[0] == 'w' && ("trade" + ".")[0] == 't';
  }

  lemma TradeHostName()
    ensures PlainName(TRADE_HOST) && NormalizeHost(TRADE_HOST) == TRADE_HOST && WithinApex(TRADE_HOST, APEX)
  {
    TradeWord();
    hide PlainName, NormalizeHost, Trim, Lower, EndsWith, SimpleName;
    ApexIsSimple();
    PlainSubdomain("trade", APEX);
    SubdomainEnds("trade", APEX);
  }

  lemma BlankLabelNames()
    ensures var site := BlankLabel();
      && RegistryLabel(site) == "trade" && TradeLabel(site) == ""
      && FamilyTradeHost(site, APEX) == TRADE_HOST && TradeHostOf(site, APEX) == "." + APEX
      && ServingFamily(site, APEX) == APEX && !HasTradeHostOverride(site, APEX)
  {
    BlankLabels(BlankLabel());
    TradeWord();
    hide Trim;
    assert "trade" + "." + APEX == TRADE_HOST;
  }

  lemma BlankLabelHosts()
    ensures PublicOrigin(BlankLabel(), APEX) == APEX && RequestHost(BlankLabel(), APEX) == APEX
    ensures WithHostname(APEX, TRADE_HOST) == TRADE_HOST && "trade." + APEX == TRADE_HOST
  {
    hide *;
    ApexIsSimple();
    BlankLabelDomains();
    TradeHostName();
    TrustedApex(BlankLabel(), APEX);
    PortlessName(APEX, TRADE_HOST);
  }

  lemma BlankLabelDomains()
    ensures BlankLabel().domains == [APEX] && APEX in BlankLabel().domains && BlankLabel().tradeSubdomain == Some("")
    ensures "trade." + APEX == TRADE_HOST
  {
  }

  lemma TrustedApex(site: Site, d: Authority)
    requires d in site.domains && PlainName(d)
    ensures RequestHost(site, d) == d && PublicOrigin(site, d) == d
  {
    SettableHasNoPort(d);
    ApexIsTrusted(site, d);
    hide HostIsTrusted;
  }

  lemma PortlessName(d: Authority, name: string)
    requires PlainName(d) && PlainName(name)
    ensures WithHostname(d, name) == name
  {
    hide Trim, Lower;
    SettableHasNoPort(d);
    assert PortOf(d) == "";
    assert name + "" == name;
  }

  lemma OneApexIsWellFormed(site: Site, d: string, f: string)
    requires site.domains == [d] && PlainName(d) && NormalizeHost(d) == d && TradeHostOf(site, d) != d
    requires FamilyTradeHost(site, d) == f && PlainName(f) && NormalizeHost(f) == f && f != d
    requires HostIsTrusted(site, f)
    ensures WellFormedSite(site)
  {
    hide NormalizeHost, PlainName, FamilyTradeHost, TradeHostOf, HostIsTrusted;
  }

  lemma TradeHostDiffers()
    ensures "." + APEX != APEX && TRADE_HOST != APEX
  {
    assert TRADE_HOST[0] == 't' && ("." + APEX)[0] == '.' && APEX[0] == 'g';
  }

  lemma BlankLabelIsWellFormed()
    ensures WellFormedSite(BlankLabel())
  {
    hide *;
    ApexIsSimple();
    TradeHostName();
    BlankLabelNames();
    BlankLabelDomains();
    TradeHostDiffers();
    TradeWord();
    PlainIsSettable(TRADE_HOST);
    SettableHasNoPort(TRADE_HOST);
    BelowApexIsTrusted(BlankLabel(), APEX, "trade");
    OneApexIsWellFormed(BlankLabel(), APEX, TRADE_HOST);
  }

  /** With a blank label the visitor is sent to the trade host and not brought back. */
  lemma BlankLabelStrands(tradePath: string, marketingPath: string)
    requires IsTradePath(tradePath) && IsMarketingPath(marketingPath)
    ensures DomainRedirect(BlankLabel(), APEX, tradePath) == Some(TRADE_HOST)
    ensures DomainRedirect(BlankLabel(), TRADE_HOST, marketingPath).None?
  {
    hide *;
    ApexIsSimple();
    BlankLabelDomains();
    BlankLabelIsWellFormed();
    BlankLabelNames();
    BlankLabelHosts();
    BlankLabelHasNoWayBack(BlankLabel(), APEX, APEX, tradePath, marketingPath);
  }

  /** One brand whose trade host is its own apex. */
  function SelfRouted(): System {
    System(Site([APEX], None, map[APEX := BrandEntry(Some(APEX), None)], {}, TRADE_DEV, WEB_DEV),
           true, _ => false)
  }

  /** Its sign-in page redirects to itself forever. */
  lemma SelfRoutedLoops(loggedIn: string -> bool, k: nat)
    ensures Configured(SelfRouted()) && !Settles(SelfRouted(), loggedIn, Visit(APEX, "/login", "", false), k)
  {
    ApexIsSimple();
    assert FamilyTradeHost(SelfRouted().site, APEX) == APEX;
    SelfRoutedNeverSettles(SelfRouted(), loggedIn, Visit(APEX, "/login", "", false), k);
  }

  const CROSSED: Authority := "blackforrestt.com"

  /** Two brands whose trade hosts are each other's apex. */
  function Crossed(): System {
    System(Site([APEX, CROSSED], None,
                map[APEX := BrandEntry(Some(CROSSED), None), CROSSED := BrandEntry(Some(APEX), None)],
                {}, TRADE_DEV, WEB_DEV),
           true, _ => false)
  }

  lemma CrossedText()
    ensures SimpleName(CROSSED) && CROSSED != APEX && CROSSED != ""
    ensures 'a' <= CROSSED[0] <= 'g' && CROSSED[|CROSSED| - 1] == 'm'
  {
    assert CROSSED[0] == 'b' && APEX[0] == 'g';
  }

  lemma CrossedNames()
    ensures SimpleName(CROSSED) && PlainName(CROSSED) && NormalizeHost(CROSSED) == CROSSED && !IsLocalRoute(CROSSED)
    ensures CROSSED != APEX
  {
    CrossedText();
    hide SimpleName, NormalizeHost, Trim, Lower, PlainName;
    SimpleNameIsPlain(CROSSED);
    NoDevelopmentName(CROSSED);
  }

  lemma PlainIsTrimmed(name: string)
    requires PlainName(name)
    ensures Lower(Trim(name)) == name && Trim(name) != ""
  {
    hide Trim, Lower;
  }

  /** Neither brand is routed to itself, yet each is routed to the other. */
  lemma CrossedRoutes()
    ensures var site := Crossed().site; FamilyTradeHost(site, APEX) == CROSSED && FamilyTradeHost(site, CROSSED) == APEX
    ensures Configured(Crossed())
  {
    hide Trim, Lower, NormalizeHost, SimpleName, IsLocalRoute, StripPort, Settable;
    ApexIsSimple();
    CrossedNames();
    PlainIsTrimmed(APEX);
    PlainIsTrimmed(CROSSED);
    SettableHasNoPort(APEX);
    SettableHasNoPort(CROSSED);
  }

  /** A configured apex that the marketing app answers bounces its sign-in page to its trade host. */
  lemma ApexHop(sys: System, d: Authority, f: string)
    requires Configured(sys) && d in sys.site.domains && !sys.servedByTrade(d) && !IsLocalRoute(d)
    requires FamilyTradeHost(sys.site, d) == f && Settable(f)
    ensures Hop(sys, d, "/login") == Some(f)
  {
    hide IsTradePath, IsMarketingPath, FamilyTradeHost, IsLocalRoute, IsTradeHost, WithHostname;
    AuthPagesAreTradePaths();
    assert NormalizeHost(d) == d && d != "";
    assert RequestHost(sys.site, d) == d by { ApexIsTrusted(sys.site, d); }
    hide Configured, NormalizeHost, RequestHost, HostIsTrusted, UrlAuthority;
    assert WithHostname(d, f) == f by {
      assert PortOf(d) == "" && f + "" == f;
    }
  }

  lemma {:induction false} TwoHostsNeverRest(next: Authority -> Option<Authority>, a: Authority, b: Authority, n: nat)
    requires next(a) == Some(b) && next(b) == Some(a)
    ensures !Rests(next, a, n)
    decreases n
  {
    if n > 0 {
      TwoHostsNeverRest(next, b, a, n - 1);
    }
  }

  /** So neither sign-in page is ever served. */
  lemma CrossedBrandsLoop(loggedIn: string -> bool, d: Authority, k: nat)
    requires d == APEX || d == CROSSED
    ensures FamilyTradeHost(Crossed().site, d) != d
    ensures !PathRests(Crossed(), d, "/login") && !Settles(Crossed(), loggedIn, Visit(d, "/login", "", false), k)
  {
    ApexIsSimple();
    CrossedNames();
    CrossedRoutes();
    var sys, next := Crossed(), Router(Crossed(), "/login");
    assert APEX in sys.site.domains && CROSSED in sys.site.domains;
    hide Configured, NormalizeHost, SimpleName, IsLocalRoute, FamilyTradeHost, Hop;
    ApexHop(sys, APEX, CROSSED);
    ApexHop(sys, CROSSED, APEX);
    forall n: nat ensures !Rests(next, d, n) {
      TwoHostsNeverRest(next, d, if d == APEX then CROSSED else APEX, n);
    }
    SignInNeverSettles(sys, loggedIn, d, "", k);
  }

  // ---------------------------------------------------------------- locales

  /** A visitor of the brand's about page. */
  function AboutPage(last: bool): Setting {
    Setting(OneBrand(), true, last, false, (ps: seq<string>) => ps, APEX, "/about", "")
  }

  const NoCookies := Jar([], map[], map[])

  lemma AboutPath()
    ensures IsMarketingPath("/about") && CleanPath("/about")
  {
    var path := "/about";
    assert Under(path, "/about");
    assert forall i :: 0 < i < |path| ==> path[i] != '/';
  }

  lemma AboutIsCovered(last: bool, jar: Jar)
    requires JarOk(jar)
    ensures AboutPage(last).Ok(jar)
  {
    OneBrandIsWellFormed();
    AboutPath();
    hide OneBrand, IsMarketingPath, CleanPath, WellFormedSite, Setting.Ok, JarOk;
    MarketingPagesAreCovered(AboutPage(last), jar);
  }

  /** Without cookies the canonical English page renders in the browser's language. */
  lemma BarePageInAnotherLanguage(last: bool)
    ensures AboutPage(last).Ok(NoCookies) && !LanguagesAgree(AboutPage(last), NoCookies, None, "fr")
    ensures var r := AboutPage(last).Open(NoCookies, "/about", 2);
      r.Some? && r.value.path == "/about" && UrlLocale("/about") != Rendered(r.value.cookie, "fr")
  {
    var s := AboutPage(last);
    NoLocaleValues(last, []);
    AboutIsCovered(last, NoCookies);
    BareUrlLocale(s);
    hide Setting.Open, Setting.Ok, Setting.Values, Rendered, Setting.Here;
    PublicPageSettles(s, NoCookies, None, "fr");
  }

  lemma NoLocaleValues(last: bool, others: seq<string>)
    requires forall p :: p in others ==> IsPair(p) && !(MARK <= p)
    ensures var jar := Jar(others, map[], map[]); JarOk(jar) && AboutPage(last).Pairs(jar) == others
    ensures AboutPage(last).Values(Jar(others, map[], map[])) == []
  {
    var jar, s := Jar(others, map[], map[]), AboutPage(last);
    assert forall i :: 0 <= i < |others| ==> others[i] in others;
    NothingWide(others, s.site.domains, StripPort(s.host));
    assert Marked([]) == [] && others + [] == others;
    hide Wide, StripPort, AboutPage;
    SentInOrder(s, jar);
  }

  lemma {:induction false} NothingWide(others: seq<string>, domains: seq<string>, name: string)
    ensures Wide(Jar(others, map[], map[]), domains, name) == []
  {
    if domains != [] {
      NothingWide(others, domains[1..], name);
    }
  }

  const MarkedCookie := Jar(["XNEXT_LOCALE=fr"], map[], map[])

  lemma MarkedCookieSent(last: bool)
    ensures var s := AboutPage(last);
      && JarOk(MarkedCookie) && s.Pairs(MarkedCookie) == ["XNEXT_LOCALE=fr"] && s.Values(MarkedCookie) == []
      && !MarkerIsOurs(MARK, ["XNEXT_LOCALE=fr"])
  {
    AnotherCookieIsEdited();
    MarkedText();
    hide MarkerIsOurs, IsPair, JarOk, Setting.Pairs, Setting.Values, Rendered, InjectLocale, Edit;
    NoLocaleValues(last, ["XNEXT_LOCALE=fr"]);
  }

  lemma MarkedText()
    ensures IsPair("XNEXT_LOCALE=fr") && !(MARK <= "XNEXT_LOCALE=fr")
  {
    assert "XNEXT_LOCALE=fr"[0] == 'X' && MARK[0] == 'N';
  }

  lemma GermanDisagrees(last: bool)
    ensures !LanguagesAgree(AboutPage(last), MarkedCookie, Some("de"), "fr")
  {
    MarkedCookieSent(last);
    hide MarkerIsOurs, Setting.Pairs, Setting.Values, JarOk, AboutPage, BareAgrees;
    assert "de" != DEFAULT_LOCALE && "de" != "fr";
  }

  /** The header edit hits another cookie, so the German page renders in French. */
  lemma GermanPageInFrench(last: bool)
    ensures var s := AboutPage(last);
      && s.Ok(MarkedCookie) && !LanguagesAgree(s, MarkedCookie, Some("de"), "fr")
      && var r := s.Open(MarkedCookie, "/de/about", 2);
         r.Some? && r.value.path == "/de/about" && UrlLocale("/de/about") == "de" != Rendered(r.value.cookie, "fr")
  {
    GermanPath();
    MarkedCookieSent(last);
    GermanDisagrees(last);
    AboutIsCovered(last, MarkedCookie);
    assert "de" in LOCALES && "de" != DEFAULT_LOCALE;
    hide Setting.Open, Setting.Ok, Setting.Values, Rendered, Setting.Here, MarkerIsOurs, HasLocale, LocaleOf;
    hide Setting.Pairs, LanguagesAgree, JarOk;
    PublicPageSettles(AboutPage(last), MarkedCookie, Some("de"), "fr");
  }

  lemma GermanPath()
    ensures HasLocale("/de/about") && LocaleOf("/de/about") == "de" && "/" + "de" + "/about" == "/de/about"
  {
    assert "/de/about"[1..3] == "de";
  }

  const NESTED: Authority := "fx.gbfxs.com"

  /** A brand below another, whose own cookie still holds French. */
  function NestedPage(): Setting {
    Setting(Deployment([APEX, NESTED], {APEX}, true).site, true, true, false,
            (ps: seq<string>) => ps, NESTED, "/about", "")
  }

  const FrenchBelow := Jar([], map[], map[NESTED := "fr"])

  lemma NestedText()
    ensures SimpleName(NESTED) && NESTED != "" && !IsDigit(NESTED[|NESTED| - 1]) && "fx" + "." + APEX == NESTED
    ensures NESTED != APEX
  {
    assert |APEX| < |NESTED|;
  }

  lemma NestedNames()
    ensures SimpleName(NESTED) && NormalizeHost(NESTED) == NESTED && StripPort(NESTED) == NESTED
    ensures WithinApex(NESTED, APEX) && NESTED != APEX
  {
    NestedText();
    hide SimpleName, NormalizeHost, StripPort, EndsWith;
    SimpleNameIsPlain(NESTED);
    NoPort(NESTED);
    SubdomainEnds("fx", APEX);
  }

  lemma NestedSite()
    ensures WellFormedSite(NestedPage().site) && NESTED in NestedPage().site.domains
  {
    ApexIsSimple();
    NestedNames();
    hide SimpleName, WellFormedSite;
    DeploymentSite([APEX, NESTED], {APEX}, true);
  }

  lemma FrenchIsPlain()
    ensures JarOk(FrenchBelow)
  {
  }

  lemma NestedIsCovered()
    ensures NestedPage().Ok(FrenchBelow)
  {
    NestedSite();
    FrenchIsPlain();
    AboutPath();
    hide IsMarketingPath, CleanPath, WellFormedSite, Setting.Ok, JarOk, Deployment;
    MarketingPagesAreCovered(NestedPage(), FrenchBelow);
  }

  lemma NestedHosts()
    ensures var site := NestedPage().site;
      RequestHost(site, NESTED) == NESTED && CookieDomain(site.domains, NESTED) == Some(APEX)
  {
    NestedNames();
    ApexIsTrusted(NestedPage().site, NESTED);
    hide NormalizeHost, EndsWith, StripPort, HostIsTrusted;
  }

  lemma NestedWide(jar: Jar)
    requires jar.domainWide == map[NESTED := "fr", APEX := "en"]
    ensures Wide(jar, [APEX, NESTED], NESTED) == ["en", "fr"]
  {
    NestedNames();
    hide NormalizeHost, EndsWith, StripPort;
    assert [APEX, NESTED][1..] == [NESTED] && |[NESTED][1..]| == 0;
    assert Wide(jar, [NESTED], NESTED) == ["fr"];
  }

  const StampedNested := Jar([], map[NESTED := "en"], map[NESTED := "fr", APEX := "en"])

  lemma NestedStamp()
    ensures Stamp(FrenchBelow, NestedPage().site, NESTED, "en") == StampedNested
  {
    NestedNames();
    NestedHosts();
    hide CookieDomain, RequestHost, StripPort, WithinApex, SimpleName, NormalizeHost, NestedPage;
  }

  lemma NestedDomains()
    ensures NestedPage().site.domains == [APEX, NESTED] && JarOk(StampedNested)
  {
  }

  lemma NestedValues()
    ensures LocaleValues(StampedNested, NestedPage().site, NESTED) == ["en", "en", "fr"]
  {
    NestedDomains();
    NestedNames();
    hide StripPort, WithinApex, Wide, SimpleName, NormalizeHost, NestedPage, JarOk;
    NestedWide(StampedNested);
    assert ["en"] + ["en", "fr"] == ["en", "en", "fr"];
  }

  lemma NestedCookies()
    ensures AfterDefault(NestedPage(), FrenchBelow) == Some("fr")
  {
    hide Stamp, LocaleValues, Sent, Texts, JarOk;
    NestedStamp();
    NestedDomains();
    NestedValues();
    SentInOrder(NestedPage(), StampedNested);
  }

  /** There the English URL takes two redirects and ends on the French page. */
  lemma NestedBrandMovesOn()
    ensures NestedPage().Open(FrenchBelow, "/en/about", 1).None?
    ensures var r := NestedPage().Open(FrenchBelow, "/en/about", 2); r.Some? && r.value.path == "/fr/about"
  {
    assert "/" + "en" + "/about" == "/en/about" && "/" + "fr" + "/about" == "/fr/about";
    NestedIsCovered();
    NestedCookies();
    hide Setting.Open, Setting.Ok, AfterDefault, LanguagesAgree;
    PublicPageSettles(NestedPage(), FrenchBelow, Some("en"), "en");
  }

  lemma EditedText()
    ensures var p := "XNEXT_LOCALE=fr";
      && Contains(MARK, p) && !(MARK <= p)
      && ReplaceFirst(MARK, p, "de") == "XNEXT_LOCALE=de"
  {
    var p := "XNEXT_LOCALE=fr";
    assert p[0] == 'X' && MARK[0] == 'N' && p[1..] == MARK + "fr" && p[1..][|MARK|..] == "fr";
    assert FromSemicolon("fr") == "" by {
      assert "fr"[1..] == "r" && "r"[1..] == "";
      assert FromSemicolon("r") == FromSemicolon("");
    }
    assert ReplaceFirst(MARK, p, "de") == ['X'] + (MARK + "de" + "");
  }

  lemma NoLocaleCookie()
    ensures Rendered("XNEXT_LOCALE=de", "fr") == "fr"
  {
    var q := "XNEXT_LOCALE=de";
    var none: seq<string> := [];
    assert q[0] == 'X' && MARK[0] == 'N' && [q][1..] == none;
    assert FirstLocale([q]).None?;
    assert Join([q]) == q;
    RenderedOf([q], "fr");
    hide Rendered;
  }

  /** A cookie whose name ends in the marker is edited in place of the locale cookie. */
  lemma AnotherCookieIsEdited()
    ensures var ps := ["XNEXT_LOCALE=fr"];
      && ArePairs(ps) && !MarkerIsOurs(MARK, ps)
      && Edit(MARK, ps, "de") == ["XNEXT_LOCALE=fr", "NEXT_LOCALE=de"]
      && InjectLocale(Join(ps), "de") == "XNEXT_LOCALE=de"
      && Rendered(InjectLocale(Join(ps), "de"), "fr") == "fr"
  {
    EditedText();
    NoLocaleCookie();
    hide Contains, ReplaceFirst, Rendered;
    var none: seq<string> := [];
    assert ["XNEXT_LOCALE=fr"][1..] == none;
    assert Edit(MARK, none, "de") == ["NEXT_LOCALE=de"] by { assert MARK + "de" == "NEXT_LOCALE=de"; }
    assert Edit(MARK, ["XNEXT_LOCALE=fr"], "de") == ["XNEXT_LOCALE=fr"] + ["NEXT_LOCALE=de"];
  }

  // ---------------------------------------------------------------- roles, days and strips

  /** The ADMIN definition cannot be synced into an empty table. */
  lemma AdminFailsOnEmptyTable(catalogue: seq<string>, exact: bool)
    requires NoRepeats(catalogue) && "ADMIN_ACCESS" in catalogue
    ensures !RoleSync.Sync({}, [RoleSync.AdminDefinition(catalogue)], exact).ok
  {
    RoleSync.AdminSyncsIff({}, catalogue, exact);
  }

  /** A day that comes back is split by one grouping and joined by the other. */
  lemma ReturningDay()
    ensures var a, b, c := DayGroups.Row("a", "1"), DayGroups.Row("b", "2"), DayGroups.Row("a", "3");
      && DayGroups.ByFirst([a, b, c]) != DayGroups.Adjacent([a, b, c])
      && DayGroups.Flatten(DayGroups.ByFirst([a, b, c])) != [a, b, c]
  {
    var rows := [DayGroups.Row("a", "1"), DayGroups.Row("b", "2"), DayGroups.Row("a", "3")];
    assert rows[0].day == rows[2].day && rows[1].day != rows[0].day;
    DayGroups.GroupingsAgreeIff(rows);
  }

  /** Sixteen items are shown, one is inserted at the top of the server list, page one is refreshed. */
  function Shifted(server: seq<ActivityStrips.Item>): ActivityStrips.Content
    requires |server| == 17
  {
    ActivityStrips.Happened(
      ActivityStrips.Content(ActivityStrips.ServerPage(server[1..], 1), ActivityStrips.Loaded(server[1..], 1)),
      ActivityStrips.Refresh(ActivityStrips.ServerPage(server, 1)))
  }

  /** The item pushed off page one is lost, and loading more brings nothing although one item is missing. */
  lemma ShiftLosesAnItem(server: seq<ActivityStrips.Item>)
    requires |server| == 17 && ActivityStrips.Distinct(server)
    ensures var c := Shifted(server);
      && |c.Visible()| == 16 && server[8] !in c.Visible()
      && ActivityStrips.Happened(c, ActivityStrips.Page(ActivityStrips.ServerPage(server, c.Next()))) == c
  {
    ActivityStrips.ShiftedStrip(server);
  }
}
