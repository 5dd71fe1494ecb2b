/** What the two middlewares answer, each kind of answer if and only if, with the path families written out. */
module MiddlewareAnswers {
  import opened Basics
  import opened Strings
  import opened Registry
  import opened WebMiddleware
  import opened TradeMiddleware
  import opened PathFamilies
  import opened RoutingChain
  import opened RoutingTheorems
  import opened RoutingPreservation
  import opened HostFacts

  // ---------------------------------------------------------------- families, written out

  /** The path is the prefix, or a slash follows the prefix. */
  predicate AtOrBelow(path: string, prefix: string) {
    prefix <= path && (|path| == |prefix| || path[|prefix|] == '/')
  }

  predicate IsAsset(path: string) {
    || "/favicon.svg" <= path || "/favicon.ico" <= path || "/robots.txt" <= path || "/sitemap.xml" <= path
    || "/manifest.webmanifest" <= path || "/og.png" <= path || "/brand/" <= path || "/payments/" <= path
  }

  predicate IsProtectedPage(path: string) {
    "/trade" <= path || "/account" <= path || "/reports" <= path
  }

  predicate IsProtectedApi(path: string) {
    || "/api/account" <= path || "/api/kyc" <= path || "/api/password" <= path || "/api/positions" <= path
    || "/api/profile" <= path || "/api/transactions" <= path || "/api/wallet" <= path || "/api/security/mfa" <= path
    || "/api/security/sessions" <= path || "/api/security/step-up" <= path || "/api/support/cases" <= path
  }

  /** Pages and calls of the trade app. */
  predicate BelongsToTrade(path: string) {
    || AtOrBelow(path, "/login") || AtOrBelow(path, "/register") || AtOrBelow(path, "/forgot-password")
    || AtOrBelow(path, "/reset-password") || AtOrBelow(path, "/verify-email") || AtOrBelow(path, "/trade")
    || AtOrBelow(path, "/account") || AtOrBelow(path, "/reports") || AtOrBelow(path, "/admin")
    || AtOrBelow(path, "/api/account") || AtOrBelow(path, "/api/kyc") || AtOrBelow(path, "/api/password")
    || AtOrBelow(path, "/api/positions") || AtOrBelow(path, "/api/profile") || AtOrBelow(path, "/api/transactions")
    || AtOrBelow(path, "/api/wallet") || AtOrBelow(path, "/api/security") || AtOrBelow(path, "/api/admin")
    || AtOrBelow(path, "/api/register") || AtOrBelow(path, "/api/support/cases")
  }

  /** Pages the marketing app takes back from a trade host. */
  predicate BelongsToWeb(path: string) {
    || path == "/" || AtOrBelow(path, "/about") || AtOrBelow(path, "/contact") || AtOrBelow(path, "/analytics")
    || AtOrBelow(path, "/tools") || AtOrBelow(path, "/education") || AtOrBelow(path, "/legal")
  }

  /** Pages the trade app sends away; its own logo stays. */
  predicate LeavesTrade(path: string) {
    || path == "/"
    || (path != "/brand/logo.svg"
        && (|| AtOrBelow(path, "/about") || AtOrBelow(path, "/contact") || AtOrBelow(path, "/tools")
            || AtOrBelow(path, "/analytics") || AtOrBelow(path, "/education") || AtOrBelow(path, "/docs")
            || AtOrBelow(path, "/brand") || AtOrBelow(path, "/privacy-policy") || AtOrBelow(path, "/aml-policy")
            || AtOrBelow(path, "/kyc-policy") || AtOrBelow(path, "/terms-of-service")))
  }

  predicate IsSupported(locale: string) {
    || locale == "en" || locale == "fr" || locale == "de" || locale == "es" || locale == "ja" || locale == "zh"
    || locale == "ru" || locale == "ar" || locale == "ko"
  }

  lemma UnderIff(path: string, p: string)
    ensures Under(path, p) <==> AtOrBelow(path, p)
  {
    if p < path {
      assert path == p + path[|p|..];
    }
  }

  lemma StaticIff(path: string)
    ensures IsStatic(path) <==> IsAsset(path)
  {
    if p :| p in STATIC_ASSETS && p <= path {
    }
  }

  lemma ProtectedPageIff(path: string)
    ensures StartsWithAny(path, PROTECTED_PAGES) <==> IsProtectedPage(path)
  {
  }

  lemma ProtectedApiIff(path: string)
    ensures StartsWithAny(path, PROTECTED_APIS) <==> IsProtectedApi(path)
  {
  }

  lemma TradePathIff(path: string)
    ensures IsTradePath(path) <==> BelongsToTrade(path)
  {
    hide Under, AtOrBelow;
    forall p ensures Under(path, p) <==> AtOrBelow(path, p) {
      UnderIff(path, p);
    }
  }

  lemma MarketingPathIff(path: string)
    ensures IsMarketingPath(path) <==> BelongsToWeb(path)
  {
    hide Under, AtOrBelow;
    forall p ensures Under(path, p) <==> AtOrBelow(path, p) {
      UnderIff(path, p);
    }
  }

  lemma TradeBouncesIff(path: string)
    ensures TradeBounces(path) <==> LeavesTrade(path)
  {
    hide Under, AtOrBelow;
    forall p ensures Under(path, p) <==> AtOrBelow(path, p) {
      UnderIff(path, p);
    }
  }

  lemma SupportedIff(locale: string)
    ensures locale in LOCALES <==> IsSupported(locale)
  {
  }

  // ---------------------------------------------------------------- the trade app

  /** The name without a port is, or ends in a label before, one of the three loopback names, in any case. */
  ghost predicate IsLocalMachine(host: string) {
    exists name, port ::
      && host == name + port && (port == "" || IsPort(port))
      && (EndsInName(name, "localhost") || EndsInName(name, "127.0.0.1") || EndsInName(name, "[::1]"))
  }

  predicate EndsInName(name: string, local: string) {
    Lower(name) == local || EndsWith(Lower(name), "." + local)
  }

  /** The first six characters spell "trade." in any case. */
  predicate HasTradePrefix(host: string) {
    |host| >= 6 && forall i :: 0 <= i < 6 ==> LowerChar(host[i]) == "trade."[i]
  }

  lemma LowerKeepsPorts(c: char)
    ensures IsDigit(LowerChar(c)) == IsDigit(c) && (LowerChar(c) == ':' <==> c == ':')
  {
  }

  lemma LowerStrips(host: string)
    ensures StripPort(Lower(host)) == Lower(StripPort(host))
  {
    var low, k := Lower(host), DigitsStart(host, |host|);
    DigitsFromStart(host, |host|);
    forall i | 0 <= i < |host|
      ensures low[i] == LowerChar(host[i]) && IsDigit(low[i]) == IsDigit(host[i]) && (low[i] == ':' <==> host[i] == ':')
    {
      LowerKeepsPorts(host[i]);
    }
    hide IsDigit, LowerChar, Lower;
    DigitsStartIs(low, |low|, k);
    hide DigitsStart;
    var cut := |StripPort(host)|;
    assert StripPort(low) == low[..cut] && StripPort(host) == host[..cut];
    LowerOfPrefix(host, cut);
  }

  lemma LowerOfPrefix(s: string, n: nat)
    requires n <= |s|
    ensures Lower(s)[..n] == Lower(s[..n])
  {
    assert forall i :: 0 <= i < n ==> Lower(s)[i] == LowerChar(s[i]) == Lower(s[..n])[i];
    hide Lower;
  }

  lemma EndsAsName(name: string, local: string)
    requires EndsInName(name, local) && |local| > 1
    ensures |name| >= |local| && LowerChar(name[|name| - 1]) == local[|local| - 1]
    ensures LowerChar(name[|name| - 2]) == local[|local| - 2]
  {
    var low, n := Lower(name), |name|;
    if low != local {
      var suffix := "." + local;
      assert low[n - |suffix| + |local|] == suffix[|local|] && low[n - |suffix| + |local| - 1] == suffix[|local| - 1];
    }
    assert low[n - 1] == LowerChar(name[n - 1]) && low[n - 2] == LowerChar(name[n - 2]);
  }

  lemma LocalNameHasNoPort(name: string, local: string)
    requires EndsInName(name, local) && local in {"localhost", "127.0.0.1", "[::1]"}
    ensures StripPort(name) == name
  {
    var n := |name|;
    EndsAsName(name, local);
    if local == "127.0.0.1" {
      assert name[n - 2] == '.' && IsDigit(name[n - 1]);
      DigitsStartIs(name, n, n - 1);
    } else {
      NoPort(name);
    }
  }

  lemma LocalAuthorityIff(host: string)
    ensures IsLocalAuthority(host) <==> IsLocalMachine(host)
  {
    LowerStrips(host);
    if IsLocalAuthority(host) {
      var name, port := StripPort(host), PortOf(host);
      PortIsPort(host);
      assert host == name + port;
      hide IsPort, StripPort, Lower, EndsWith;
      assert EndsInName(name, "localhost") || EndsInName(name, "127.0.0.1") || EndsInName(name, "[::1]");
    }
    if IsLocalMachine(host) {
      var name, port :| host == name + port && (port == "" || IsPort(port))
        && (EndsInName(name, "localhost") || EndsInName(name, "127.0.0.1") || EndsInName(name, "[::1]"));
      hide IsPort, StripPort, Lower, EndsWith;
      if port == "" {
        assert host == name;
        LocalNameHasNoPort(name, if EndsInName(name, "localhost") then "localhost"
                                 else if EndsInName(name, "127.0.0.1") then "127.0.0.1" else "[::1]");
      } else {
        StripAppended(name, port);
      }
    }
  }

  lemma TradeLabelIff(host: string)
    ensures HasTradeLabel(host) <==> HasTradePrefix(host)
  {
    if |host| >= 6 {
      var head := host[..6];
      assert forall i :: 0 <= i < 6 ==> Lower(head)[i] == LowerChar(host[i]);
      assert HasTradePrefix(host) ==> Lower(head) == "trade.";
    }
  }

  /** A brand's development name with a leading "trade." taken off. */
  ghost predicate IsDevelopmentBrand(host: string, brand: string) {
    var name := NormalizeHost(host);
    EndsWith(name, ".localhost") && (if "trade." <= name then name == "trade." + brand else name == brand)
  }

  /** The trade app sends a page away if and only if it is one of the listed pages, asked for on a development host
      or on a host whose first label is "trade". */
  lemma TradeRedirectIff(site: Site, host: string, path: string)
    ensures TradeRedirect(site, host, path).Some? <==>
      LeavesTrade(path) && (IsLocalMachine(host) || HasTradePrefix(host))
  {
    TradeBouncesIff(path);
    LocalAuthorityIff(host);
    TradeLabelIff(host);
    if HasTradePrefix(host) && host[6..] == host {
      assert |host[6..]| == |host|;
    }
    hide LeavesTrade, TradeBounces, IsLocalAuthority, IsLocalMachine, HasTradePrefix, HasTradeLabel;
    hide LocalDevelopmentHost;
  }

  lemma {:induction false} LowerIsLower(s: string)
    ensures IsLowerText(Lower(s))
  {
    assert forall i :: 0 <= i < |s| ==> Lower(s)[i] == LowerChar(s[i]);
  }

  lemma NormalizedIsLower(host: string)
    ensures IsLowerText(NormalizeHost(host))
  {
    LowerIsLower(Trim(host));
    var low := Lower(Trim(host));
    var bare := StripPort(low);
    assert forall i :: 0 <= i < |bare| ==> bare[i] == low[i];
    assert |bare| >= 4 ==> forall i :: 0 <= i < |bare[4..]| ==> bare[4..][i] == bare[i + 4];
  }

  lemma DevelopmentName(name: string, brand: string)
    requires EndsWith(name, ".localhost") && IsLowerText(name)
    requires if "trade." <= name then name == "trade." + brand else name == brand
    ensures StripTradeLabel(name) == brand && brand != ""
  {
    TradeLabelIff(name);
    if HasTradePrefix(name) {
      assert forall i :: 0 <= i < 6 ==> name[i] == "trade."[i];
      assert "trade." <= name && name[6..] == brand;
    }
  }

  lemma MarketingOriginOf(site: Site, host: string)
    ensures MarketingOrigin(site, host) ==
      if IsLocalAuthority(host) then
        Some(if LocalDevelopmentHost(host).Some? && StripTradeLabel(LocalDevelopmentHost(host).value) != ""
             then WithHostname(site.webDevOrigin, StripTradeLabel(LocalDevelopmentHost(host).value))
             else site.webDevOrigin)
      else if HasTradeLabel(host) then Some(UrlAuthority(host[6..])) else None
  {
    assert HasTradeLabel(host) ==> |host[6..]| != |host|;
    hide IsLocalAuthority, LocalDevelopmentHost, UrlAuthority, WithHostname, IsAuthority, Settable;
  }

  /** Where it sends the page outside development: to the host without its first label. */
  lemma TradeRedirectDropsLabel(site: Site, host: string, path: string)
    requires TradeRedirect(site, host, path).Some? && !IsLocalMachine(host)
    ensures |host| >= 6 && TradeRedirect(site, host, path) == Some(UrlAuthority(host[6..]))
    ensures IsAuthority(host) ==> TradeRedirect(site, host, path).value == host[6..]
  {
    MarketingOriginOf(site, host);
    LocalAuthorityIff(host);
    hide IsLocalAuthority, IsLocalMachine, TradeBounces, MarketingOrigin, Lower, Under;
    assert |host| >= 6;
    hide HasTradeLabel;
    assert IsAuthority(host) ==> IsAuthority(host[6..]);
  }

  /** And in development: to the marketing app's origin, under the brand's name if the host names a brand. */
  lemma TradeRedirectInDevelopment(site: Site, host: string, path: string, brand: string)
    requires TradeRedirect(site, host, path).Some? && IsLocalMachine(host)
    ensures !EndsWith(NormalizeHost(host), ".localhost") ==> TradeRedirect(site, host, path) == Some(site.webDevOrigin)
    ensures IsDevelopmentBrand(host, brand) ==>
      TradeRedirect(site, host, path) == Some(WithHostname(site.webDevOrigin, brand))
  {
    MarketingOriginOf(site, host);
    LocalAuthorityIff(host);
    NormalizedIsLower(host);
    if IsDevelopmentBrand(host, brand) {
      DevelopmentName(NormalizeHost(host), brand);
    }
    hide IsLocalAuthority, IsLocalMachine, TradeBounces, UrlAuthority, NormalizeHost, WithHostname, EndsWith;
    hide IsLowerText, HasTradeLabel, MarketingOrigin, StripTradeLabel, Settable, IsAuthority;
  }

  lemma ApexIsWeb(sys: System, apex: Authority)
    requires WellFormed(sys) && apex in sys.site.domains
    ensures !sys.servedByTrade(apex)
  {
    var canonical := sys.site.domains[0];
    assert PlainName(canonical) && canonical in sys.site.domains;
    assert IsAuthority(canonical) && StripPort(canonical) == canonical;
    assert WithHostname(canonical, apex) == apex by {
      assert PlainName(apex);
      assert PortOf(canonical) == "" && apex + "" == apex;
    }
  }

  lemma ApexKeepsMarketing(site: Site, apex: Authority, path: string)
    requires WellFormedSite(site) && apex in site.domains && LeavesTrade(path)
    ensures DomainRedirect(site, apex, path).None?
  {
    TradeBouncesIff(path);
    FamiliesDisjoint(path);
    assert PlainName(apex) && NormalizeHost(apex) == apex;
    ApexIsTrusted(site, apex);
    ApexIsNoTradeHost(site, apex);
    hide LeavesTrade, TradeBounces, IsTradePath, IsMarketingPath, HostIsTrusted, NormalizeHost, PlainName, IsTradeHost;
  }

  /** A marketing page asked for on the trade host of an apex ends on that apex: one hop, and none after it. */
  lemma TradeHostLeadsHome(sys: System, loggedIn: string -> bool, apex: Authority, path: string, query: string,
                           resolved: bool, cookie: Option<string>, originAllowed: bool)
    requires WellFormed(sys) && apex in sys.site.domains && LeavesTrade(path)
    requires IsAuthority("trade." + apex) && sys.servedByTrade("trade." + apex) && !IsLocalMachine("trade." + apex)
    ensures var home := Visit(apex, path, query, false);
      && Step(sys, loggedIn, Visit("trade." + apex, path, query, resolved), cookie, originAllowed) == Go(home)
      && !sys.servedByTrade(apex) && Hop(sys, apex, path).None?
  {
    hide IsLocalMachine, LeavesTrade, TradeRedirect, WellFormedSite, DomainRedirect, AuthHandler, IsAuthority;
    var host: Authority := "trade." + apex;
    ApexIsWeb(sys, apex);
    ApexKeepsMarketing(sys.site, apex, path);
    assert host[6..] == apex && HasTradePrefix(host) by {
      assert forall i :: 0 <= i < 6 ==> LowerChar(host[i]) == host[i] == "trade."[i];
    }
    hide HasTradePrefix;
    TradeRedirectIff(sys.site, host, path);
    TradeRedirectDropsLabel(sys.site, host, path);
  }

  // ---------------------------------------------------------------- the marketing app

  /** The host, without a port, is the trade label and a configured apex. */
  ghost predicate IsAppHost(site: Site, raw: string) {
    exists sub, d ::
      && IsTrimmed(if site.tradeSubdomain.Some? then site.tradeSubdomain.value else "trade", sub)
      && d in site.domains && StripPort(RequestHost(site, raw)) == sub + "." + d
  }

  lemma {:induction false} TradeHostIn(site: Site, n: nat, host: string)
    requires n <= |site.domains| && AnyTradeHost(site, n, host)
    ensures exists d :: d in site.domains && host == TradeHostOf(site, d)
  {
    if AnyTradeHost(site, n - 1, host) {
      TradeHostIn(site, n - 1, host);
    }
  }

  lemma TradeHostIff(site: Site, host: string)
    ensures IsTradeHost(site, host) <==> exists d :: d in site.domains && host == TradeHostOf(site, d)
  {
    if IsTradeHost(site, host) {
      TradeHostIn(site, |site.domains|, host);
    }
    if d :| d in site.domains && host == TradeHostOf(site, d) {
      AnyTradeHostHas(site, |site.domains|, d);
    }
  }

  lemma AppHostIff(site: Site, raw: string)
    ensures OnTradeHost(site, raw) <==> IsAppHost(site, raw)
  {
    var name := StripPort(RequestHost(site, raw));
    var variable := if site.tradeSubdomain.Some? then site.tradeSubdomain.value else "trade";
    hide StripPort, RequestHost, Trim, IsTrimmed, IsTradeHost;
    TradeHostIff(site, name);
    TrimIff(variable, Trim(variable));
    forall sub | IsTrimmed(variable, sub) ensures sub == TradeLabel(site) {
      TrimIff(variable, sub);
    }
  }

  /** A page asked for with a supported locale other than English, by its unprefixed URL, off the trade hosts. */
  ghost predicate WantsLocale(site: Site, req: Request) {
    && req.cookieLocale.Some? && IsSupported(req.cookieLocale.value) && req.cookieLocale.value != "en"
    && !IsAsset(req.path) && !("/api/" <= req.path)
    && !IsAppHost(site, req.host) && !req.resolved
  }

  /** An API call from a foreign origin, sign-in callbacks and the public support form excepted. */
  predicate IsForeignCall(req: Request) {
    && "/api/" <= req.path && !req.originAllowed
    && !("/api/auth/" <= req.path) && req.path != "/api/support"
  }

  lemma WantsLocaleIff(site: Site, req: Request)
    ensures Sticky(site, req) <==> WantsLocale(site, req)
  {
    StaticIff(req.path);
    AppHostIff(site, req.host);
    if req.cookieLocale.Some? {
      SupportedIff(req.cookieLocale.value);
    }
    hide IsStatic, IsAsset, OnTradeHost, IsAppHost, IsSupported;
  }

  lemma GateAnswers(site: Site, req: Request)
    ensures Gate(site, req) ==
      var origin := PublicOrigin(site, req.host);
      if IsForeignCall(req) then Refuse(403)
      else if (req.path == "/login" || req.path == "/register") && req.loggedIn
      then Redirect(307, Url(origin, "/account", ""), None)
      else if !req.loggedIn && IsProtectedApi(req.path) then Refuse(401)
      else if !req.loggedIn && IsProtectedPage(req.path)
      then Redirect(307, Url(origin, "/login", "?callbackUrl=" + req.path + req.query), None)
      else Pass
  {
    ProtectedPageIff(req.path);
    ProtectedApiIff(req.path);
    AuthTargetsResolve("?callbackUrl=" + req.path + req.query, PublicOrigin(site, req.host));
    hide StartsWithAny, IsProtectedPage, IsProtectedApi, PublicOrigin, Resolve;
  }

  lemma ApiIsApart(path: string)
    requires "/api/" <= path
    ensures !IsProtectedPage(path) && path != "/login" && path != "/register"
  {
    assert path[1] == 'a' && path[2] == 'p';
  }

  lemma ProtectedApiIsApi(path: string)
    requires IsProtectedApi(path)
    ensures "/api/" <= path
  {
    assert path[..5] == "/api/";
  }

  lemma LocalisedIsNoAuthPage(prefix: string, path: string)
    requires path != "" && path[0] == '/'
    ensures "/" + prefix + path != "/account" && "/" + prefix + path != "/login"
  {
    var p, q, at := "/account", "/login", 1 + |prefix|;
    assert ("/" + prefix + path)[at] == '/';
    assert forall i :: 0 < i < |p| ==> p[i] != '/';
    assert forall i :: 0 < i < |q| ==> q[i] != '/';
  }

  lemma UnprefixedAnswer(site: Site, urlFollows: bool, req: Request)
    requires CleanPath(req.path) && !HasLocale(req.path) && DomainRedirect(site, req.host, req.path).None?
    ensures AuthHandler(site, urlFollows, req) ==
      if WantsLocale(site, req)
      then Redirect(307, Url(PublicOrigin(site, req.host), "/" + req.cookieLocale.value + req.path, req.query), None)
      else Gate(site, req)
  {
    UnprefixedMoves(site, urlFollows, req);
    WantsLocaleIff(site, req);
    hide *;
  }

  lemma AnswersApart(req: Request)
    ensures "/api/" <= req.path ==> !IsProtectedPage(req.path) && req.path != "/login" && req.path != "/register"
    ensures IsProtectedApi(req.path) ==> "/api/" <= req.path
    ensures IsForeignCall(req) ==> "/api/" <= req.path
    ensures !IsProtectedPage("/login") && !IsProtectedPage("/register")
  {
    if "/api/" <= req.path {
      ApiIsApart(req.path);
    }
    if IsProtectedApi(req.path) {
      ProtectedApiIsApi(req.path);
    }
    assert "/login"[1] == 'l' && "/register"[3] == 'g';
    assert "/trade"[1] == 't' && "/account"[1] == 'a' && "/reports"[3] == 'p';
  }

  /** Every answer to an unprefixed request that host routing lets stay, each if and only if. */
  lemma UnprefixedAnswers(site: Site, urlFollows: bool, req: Request)
    requires CleanPath(req.path) && !HasLocale(req.path) && DomainRedirect(site, req.host, req.path).None?
    ensures var a, origin := AuthHandler(site, urlFollows, req), PublicOrigin(site, req.host);
      && (WantsLocale(site, req)
          <==> req.cookieLocale.Some?
               && a == Redirect(307, Url(origin, "/" + req.cookieLocale.value + req.path, req.query), None))
      && (a == Redirect(307, Url(origin, "/account", ""), None)
          <==> !WantsLocale(site, req) && (req.path == "/login" || req.path == "/register") && req.loggedIn)
      && (a == Redirect(307, Url(origin, "/login", "?callbackUrl=" + req.path + req.query), None)
          <==> !WantsLocale(site, req) && IsProtectedPage(req.path) && !req.loggedIn)
      && (a == Refuse(403) <==> IsForeignCall(req))
      && (a == Refuse(401) <==> !IsForeignCall(req) && IsProtectedApi(req.path) && !req.loggedIn)
      && (a == Pass
          <==> && !WantsLocale(site, req) && !IsForeignCall(req)
               && (req.path == "/login" || req.path == "/register" ==> !req.loggedIn)
               && (IsProtectedPage(req.path) || IsProtectedApi(req.path) ==> req.loggedIn))
  {
    UnprefixedAnswer(site, urlFollows, req);
    GateAnswers(site, req);
    AnswersApart(req);
    assert WantsLocale(site, req) ==> !("/api/" <= req.path) && req.cookieLocale.Some?;
    if req.cookieLocale.Some? {
      LocalisedIsNoAuthPage(req.cookieLocale.value, req.path);
    }
    hide *;
  }

  lemma AssetsApart(path: string)
    requires IsAsset(path)
    ensures !("/api/" <= path) && !IsProtectedPage(path) && path != "/login" && path != "/register"
  {
    hide IsProtectedApi;
    if "/payments/" <= path {
      assert path[1] == 'p';
    } else if "/robots.txt" <= path {
      assert path[1] == 'r' && path[2] == 'o';
    } else {
      assert path[1] == 'f' || path[1] == 's' || path[1] == 'm' || path[1] == 'o' || path[1] == 'b';
    }
  }

  /** A public asset is served as it is, whatever the cookies and the sign-in. */
  lemma AssetPasses(site: Site, urlFollows: bool, req: Request)
    requires CleanPath(req.path) && !HasLocale(req.path) && DomainRedirect(site, req.host, req.path).None?
    requires IsAsset(req.path)
    ensures AuthHandler(site, urlFollows, req) == Pass
  {
    AssetsApart(req.path);
    AnswersApart(req);
    assert !WantsLocale(site, req);
    hide IsAsset, WantsLocale, IsProtectedApi, IsProtectedPage, IsForeignCall, AuthHandler, DomainRedirect;
    UnprefixedAnswers(site, urlFollows, req);
  }

  // ---------------------------------------------------------------- prefixed URLs

  /** A prefixed path is a supported locale after the first slash, and then nothing or a path. */
  lemma HasLocaleIff(path: string)
    ensures HasLocale(path) <==> exists l :: IsSupported(l) && AtOrBelow(path, "/" + l)
  {
    if HasLocale(path) {
      var l := path[1..3];
      SupportedIff(l);
      assert "/" + l == path[..3];
      assert AtOrBelow(path, "/" + l);
    }
    if l :| IsSupported(l) && AtOrBelow(path, "/" + l) {
      SupportedIff(l);
      assert |l| == 2 && ("/" + l)[1..3] == l;
      assert path[1..3] == ("/" + l)[1..3];
    }
  }

  /** A prefixed URL that may stay: English is redirected to the rest for good and stamped, every other locale is
      rewritten to it. */
  lemma PrefixedAnswers(site: Site, urlFollows: bool, req: Request, locale: string, rest: string)
    requires req.path == "/" + locale + rest && IsSupported(locale) && (rest == "" || CleanPath(rest))
    requires DomainRedirect(site, req.host, RoutedPath(urlFollows, req.path)).None?
    ensures var target := Url(PublicOrigin(site, req.host), if rest == "" then "/" else rest, req.query);
      AuthHandler(site, urlFollows, req)
      == if locale == "en" then Redirect(308, target, Some("en")) else Rewrite(target, locale)
  {
    SupportedIff(locale);
    PrefixedPath(locale, rest);
    hide *;
    LocaleMoves(site, urlFollows, req);
  }

  lemma PrefixedPath(locale: string, rest: string)
    requires locale in LOCALES && (rest == "" || CleanPath(rest))
    ensures var path := "/" + locale + rest;
      && CleanPath(path) && HasLocale(path) && LocaleOf(path) == locale && DEFAULT_LOCALE == "en"
      && StripLocale(path) == if rest == "" then "/" else rest
  {
    if rest == "" {
      var path := "/" + locale + rest;
      assert |locale| == 2 && locale[0] != '/' && locale[1] != '/';
      assert path[1..3] == locale;
    } else {
      PrefixThenStrip(locale, rest);
    }
  }

  // ---------------------------------------------------------------- host routing of the marketing app

  /** The trade host of a family: its override if that is not blank; else the registry's label before the family's
      own apex if trading is enabled for it, by the override's flag or, without one, by its manifest; else before the
      canonical apex. */
  lemma FamilyTradeHostIs(site: Site, d: string, override: string)
    requires site.domains != []
    ensures d in site.overrides && site.overrides[d].tradeHost.Some? && override != ""
      && IsTrimmed(site.overrides[d].tradeHost.value, override)
      ==> FamilyTradeHost(site, d) == Lower(override)
    ensures (d !in site.overrides || site.overrides[d].tradeHost.None?
             || IsTrimmed(site.overrides[d].tradeHost.value, ""))
      ==> FamilyTradeHost(site, d) == RegistryLabel(site) + "." +
            if d in site.overrides && site.overrides[d].tradeEnabled.Some?
            then (if site.overrides[d].tradeEnabled == Some(true) then d else site.domains[0])
            else (if d in site.enabledByManifest then d else site.domains[0])
  {
    if d in site.overrides && site.overrides[d].tradeHost.Some? {
      TrimIff(site.overrides[d].tradeHost.value, override);
      TrimIff(site.overrides[d].tradeHost.value, "");
    }
    hide Trim, IsTrimmed, Lower, RegistryLabel;
  }

  /** Host routing, given the authority of the URL it edits: a request is sent to another host if and only if it is one
      for the trade app, made on an apex or a development host, or one for a marketing page, made on a trade host. */
  lemma RedirectFromIff(site: Site, raw: string, base: Authority, path: string)
    ensures var route := NormalizeHost(RequestHost(site, raw));
      RedirectFrom(site, raw, base, path).Some? <==>
        (|| (site.domains != [] && BelongsToTrade(path) && (route in site.domains || IsLocalRoute(route)))
         || (BelongsToWeb(path) && !IsLocalRoute(route)
             && exists d :: d in site.domains && route == TradeHostOf(site, d)))
  {
    TradePathIff(path);
    MarketingPathIff(path);
    FamiliesDisjoint(path);
    TradeHostIff(site, NormalizeHost(RequestHost(site, raw)));
    hide BelongsToTrade, BelongsToWeb, IsTradePath, IsMarketingPath, IsTradeHost, IsLocalRoute, NormalizeHost;
    hide RequestHost, PublicOrigin, WithHostname, FamilyTradeHost;
  }

  /** The target keeps the port of that authority and names the family's trade host, or the apex whose trade host it
      is; in development it is the trade app's origin, under the brand's name if the host names one. */
  lemma RedirectFromTargets(site: Site, raw: string, base: Authority, path: string, d: string)
    requires d in site.domains
    ensures var route := NormalizeHost(RequestHost(site, raw));
      && (BelongsToTrade(path) && !IsLocalRoute(route) && route == d
          ==> RedirectFrom(site, raw, base, path) == Some(WithHostname(base, FamilyTradeHost(site, d))))
      && (BelongsToWeb(path) && !IsLocalRoute(route) && route == TradeHostOf(site, d)
          ==> RedirectFrom(site, raw, base, path) == Some(WithHostname(base, d)))
      && (BelongsToTrade(path) && IsLocalRoute(route) ==> RedirectFrom(site, raw, base, path) == Some(
            if EndsWith(NormalizeHost(route), ".localhost")
            then WithHostname(site.tradeDevOrigin, NormalizeHost(route)) else site.tradeDevOrigin))
  {
    TradePathIff(path);
    MarketingPathIff(path);
    FamiliesDisjoint(path);
    var route := NormalizeHost(RequestHost(site, raw));
    TradeHostIff(site, route);
    if route == TradeHostOf(site, d) {
      FamilyIsTheOneNamed(site, d, route);
    }
    hide BelongsToTrade, BelongsToWeb, IsTradePath, IsMarketingPath, IsTradeHost, IsLocalRoute, NormalizeHost;
    hide RequestHost, PublicOrigin, WithHostname, FamilyTradeHost, EndsWith;
  }

  /** A reference that begins with two slashes names its authority and, from the next slash on, its path. */
  lemma ResolveReference(name: string, path: string, query: string, origin: Authority)
    requires name != "" && name[0] != '/' && name[0] != '\\' && '/' !in name && (path == "" || path[0] == '/')
    ensures Resolve("//" + name + path, query, origin)
      == Url(UrlAuthority(name), if path == "" then "/" else path, query)
  {
    var s := "//" + name + path;
    var from, end := 2, 2 + |name|;
    assert s[2] == name[0] && SlashesEnd(s, 2) == 2;
    assert s[2..end] == name && s[end..] == path;
    assert forall i :: 0 <= i < |name| ==> s[2 + i] == name[i];
    assert path != "" ==> s[end] == '/';
    IndexIs(s, '/', 2, end);
    hide UrlAuthority;
  }

  lemma IndexIs(s: string, c: char, from: nat, at: nat)
    requires from <= at <= |s| && (forall i :: from <= i < at ==> s[i] != c) && (at < |s| ==> s[at] == c)
    ensures IndexFrom(s, c, from) == at
  {
    var k := IndexFrom(s, c, from);
    assert forall i :: from <= i < k ==> s[i] != c by {
      assert forall i :: from <= i < k ==> s[from..k][i - from] == s[i];
    }
  }

  /** A path that begins with two slashes is matched without the authority it names, which the target keeps the port
      of; on development hosts it is matched as it is, and so belongs to no app. */
  lemma ReferenceBounces(site: Site, raw: string, name: string, path: string, query: string)
    requires name != "" && name[0] != '/' && name[0] != '\\' && '/' !in name && path != "" && path[0] == '/'
    ensures DomainBounce(site, raw, "//" + name + path, query) ==
      if IsLocalRoute(NormalizeHost(RequestHost(site, raw))) then None
      else match RedirectFrom(site, raw, UrlAuthority(name), path)
        case Some(host) => Some(Url(host, path, query))
        case None => None
  {
    var whole := "//" + name + path;
    ResolveReference(name, path, query, PublicOrigin(site, raw));
    RedirectFromIff(site, raw, PublicOrigin(site, raw), whole);
    NoFamilyBeginsWithTwo(whole);
    hide UrlAuthority, RequestHost, NormalizeHost, IsLocalRoute, RedirectFrom, Resolve, BelongsToTrade, BelongsToWeb;
  }

  lemma NoFamilyBeginsWithTwo(path: string)
    requires "//" <= path
    ensures !BelongsToTrade(path) && !BelongsToWeb(path) && !HasLocale(path)
  {
    assert path[0] == '/' && path[1] == '/';
    TradePathIff(path);
    MarketingPathIff(path);
    if IsTradePath(path) {
      TradeFamilyHead(path);
    }
    if IsMarketingPath(path) {
      BouncedHead(path);
    }
    hide BelongsToTrade, BelongsToWeb;
  }

  /** So the handler sends it to that host with the path behind the authority. */
  lemma ReferenceAnswer(site: Site, urlFollows: bool, req: Request, name: string, path: string, host: Authority)
    requires name != "" && name[0] != '/' && name[0] != '\\' && '/' !in name && path != "" && path[0] == '/'
    requires req.path == "//" + name + path && !IsLocalRoute(NormalizeHost(RequestHost(site, req.host)))
    requires RedirectFrom(site, req.host, UrlAuthority(name), path) == Some(host)
    ensures AuthHandler(site, urlFollows, req) == Redirect(307, Url(host, path, req.query), None)
  {
    NoFamilyBeginsWithTwo(req.path);
    ReferenceBounces(site, req.host, name, path, req.query);
    hide DomainBounce, UrlAuthority, RequestHost, NormalizeHost, IsLocalRoute, RedirectFrom, HasLocale, Gate, Sticky;
  }

  /** Whatever locale prefix it carries, a request that host routing sends away keeps its path and query. */
  lemma BouncedAnswer(site: Site, urlFollows: bool, req: Request, host: Authority)
    requires CleanPath(req.path)
    requires RedirectFrom(site, req.host, UrlAuthority(RequestHost(site, req.host)), RoutedPath(urlFollows, req.path))
      == Some(host)
    ensures AuthHandler(site, urlFollows, req) == Redirect(307, Url(host, req.path, req.query), None)
  {
    assert DomainRedirect(site, req.host, RoutedPath(urlFollows, req.path)) == Some(host);
    hide DomainRedirect, DomainBounce, PublicOrigin, CleanPath, RequestHost, NormalizeHost;
    CleanRouted(urlFollows, req.path);
    PlainBounce(site, req.host, RoutedPath(urlFollows, req.path), req.query);
  }

  // ---------------------------------------------------------------- the host a request is for

  /** The host is read from the proxy header up to its first comma, if that header is there and not empty, and
      else from the Host header; it is in lower case. */
  lemma RawHostIs(forwarded: Option<string>, host: Option<string>, first: string, rest: string, name: string)
    ensures forwarded == Some(first + rest) && first + rest != "" && ',' !in first && (rest == "" || rest[0] == ',')
      && IsTrimmed(first, name)
      ==> RawHost(forwarded, host) == Lower(name)
    ensures forwarded == None || forwarded == Some("") ==>
      RawHost(forwarded, host) == Lower(if host.Some? then host.value else "")
  {
    if forwarded == Some(first + rest) && ',' !in first && (rest == "" || rest[0] == ',') {
      BeforeAppend(first, rest, ',');
      TrimIff(first, name);
    }
    hide Trim, IsTrimmed, Lower, Before;
  }

  /** A request is handled as one for its own host if that host is a development host, an apex or below an apex; as
      one for the canonical apex otherwise. */
  lemma RequestHostIs(site: Site, raw: string)
    ensures var name := StripPort(raw);
      RequestHost(site, raw) ==
        if IsLocalHost(name) || EndsWith(name, ".localhost")
           || (exists d :: d in site.domains && (name == d || EndsWith(name, "." + d))) || site.domains == []
        then raw else site.domains[0]
  {
    WithinAnyIff(site.domains, |site.domains|, StripPort(raw));
    hide StripPort, IsLocalHost, EndsWith;
    assert site.domains[..|site.domains|] == site.domains;
  }

  lemma {:induction false} WithinAnyIff(domains: seq<string>, n: nat, host: string)
    requires n <= |domains|
    ensures WithinAny(domains, n, host) <==> exists d :: d in domains[..n] && WithinApex(host, d)
  {
    if n > 0 {
      WithinAnyIff(domains, n - 1, host);
      assert domains[..n] == domains[..n - 1] + [domains[n - 1]];
    }
  }
}
