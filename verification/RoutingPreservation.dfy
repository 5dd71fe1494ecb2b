/** What host routing preserves: the brand family, the host trust, and the separation of the two apps. */
module RoutingPreservation {
  import opened Basics
  import opened Strings
  import opened Registry
  import opened WebMiddleware
  import opened TradeMiddleware
  import opened PathFamilies
  import opened RoutingChain
  import opened RoutingTheorems
  import opened HostFacts

  // ---------------------------------------------------------------- one hop

  /** A domain redirect is the last one, unless it leads to a development host. */
  lemma DomainRedirectIsLast(site: Site, host: string, path: string)
    requires WellFormedSite(site) && DomainRedirect(site, host, path).Some?
    ensures var next := DomainRedirect(site, host, path).value;
      IsLocalRoute(NormalizeHost(RequestHost(site, next))) || DomainRedirect(site, next, path).None?
      || IsLocalRoute(NormalizeHost(RequestHost(site, host)))
  {
    FamiliesDisjoint(path);
    var origin := PublicOrigin(site, host);
    var route := NormalizeHost(RequestHost(site, host));
    if !IsLocalRoute(route) {
      if IsTradePath(path) {
        PlainWithPort(site, origin, FamilyTradeHost(site, route));
      } else {
        var d := FamilyOfTradeHost(site, |site.domains|, route);
        PlainWithPort(site, origin, d);
        ApexIsTrusted(site, d);
        ApexIsNoTradeHost(site, d);
      }
    }
  }

  lemma SubdomainInjective(sub: string, d: string, e: string)
    requires sub + "." + d == sub + "." + e
    ensures d == e
  {
    var s := sub + "." + d;
    assert s[|sub| + 1..] == d;
    assert s[|sub| + 1..] == e;
  }

  /** The family a visitor of apex `d` is served by: its own if it has a trade host, else the canonical one. */
  function ServingFamily(site: Site, d: string): string
    requires site.domains != []
  {
    if HasTradeHostOverride(site, d) || FamilyTradeEnabled(site, d) then d else site.domains[0]
  }

  predicate HasTradeHostOverride(site: Site, d: string) {
    d in site.overrides && site.overrides[d].tradeHost.Some? && Trim(site.overrides[d].tradeHost.value) != ""
  }

  lemma OutToTradeHost(site: Site, d: string, host: string, path: string)
    requires WellFormedSite(site) && d in site.domains && NormalizeHost(RequestHost(site, host)) == d
    requires !IsLocalRoute(d) && IsTradePath(path)
    ensures DomainRedirect(site, host, path) == Some(WithHostname(PublicOrigin(site, host), FamilyTradeHost(site, d)))
  {
    FamiliesDisjoint(path);
  }

  /** A marketing path asked for on a trade host goes to the apex whose trade host it is, if there is one. */
  lemma BackFromTradeHost(site: Site, host: Authority, path: string)
    requires IsMarketingPath(path) && RequestHost(site, host) == host && NormalizeHost(host) !in site.domains
    ensures DomainRedirect(site, host, path)
      == if IsTradeHost(site, NormalizeHost(host)) && !IsLocalRoute(NormalizeHost(host))
         then Some(WithHostname(host, FamilyOfTradeHost(site, |site.domains|, NormalizeHost(host)))) else None
  {
    FamiliesDisjoint(path);
  }

  lemma FamilyIsTheOneNamed(site: Site, e: string, route: string)
    requires e in site.domains && IsTradeHost(site, route)
    ensures FamilyOfTradeHost(site, |site.domains|, route) == e <==> route == TradeHostOf(site, e)
  {
    var g := FamilyOfTradeHost(site, |site.domains|, route);
    if route == TradeHostOf(site, e) {
      SubdomainInjective(TradeLabel(site), g, e);
    }
  }

  lemma SameNameSamePort(origin: Authority, d: string, e: string)
    requires Settable(d) && Settable(e)
    ensures WithHostname(origin, d) == WithHostname(origin, e) <==> d == e
  {
    var port := PortOf(origin);
    assert (d + port)[..|d + port| - |port|] == d;
    assert (e + port)[..|e + port| - |port|] == e;
  }

  /** A visitor who goes from an apex to its trade host and back returns to the serving family's apex, on the same
      port, exactly when that trade host is the one the middleware's own label gives the family. */
  lemma FamilyRoundTripIff(site: Site, d: string, host: string, tradePath: string, marketingPath: string)
    requires WellFormedSite(site) && d in site.domains && NormalizeHost(RequestHost(site, host)) == d
    requires !IsLocalRoute(d) && IsTradePath(tradePath) && IsMarketingPath(marketingPath)
    ensures var origin, e := PublicOrigin(site, host), ServingFamily(site, d);
      var out, t := DomainRedirect(site, host, tradePath), NormalizeHost(FamilyTradeHost(site, d));
      && out.Some? && NormalizeHost(out.value) == t
      && (DomainRedirect(site, out.value, marketingPath) == Some(WithHostname(origin, e))
          <==> t == TradeHostOf(site, e) && !IsLocalRoute(t))
  {
    var origin, e := PublicOrigin(site, host), ServingFamily(site, d);
    var f := FamilyTradeHost(site, d);
    var out, t := WithHostname(origin, f), NormalizeHost(f);
    OutToTradeHost(site, d, host, tradePath);
    PlainWithPort(site, origin, f);
    StripWithHostname(origin, f);
    BackFromTradeHost(site, out, marketingPath);
    assert e in site.domains;
    if t == TradeHostOf(site, e) {
      AnyTradeHostHas(site, |site.domains|, e);
    }
    if IsTradeHost(site, t) {
      var g := FamilyOfTradeHost(site, |site.domains|, t);
      FamilyIsTheOneNamed(site, e, t);
      assert WithHostname(out, g) == WithHostname(origin, g);
      SameNameSamePort(origin, g, e);
    }
  }

  /** The registry's trade label and the middleware's are the same, and do not read as a "www" label. */
  predicate LabelsAgree(site: Site) {
    RegistryLabel(site) == TradeLabel(site) && !("www." <= TradeLabel(site) + ".")
  }

  lemma SameLabel(a: string, b: string, d: string)
    requires a + "." + d == b + "." + d
    ensures a == b
  {
    var s := a + "." + d;
    assert s[..|s| - |d| - 1] == a;
    assert s[..|s| - |d| - 1] == b;
  }

  lemma LabelLengths(site: Site)
    ensures |RegistryLabel(site)| == |TradeLabel(site)| || TradeLabel(site) == ""
    ensures |RegistryLabel(site)| != |TradeLabel(site)| ==> RegistryLabel(site) == "trade"
  {
    assert Trim("") == "";
    TrimmedEnds("trade");
  }

  lemma NormalizedLabel(site: Site, e: string)
    requires PlainName(RegistryLabel(site) + "." + e)
    ensures NormalizeHost(RegistryLabel(site) + "." + e) == TradeHostOf(site, e) <==> LabelsAgree(site)
  {
    var a, b := RegistryLabel(site), TradeLabel(site);
    var f := a + "." + e;
    LabelLengths(site);
    assert NormalizeHost(f) == if "www." <= f then f[4..] else f;
    if "www." <= f {
      assert a != "" by { assert f[0] == 'w'; }
      WwwInLabel(a, e);
      if a == b {
        assert !LabelsAgree(site);
      }
      assert |f[4..]| == |a| + 1 + |e| - 4;
      assert "trade."[0] == 't';
    } else {
      if f == TradeHostOf(site, e) {
        SameLabel(a, b, e);
        assert "www." <= b + "." ==> "www." <= f;
      }
    }
  }

  /** Without a trade-host override the round trip returns exactly when registry and middleware agree on the label
      and the trade host is no development host. */
  lemma FamilyRoundTrip(site: Site, d: string, host: string, tradePath: string, marketingPath: string)
    requires WellFormedSite(site) && d in site.domains && NormalizeHost(RequestHost(site, host)) == d
    requires !IsLocalRoute(d) && IsTradePath(tradePath) && IsMarketingPath(marketingPath)
    requires !HasTradeHostOverride(site, d)
    ensures var origin, e := PublicOrigin(site, host), ServingFamily(site, d);
      var out := DomainRedirect(site, host, tradePath);
      && out.Some?
      && (DomainRedirect(site, out.value, marketingPath) == Some(WithHostname(origin, e))
          <==> LabelsAgree(site) && !IsLocalRoute(TradeHostOf(site, e)))
  {
    FamilyRoundTripIff(site, d, host, tradePath, marketingPath);
    NormalizedLabel(site, ServingFamily(site, d));
  }

  lemma BlankLabels(site: Site)
    requires site.tradeSubdomain == Some("")
    ensures RegistryLabel(site) == "trade" && TradeLabel(site) == ""
  {
  }

  lemma PlainIsNormal(name: string)
    requires PlainName(name) && !("www." <= name)
    ensures NormalizeHost(name) == name
  {
    SettableHasNoPort(name);
    hide Trim, Lower, StripPort, Settable;
  }

  lemma BlankLabelTradeHost(site: Site, d: string)
    requires WellFormedSite(site) && d in site.domains
    requires site.tradeSubdomain == Some("") && !HasTradeHostOverride(site, d)
    ensures var f := "trade." + ServingFamily(site, d);
      && FamilyTradeHost(site, d) == f && PlainName(f) && HostIsTrusted(site, f)
      && NormalizeHost(f) == f && f !in site.domains && !IsTradeHost(site, f)
  {
    var f := "trade." + ServingFamily(site, d);
    BlankLabels(site);
    var e := ServingFamily(site, d);
    assert "trade" + "." + e == "trade." + e;
    assert f[0] == 't' && "www."[0] == 'w';
    hide Trim, Lower, StripPort, Settable, HostIsTrusted, RegistryLabel, TradeLabel;
    forall e | e in site.domains ensures TradeHostOf(site, e) != f {
      assert TradeHostOf(site, e)[0] == '.';
    }
    NoTradeHost(site, |site.domains|, f);
    assert FamilyTradeHost(site, d) == f;
    assert PlainName(FamilyTradeHost(site, d));
    assert !("www." <= f);
    PlainIsNormal(f);
  }

  /** A blank TRADE_SUBDOMAIN reads as "trade" in the registry and as nothing in the middleware: no way back. */
  lemma BlankLabelHasNoWayBack(site: Site, d: string, host: string, tradePath: string, marketingPath: string)
    requires WellFormedSite(site) && d in site.domains && NormalizeHost(RequestHost(site, host)) == d
    requires !IsLocalRoute(d) && IsTradePath(tradePath) && IsMarketingPath(marketingPath)
    requires site.tradeSubdomain == Some("") && !HasTradeHostOverride(site, d)
    ensures var out := DomainRedirect(site, host, tradePath);
      && out == Some(WithHostname(PublicOrigin(site, host), "trade." + ServingFamily(site, d)))
      && DomainRedirect(site, out.value, marketingPath).None?
  {
    hide NormalizeHost, HostIsTrusted, PlainName, IsTradeHost, DomainRedirect, WellFormedSite, WithHostname, StripPort;
    var f := "trade." + ServingFamily(site, d);
    BlankLabelTradeHost(site, d);
    OutToTradeHost(site, d, host, tradePath);
    PlainWithPort(site, PublicOrigin(site, host), f);
    BackFromTradeHost(site, WithHostname(PublicOrigin(site, host), f), marketingPath);
  }

  // ---------------------------------------------------------------- the two apps

  /** A path the marketing app hands to the trade app is never handed back. */
  lemma NoBounceBackToWeb(site: Site, webHost: string, tradeHost: string, path: string)
    requires IsTradePath(path)
    ensures DomainRedirect(site, webHost, path).Some? ==> TradeRedirect(site, tradeHost, path).None?
  {
    FamiliesDisjoint(path);
  }

  /** A path the trade app hands out is never handed back: the marketing app keeps it or moves it to an apex. */
  lemma NoBounceBackToTrade(sys: System, tradeHost: string, webHost: Authority, path: string)
    requires WellFormed(sys) && TradeRedirect(sys.site, tradeHost, path).Some?
    requires !sys.servedByTrade(webHost)
    ensures var next := DomainRedirect(sys.site, webHost, path);
      next.Some? ==> !sys.servedByTrade(next.value) && DomainRedirect(sys.site, next.value, path).None?
  {
    FamiliesDisjoint(path);
    hide DomainRedirect, WellFormed, MarketingOrigin;
    if DomainRedirect(sys.site, webHost, path).Some? {
      MarketingBounceLands(sys, webHost, path);
    }
  }

  /** Outside development each trade-app hop removes exactly one leading trade label. */
  lemma TradeHopDropsOneLabel(site: Site, host: Authority, path: string)
    requires !IsLocalAuthority(host) && TradeRedirect(site, host, path).Some?
    ensures HasTradeLabel(host) && host == host[..6] + TradeRedirect(site, host, path).value
    ensures TradeLabels(host) == TradeLabels(TradeRedirect(site, host, path).value) + 1
  {
    assert host == host[..6] + host[6..];
  }

  // ---------------------------------------------------------------- who gets through

  /** An API call on its host is refused for its origin before it is refused for want of a sign-in. */
  lemma RefusalsIff(site: Site, urlFollows: bool, req: Request)
    requires !HasLocale(req.path) && DomainRedirect(site, req.host, req.path).None? && IsApi(req.path)
    ensures AuthHandler(site, urlFollows, req) == Refuse(403) <==>
      !req.originAllowed && !("/api/auth/" <= req.path) && req.path != "/api/support"
    ensures AuthHandler(site, urlFollows, req) == Refuse(401) <==>
      StartsWithAny(req.path, PROTECTED_APIS) && !req.loggedIn && AuthHandler(site, urlFollows, req) != Refuse(403)
    ensures !AuthHandler(site, urlFollows, req).Redirect?
  {
    hide DomainRedirect, DomainBounce, RequestHost, Resolve;
    ApiIsNoPage(req.path);
    PlainBounce(site, req.host, req.path, req.query);
  }

  lemma ApiIsNoPage(path: string)
    requires IsApi(path)
    ensures !GuestOnly(path) && !StartsWithAny(path, PROTECTED_PAGES) && !IsStatic(path) && !("//" <= path)
  {
    forall p | p in STATIC_ASSETS ensures !(p <= path) {
      assert |p| >= 3 && !(p[1] == 'a' && p[2] == 'p');
    }
    assert path[1] == 'a' && path[2] == 'p';
    forall p | p in PROTECTED_PAGES ensures !(p <= path) {
      assert |p| >= 3 && !(p[1] == 'a' && p[2] == 'p');
    }
  }

  // ---------------------------------------------------------------- default configuration

  /** Without trade-host overrides, a plain label other than "www" makes every site well formed. */
  lemma {:induction false} DefaultTradeHostsAreWellFormed(site: Site)
    requires site.domains != []
    requires forall d :: d in site.domains ==> PlainName(d) && NormalizeHost(d) == d
    requires forall d :: d in site.domains ==> TradeHostOf(site, d) !in site.domains
    requires forall d :: d in site.overrides ==> site.overrides[d].tradeHost.None?
    requires var sub := TradeLabel(site);
      RegistryLabel(site) == sub && PlainName(sub) && !("www." <= sub + ".")
    ensures WellFormedSite(site)
  {
    forall d | d in site.domains
      ensures var f := FamilyTradeHost(site, d);
        PlainName(f) && HostIsTrusted(site, f) && NormalizeHost(f) !in site.domains
    {
      var e := if FamilyTradeEnabled(site, d) then d else site.domains[0];
      assert e in site.domains && FamilyTradeHost(site, d) == TradeHostOf(site, e);
      PlainSubdomain(TradeLabel(site), e);
      SubdomainEnds(TradeLabel(site), e);
      WithinAnyHas(site.domains, |site.domains|, e, TradeHostOf(site, e));
    }
  }
}
