/** Ordinary deployments meet the assumptions of the routing theorems. */
module Deployments {
  import opened Basics
  import opened Strings
  import opened Registry
  import opened WebMiddleware
  import opened HostFacts
  import opened RoutingChain
  import opened RoutingTheorems
  import opened PathFamilies
  import opened RoutingPreservation
  import opened LocaleSettling

  predicate NameChar(c: char) { 'a' <= c <= 'z' || '0' <= c <= '9' || c == '-' || c == '.' }

  /** A lower-case domain name that begins and ends with a letter and with no "www." or "trade." label. */
  predicate SimpleName(d: string) {
    && d != "" && 'a' <= d[0] <= 'z' && 'a' <= d[|d| - 1] <= 'z'
    && (forall i :: 0 <= i < |d| ==> NameChar(d[i]))
    && !("www." <= d) && !("trade." <= d)
  }

  lemma LowerKeeps(s: string)
    requires forall i :: 0 <= i < |s| ==> NameChar(s[i])
    ensures Lower(s) == s
  {
    NamesAreLower(s);
    hide NameChar;
    LowerTextIsLower(s);
  }

  lemma NamesAreLower(s: string)
    requires forall i :: 0 <= i < |s| ==> NameChar(s[i])
    ensures IsLowerText(s) && IsAuthority(s) && forall i :: 0 <= i < |s| ==> s[i] != ':'
  {
  }

  lemma SimpleNameIsPlain(d: string)
    requires SimpleName(d)
    ensures PlainName(d) && NormalizeHost(d) == d
  {
    NamesAreLower(d);
    hide NameChar, Trim, Lower, StripPort;
    LowerTextIsLower(d);
    OrdinaryEnds(d);
    NoPort(d);
  }

  /** The trade app answers its development port and every "trade." host, except on the marketing app's port. */
  predicate TradeAnswers(host: string) {
    PortOf(host) == ":3101" || ("trade." <= host && PortOf(host) != ":3000")
  }

  const TRADE_DEV: Authority := "localhost:3101"
  const WEB_DEV: Authority := "localhost:3000"

  /** Default label, no overrides, the default development ports. */
  function Deployment(domains: seq<string>, enabled: set<string>, urlFollows: bool): System {
    System(Site(domains, None, map[], enabled, TRADE_DEV, WEB_DEV), urlFollows, TradeAnswers)
  }

  lemma FourDigitPort(name: string, port: string)
    requires port == ":3101" || port == ":3000"
    ensures StripPort(name + port) == name && PortOf(name + port) == port
  {
    var s := name + port;
    assert s[|name|] == ':' && forall i :: |name| < i < |s| ==> s[i] == port[i - |name|] && IsDigit(s[i]);
    DigitsStartIs(s, |s|, |name| + 1);
    assert s[..|name|] == name && s[|name|..] == port;
  }

  lemma PortIsKept(origin: Authority, name: string, port: string)
    requires (port == ":3101" || port == ":3000") && origin == "localhost" + port
    ensures PortOf(WithHostname(origin, name)) == port
  {
    var read := name[..AuthorityEnd(name, 0)];
    FourDigitPort("localhost", port);
    FourDigitPort(read, port);
    hide AuthorityEnd, StripPort, Settable, PortOf;
  }

  lemma DevelopmentPorts()
    ensures TRADE_DEV == "localhost" + ":3101" && WEB_DEV == "localhost" + ":3000"
    ensures !("trade." <= WEB_DEV)
  {
    assert WEB_DEV[0] == 'l' && "trade."[0] == 't';
  }

  lemma AnswersByPort(host: string)
    ensures PortOf(host) == ":3101" ==> TradeAnswers(host)
    ensures PortOf(host) == ":3000" ==> !TradeAnswers(host)
  {
    assert ":3000"[1..] != ":3101"[1..] by { assert ":3000"[2] != ":3101"[2]; }
    hide PortOf;
  }

  /** Whatever name they are asked under, the development origins keep their port. */
  lemma DevelopmentOrigins(name: string)
    ensures TradeAnswers(WithHostname(TRADE_DEV, name)) && !TradeAnswers(WithHostname(WEB_DEV, name))
  {
    hide *;
    DevelopmentPorts();
    PortIsKept(TRADE_DEV, name, ":3101");
    PortIsKept(WEB_DEV, name, ":3000");
    AnswersByPort(WithHostname(TRADE_DEV, name));
    AnswersByPort(WithHostname(WEB_DEV, name));
  }

  /** An apex is answered by the marketing app on any port but the trade app's. */
  lemma ApexIsAnsweredByWeb(host: Authority, d: string)
    requires SimpleName(d) && !TradeAnswers(host)
    ensures !TradeAnswers(WithHostname(host, d))
  {
    SimpleNameIsPlain(d);
    hide PlainName, NormalizeHost, Settable, Trim, Lower, StripPort, SimpleName, WithHostname, PortOf;
    PlainIsSettable(d);
    StripWithHostname(host, d);
    PortOfShape(host);
    NoTradeLabel(d, PortOf(host));
  }

  lemma PlainIsSettable(d: string)
    requires PlainName(d)
    ensures Settable(d)
  {
  }

  lemma PortOfShape(host: string)
    ensures PortOf(host) == "" || PortOf(host)[0] == ':'
    ensures '.' !in PortOf(host)
  {
    DigitsFromStart(host, |host|);
    var port := PortOf(host);
    assert forall i :: 0 < i < |port| ==> port[i] == host[|StripPort(host)| + i];
  }

  lemma NoTradeLabel(d: string, port: string)
    requires SimpleName(d) && '.' !in port && (port == "" || port[0] == ':')
    ensures !("trade." <= d + port)
  {
    var s := d + port;
    assert |d| < 6 <= |s| ==> s[5] == port[5 - |d|] && port[5 - |d|] in port;
    assert |d| >= 6 ==> s[..6] == d[..6];
    assert "trade."[5] == '.';
  }

  lemma DeploymentSite(domains: seq<string>, enabled: set<string>, urlFollows: bool)
    requires domains != [] && forall d :: d in domains ==> SimpleName(d)
    ensures WellFormedSite(Deployment(domains, enabled, urlFollows).site)
  {
    var site := Deployment(domains, enabled, urlFollows).site;
    TrimmedEnds("trade");
    LowerKeeps("trade");
    assert TradeLabel(site) == RegistryLabel(site) == "trade";
    assert ("trade" + ".")[0] == 't';
    forall d | d in domains ensures PlainName(d) && NormalizeHost(d) == d && TradeHostOf(site, d) !in domains {
      SimpleNameIsPlain(d);
      assert "trade." <= TradeHostOf(site, d);
    }
    DefaultTradeHostsAreWellFormed(site);
  }

  lemma DevelopmentOriginsThemselves()
    ensures TradeAnswers(TRADE_DEV) && !TradeAnswers(WEB_DEV)
  {
    hide *;
    DevelopmentPorts();
    FourDigitPort("localhost", ":3101");
    FourDigitPort("localhost", ":3000");
    AnswersByPort(TRADE_DEV);
    AnswersByPort(WEB_DEV);
  }

  lemma SimpleNameIsWeb(d: string)
    requires SimpleName(d)
    ensures !TradeAnswers(d)
  {
    SimpleNameIsPlain(d);
    hide NormalizeHost, Trim, Lower;
  }

  /** Whatever simple domains are configured and whichever of them trade, the deployment is well formed. */
  lemma DeploymentIsWellFormed(domains: seq<string>, enabled: set<string>, urlFollows: bool)
    requires domains != [] && forall d :: d in domains ==> SimpleName(d)
    ensures WellFormed(Deployment(domains, enabled, urlFollows))
  {
    hide TradeAnswers, SimpleName, WithHostname, WellFormedSite;
    DeploymentSite(domains, enabled, urlFollows);
    forall h: Authority, d {:trigger WithHostname(h, d)} | d in domains && !TradeAnswers(h)
      ensures !TradeAnswers(WithHostname(h, d))
    {
      ApexIsAnsweredByWeb(h, d);
    }
    SimpleNameIsWeb(domains[0]);
    forall name ensures TradeAnswers(WithHostname(TRADE_DEV, name)) && !TradeAnswers(WithHostname(WEB_DEV, name))
    {
      DevelopmentOrigins(name);
    }
    DevelopmentOriginsThemselves();
  }

  /** For the two brands of the repository every request settles. */
  lemma TwoBrandsSettle(enabled: set<string>, urlFollows: bool, loggedIn: string -> bool, v: Visit)
    requires CleanPath(v.path)
    ensures Settles(Deployment(["blackforrestt.com", "gbfxs.com"], enabled, urlFollows), loggedIn, v, ChainBound(v))
  {
    var domains := ["blackforrestt.com", "gbfxs.com"];
    var a, b := "blackforrestt.com", "gbfxs.com";
    assert SimpleName(a) && SimpleName(b);
    DeploymentIsWellFormed(domains, enabled, urlFollows);
    EveryRequestSettles(Deployment(domains, enabled, urlFollows), loggedIn, v);
  }

  predicate PageHead(c: char, d: char) {
    || (c == 'a' && d in {'b', 'n'}) || (c == 'c' && d == 'o') || (c == 't' && d == 'o')
    || (c == 'e' && d == 'd') || (c == 'l' && d == 'e')
  }

  lemma PageHeads(path: string, p: string)
    requires p in MARKETING_DOMAIN_PREFIXES && Under(path, p)
    ensures |path| >= 3 && PageHead(path[1], path[2]) && !IsApi(path)
  {
    assert |p| >= 3 && PageHead(p[1], p[2]) && p[2] != 'p';
    assert p <= path;
    assert "/api/"[2] == 'p';
  }

  lemma StaticHead(path: string, p: string)
    requires p in STATIC_ASSETS && p <= path
    ensures |path| >= 3 && !PageHead(path[1], path[2])
  {
    assert |p| >= 3 && !PageHead(p[1], p[2]);
  }

  lemma MarketingPageIsNoAsset(path: string)
    requires IsMarketingPath(path)
    ensures !IsStatic(path) && !IsApi(path)
  {
    if path != "/" {
      var p :| p in MARKETING_DOMAIN_PREFIXES && Under(path, p);
      PageHeads(path, p);
    }
    if IsStatic(path) {
      var p :| p in STATIC_ASSETS && p <= path;
      StaticHead(path, p);
    }
  }

  /** Every marketing page of every apex is a public page. */
  lemma MarketingPagesArePublic(site: Site, d: string, path: string)
    requires WellFormedSite(site) && d in site.domains && IsMarketingPath(path)
    ensures RequestHost(site, d) == d && PublicPage(site, d, path)
  {
    MarketingPageIsNoAsset(path);
    FamiliesDisjoint(path);
    ApexIsTrusted(site, d);
    ApexIsNoTradeHost(site, d);
  }

  /** `PublicPageSettles` covers every marketing page of every apex. */
  lemma MarketingPagesAreCovered(s: Setting, jar: Jar)
    requires WellFormedSite(s.site) && s.host in s.site.domains && IsMarketingPath(s.core) && CleanPath(s.core)
    requires JarOk(jar) && s.Arranges()
    ensures s.Ok(jar)
  {
    MarketingPagesArePublic(s.site, s.host, s.core);
  }
}
