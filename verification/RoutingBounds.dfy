/** How many hops decide whether host routing of trade paths, signing in included, comes to rest. */
module RoutingBounds {
  import opened Basics
  import opened Strings
  import opened Registry
  import opened WebMiddleware
  import opened PathFamilies
  import opened RoutingChain
  import opened RoutingTheorems
  import opened HostFacts

  // ---------------------------------------------------------------- a closed list of hosts

  predicate Closed(next: Authority -> Option<Authority>, hosts: seq<Authority>) {
    forall h :: h in hosts && next(h).Some? ==> next(h).value in hosts
  }

  predicate RestsExactly(next: Authority -> Option<Authority>, host: Authority, n: nat) {
    Rests(next, host, n) && (n > 0 ==> !Rests(next, host, n - 1))
  }

  lemma {:induction false} ExactRest(next: Authority -> Option<Authority>, host: Authority, n: nat) returns (m: nat)
    requires Rests(next, host, n)
    ensures m <= n && RestsExactly(next, host, m)
  {
    m := n;
    if n > 0 && Rests(next, host, n - 1) {
      m := ExactRest(next, host, n - 1);
    }
  }

  /** On the way to rest every smaller hop count is taken by some host of the list. */
  lemma {:induction false} HostAt(next: Authority -> Option<Authority>, hosts: seq<Authority>, host: Authority, n: nat,
                                  k: nat) returns (e: Authority)
    requires Closed(next, hosts) && host in hosts && RestsExactly(next, host, n) && k <= n
    ensures e in hosts && RestsExactly(next, e, k)
    decreases n
  {
    if k == n {
      e := host;
    } else {
      e := HostAt(next, hosts, next(host).value, n - 1, k);
    }
  }

  ghost function RestingIn(next: Authority -> Option<Authority>, hosts: seq<Authority>, k: nat): set<Authority> {
    set h | h in hosts && Rests(next, h, k)
  }

  lemma OneMore<T>(a: set<T>, b: set<T>, e: T)
    requires a <= b && e in b && e !in a
    ensures |a| < |b|
  {
    assert b == a + (b - a) && e in b - a;
  }

  lemma {:induction false} RestingGrow(next: Authority -> Option<Authority>, hosts: seq<Authority>, host: Authority,
                                       n: nat, k: nat)
    requires Closed(next, hosts) && host in hosts && RestsExactly(next, host, n) && k <= n
    ensures |RestingIn(next, hosts, k)| > k
    decreases k
  {
    var e := HostAt(next, hosts, host, n, k);
    assert e in RestingIn(next, hosts, k);
    if k == 0 {
      OneMore({}, RestingIn(next, hosts, 0), e);
    } else {
      RestingGrow(next, hosts, host, n, k - 1);
      forall h | h in RestingIn(next, hosts, k - 1) ensures h in RestingIn(next, hosts, k) {
        RestsLonger(next, h, k - 1);
      }
      OneMore(RestingIn(next, hosts, k - 1), RestingIn(next, hosts, k), e);
    }
  }

  lemma {:induction false} FewerThanListed<T>(s: set<T>, list: seq<T>)
    requires forall e :: e in s ==> e in list
    ensures |s| <= |list|
    decreases |list|
  {
    if list != [] {
      FewerThanListed(s - {list[0]}, list[1..]);
    } else {
      assert s == {};
    }
  }

  /** Inside a closed list of hosts, as many hops as it is long decide whether a host comes to rest. */
  lemma RestsWithinList(next: Authority -> Option<Authority>, hosts: seq<Authority>, host: Authority)
    requires Closed(next, hosts) && host in hosts
    ensures RestsEventually(next, host) <==> Rests(next, host, |hosts|)
  {
    if n: nat :| Rests(next, host, n) {
      var m := ExactRest(next, host, n);
      RestingGrow(next, hosts, host, m, m);
      FewerThanListed(RestingIn(next, hosts, m), hosts);
      RestsWithin(next, host, m, |hosts|);
    }
  }

  // ---------------------------------------------------------------- the hosts of a deployment

  /** Apexes and trade hosts are plain names, and none of them is a development host. */
  ghost predicate Routable(site: Site) {
    && site.domains != []
    && forall d :: d in site.domains ==>
         && PlainName(d) && NormalizeHost(d) == d && !IsLocalRoute(d)
         && PlainName(FamilyTradeHost(site, d)) && !IsLocalRoute(NormalizeHost(FamilyTradeHost(site, d)))
  }

  /** The trade hosts of the given families, on the port of an authority. */
  function TradeHosts(site: Site, families: seq<string>, port: Authority): (hosts: seq<Authority>)
    requires site.domains != []
    ensures |hosts| == |families|
  {
    if families == [] then []
    else
      [WithHostname(port, FamilyTradeHost(site, families[0]))] + TradeHosts(site, families[1..], port)
  }

  lemma {:induction false} TradeHostIn(site: Site, families: seq<string>, port: Authority, d: string)
    requires site.domains != [] && d in families
    ensures WithHostname(port, FamilyTradeHost(site, d)) in TradeHosts(site, families, port)
  {
    if families[0] != d {
      TradeHostIn(site, families[1..], port, d);
    }
  }

  lemma {:induction false} TradeHostFrom(site: Site, families: seq<string>, port: Authority, h: Authority)
    returns (d: string)
    requires site.domains != [] && h in TradeHosts(site, families, port)
    ensures d in families && h == WithHostname(port, FamilyTradeHost(site, d))
  {
    if h == WithHostname(port, FamilyTradeHost(site, families[0])) {
      d := families[0];
    } else {
      d := TradeHostFrom(site, families[1..], port, h);
    }
  }

  /** Every host that routing of trade paths can lead to from `host`. */
  function Destinations(site: Site, host: Authority): (hosts: seq<Authority>)
    requires site.domains != []
    ensures |hosts| == 2 * |site.domains|
  {
    TradeHosts(site, site.domains, PublicOrigin(site, host))
    + TradeHosts(site, site.domains, UrlAuthority(site.domains[0]))
  }

  lemma TradeHop(sys: System, host: Authority)
    requires Hop(sys, host, "/login").Some? && sys.site.domains != []
    requires !IsLocalRoute(NormalizeHost(RequestHost(sys.site, host)))
    ensures var route := NormalizeHost(RequestHost(sys.site, host));
      && route in sys.site.domains && !sys.servedByTrade(host)
      && Hop(sys, host, "/login").value == WithHostname(PublicOrigin(sys.site, host), FamilyTradeHost(sys.site, route))
  {
    AuthPagesAreTradePaths();
    FamiliesDisjoint("/login");
  }

  /** A trade host keeps the port, or is replaced by the canonical apex. */
  lemma DestinationOrigin(site: Site, port: Authority, d: string)
    requires Routable(site) && d in site.domains
    ensures var h := WithHostname(port, FamilyTradeHost(site, d));
      && !IsLocalRoute(NormalizeHost(RequestHost(site, h)))
      && (PublicOrigin(site, h) == h || PublicOrigin(site, h) == UrlAuthority(site.domains[0]))
      && PortOf(h) == PortOf(port)
  {
    PlainWithPort(site, port, FamilyTradeHost(site, d));
    StripWithHostname(port, FamilyTradeHost(site, d));
  }

  lemma SamePortSameHost(a: Authority, b: Authority, name: string)
    requires PortOf(a) == PortOf(b) && Settable(name)
    ensures WithHostname(a, name) == WithHostname(b, name)
  {
  }

  lemma NextIsDestination(sys: System, port: Authority, d: string)
    requires Routable(sys.site) && d in sys.site.domains
    requires var h := WithHostname(port, FamilyTradeHost(sys.site, d)); Hop(sys, h, "/login").Some?
    ensures var next := Hop(sys, WithHostname(port, FamilyTradeHost(sys.site, d)), "/login").value;
      || next in TradeHosts(sys.site, sys.site.domains, port)
      || next in TradeHosts(sys.site, sys.site.domains, UrlAuthority(sys.site.domains[0]))
  {
    var h := WithHostname(port, FamilyTradeHost(sys.site, d));
    DestinationOrigin(sys.site, port, d);
    hide WithHostname, FamilyTradeHost, NormalizeHost, RequestHost, PublicOrigin, UrlAuthority, Hop, IsLocalRoute;
    hide PlainName, TradeHosts;
    TradeHop(sys, h);
    var route := NormalizeHost(RequestHost(sys.site, h));
    SettableTradeHost(sys.site, route);
    TradeHostIn(sys.site, sys.site.domains, port, route);
    TradeHostIn(sys.site, sys.site.domains, UrlAuthority(sys.site.domains[0]), route);
    if PublicOrigin(sys.site, h) == h {
      SamePortSameHost(h, port, FamilyTradeHost(sys.site, route));
    }
  }

  lemma SettableTradeHost(site: Site, d: string)
    requires Routable(site) && d in site.domains
    ensures Settable(FamilyTradeHost(site, d))
  {
  }

  lemma DestinationsAreClosed(sys: System, host: Authority)
    requires Routable(sys.site)
    ensures Closed(Router(sys, "/login"), Destinations(sys.site, host))
  {
    assert sys.site.domains != [];
    hide WithHostname, FamilyTradeHost, PublicOrigin, UrlAuthority, Hop, Routable, TradeHosts;
    var site := sys.site;
    var o, c := PublicOrigin(site, host), UrlAuthority(site.domains[0]);
    forall h | h in Destinations(site, host) && Router(sys, "/login")(h).Some?
      ensures Router(sys, "/login")(h).value in Destinations(site, host)
    {
      var port := if h in TradeHosts(site, site.domains, o) then o else c;
      var d := TradeHostFrom(site, site.domains, port, h);
      NextIsDestination(sys, port, d);
    }
  }

  /** Whether a host outside development comes to rest with its sign-in page is decided within twice as many hops as
      there are apexes, and one. */
  lemma SignInRestsIff(sys: System, host: Authority)
    requires Routable(sys.site) && !IsLocalRoute(NormalizeHost(RequestHost(sys.site, host)))
    ensures PathRests(sys, host, "/login") <==> Escapes(sys, host, "/login", 2 * |sys.site.domains| + 1)
  {
    var next := Router(sys, "/login");
    var hosts := Destinations(sys.site, host);
    if next(host).Some? {
      TradeHop(sys, host);
      TradeHostIn(sys.site, sys.site.domains, PublicOrigin(sys.site, host),
                  NormalizeHost(RequestHost(sys.site, host)));
      DestinationsAreClosed(sys, host);
      RestsWithinList(next, hosts, next(host).value);
      if n: nat :| Rests(next, host, n) {
        assert Rests(next, next(host).value, n - 1);
      }
    } else {
      assert Rests(next, host, 0);
    }
  }

  /** So is whether a visit to any page of the trade families settles. */
  lemma TradeVisitSettlesIff(sys: System, loggedIn: string -> bool, v: Visit)
    requires Configured(sys) && CleanPath(v.path) && IsTradePath(v.path)
    requires Routable(sys.site) && !IsLocalRoute(NormalizeHost(RequestHost(sys.site, v.host)))
    ensures SettlesEventually(sys, loggedIn, v) <==> Escapes(sys, v.host, v.path, 2 * |sys.site.domains| + 1)
  {
    FamiliesDisjoint(v.path);
    SettlesIffHostRoutingRests(sys, loggedIn, v);
    TradePathRestsAlike(sys, v.host, v.path);
    SignInRestsIff(sys, v.host);
    TradeEscapesAlike(sys, v.host, v.path, 2 * |sys.site.domains| + 1);
  }
}
