/** When request chains settle, and what a redirect preserves. */
module RoutingTheorems {
  import opened Basics
  import opened Strings
  import opened Registry
  import opened WebMiddleware
  import opened TradeMiddleware
  import opened PathFamilies
  import opened RoutingChain
  import opened HostFacts

  // ---------------------------------------------------------------- settling, exactly

  lemma BounceIsForced(sys: System, loggedIn: string -> bool, v: Visit)
    requires CleanPath(v.path) && !HasLocale(v.path) && Hop(sys, v.host, v.path).Some?
    ensures Step(sys, loggedIn, v, None, true)
      == Go(Visit(Hop(sys, v.host, v.path).value, v.path, v.query, false))
  {
    hide DomainRedirect, TradeRedirect, DomainBounce;
    CleanRouted(sys.urlFollows, v.path);
    PlainBounce(sys.site, v.host, v.path, v.query);
  }

  lemma {:induction false} SettlingRests(sys: System, loggedIn: string -> bool, v: Visit, k: nat)
    requires CleanPath(v.path) && !HasLocale(v.path) && Settles(sys, loggedIn, v, k)
    ensures Escapes(sys, v.host, v.path, k)
    decreases k
  {
    if Hop(sys, v.host, v.path).Some? {
      BounceIsForced(sys, loggedIn, v);
      SettlingRests(sys, loggedIn, Step(sys, loggedIn, v, None, true).next, k - 1);
    }
  }

  /** Once host routing rests, for the page and for signing in if the page may ask for that, the number of locale
      segments and of host hops bounds the whole chain. */
  lemma RestingSettles(sys: System, loggedIn: string -> bool, v: Visit, n: nat)
    requires Configured(sys) && CleanPath(v.path) && Escapes(sys, v.host, Core(v.path), n)
    requires NeedsSignIn(Core(v.path)) ==> Escapes(sys, v.host, "/login", n)
    ensures Settles(sys, loggedIn, v, Locales(v.path) + 12 * n + 11)
  {
    var stage := Stage(sys, loggedIn, v.host, Core(v.path));
    WeightMonotone(stage, 3, n);
    assert Weight(3, n) == 3 * n + 3 + Weight(2, n) == 6 * n + 6 + Weight(1, n) == 9 * n + 9;
    PaidSettles(sys, loggedIn, v, n, Locales(v.path) + 12 * n + 11);
  }

  ghost predicate SettlesEventually(sys: System, loggedIn: string -> bool, v: Visit) {
    exists k: nat :: Settles(sys, loggedIn, v, k)
  }

  ghost predicate RestsEventually(next: Authority -> Option<Authority>, host: Authority) {
    exists n: nat :: Rests(next, host, n)
  }

  ghost predicate PathRests(sys: System, host: Authority, path: string) {
    RestsEventually(Router(sys, path), host)
  }

  lemma RestingSettlesEventually(sys: System, loggedIn: string -> bool, v: Visit)
    requires Configured(sys) && CleanPath(v.path) && PathRests(sys, v.host, Core(v.path))
    requires NeedsSignIn(Core(v.path)) ==> PathRests(sys, v.host, "/login")
    ensures SettlesEventually(sys, loggedIn, v)
  {
    hide Rests, Router, NeedsSignIn, Configured, CleanPath, Core, Settles;
    var n: nat :| Rests(Router(sys, Core(v.path)), v.host, n);
    var m: nat := 0;
    if NeedsSignIn(Core(v.path)) {
      m :| Rests(Router(sys, "/login"), v.host, m);
      RestsWithin(Router(sys, "/login"), v.host, m, n + m);
    }
    RestsWithin(Router(sys, Core(v.path)), v.host, n, n + m);
    RestingSettles(sys, loggedIn, v, n + m);
  }

  lemma SettlingRestsEventually(sys: System, loggedIn: string -> bool, v: Visit)
    requires CleanPath(v.path) && !HasLocale(v.path) && SettlesEventually(sys, loggedIn, v)
    ensures PathRests(sys, v.host, v.path)
  {
    var k: nat :| Settles(sys, loggedIn, v, k);
    SettlingRests(sys, loggedIn, v, k);
  }

  lemma TradePathRestsAlike(sys: System, host: Authority, path: string)
    requires IsTradePath(path)
    ensures PathRests(sys, host, path) <==> PathRests(sys, host, "/login")
  {
    if n: nat :| Rests(Router(sys, path), host, n) {
      TradeEscapesAlike(sys, host, path, n);
    }
    if n: nat :| Rests(Router(sys, "/login"), host, n) {
      TradeEscapesAlike(sys, host, path, n);
    }
  }

  /** A protected page outside the trade families, such as "/tradex": no host routing moves it. */
  predicate Unrouted(path: string) {
    StartsWithAny(path, PROTECTED_PAGES) && !IsTradePath(path)
  }

  /** An unprefixed URL of any other kind settles exactly when host routing of its path comes to rest. */
  lemma SettlesIffHostRoutingRests(sys: System, loggedIn: string -> bool, v: Visit)
    requires Configured(sys) && CleanPath(v.path) && !HasLocale(v.path) && !Unrouted(v.path)
    ensures SettlesEventually(sys, loggedIn, v) <==> PathRests(sys, v.host, v.path)
  {
    if SettlesEventually(sys, loggedIn, v) {
      SettlingRestsEventually(sys, loggedIn, v);
    }
    if PathRests(sys, v.host, v.path) {
      if NeedsSignIn(v.path) {
        AuthPagesAreTradePaths();
        TradePathRestsAlike(sys, v.host, v.path);
      }
      RestingSettlesEventually(sys, loggedIn, v);
    }
  }

  // ---------------------------------------------------------------- protected pages outside the families

  lemma UnroutedStays(sys: System, host: Authority, path: string)
    requires Unrouted(path)
    ensures Hop(sys, host, path).None? && Rests(Router(sys, path), host, 0)
  {
    FamiliesDisjoint(path);
    hide NormalizeHost, RequestHost, PublicOrigin, IsLocalRoute, MarketingOrigin, TradeBounces, IsTradePath;
    hide IsMarketingPath;
  }

  lemma SignInRestsAlike(sys: System, host: Authority)
    requires Configured(sys) && !sys.servedByTrade(host)
    ensures !sys.servedByTrade(PublicOrigin(sys.site, host))
    ensures PathRests(sys, PublicOrigin(sys.site, host), "/login") <==> PathRests(sys, host, "/login")
  {
    var r := PublicOrigin(sys.site, host);
    RoutedAlike(sys, host, "/login");
    if n: nat :| Rests(Router(sys, "/login"), host, n) {
      CanonicalStage(sys, _ => false, host, "/login", n);
      assert Escapes(sys, r, "/login", n);
    }
    if n: nat :| Rests(Router(sys, "/login"), r, n) {
      CanonicalStage(sys, _ => false, host, "/login", n);
      assert Escapes(sys, host, "/login", n);
    }
  }

  lemma SignInNeverSettles(sys: System, loggedIn: string -> bool, host: Authority, query: string, k: nat)
    requires Configured(sys) && !PathRests(sys, host, "/login")
    ensures !Settles(sys, loggedIn, Visit(host, "/login", query, false), k)
  {
    AuthPagesAreTradePaths();
    AuthTargetsClean();
    if Settles(sys, loggedIn, Visit(host, "/login", query, false), k) {
      SettlingRests(sys, loggedIn, Visit(host, "/login", query, false), k);
    }
  }

  predicate ProtectedLead(c: char, d: char) {
    (c == 't' && d == 'r') || (c == 'a' && d == 'c') || (c == 'r' && d == 'e')
  }

  lemma ProtectedLeads(path: string, p: string)
    requires p in PROTECTED_PAGES && p <= path
    ensures |path| >= 3 && ProtectedLead(path[1], path[2])
  {
    assert |p| >= 3 && ProtectedLead(p[1], p[2]);
  }

  lemma AssetLeads(path: string, q: string)
    requires q in STATIC_ASSETS + PROTECTED_APIS && q <= path
    ensures |path| >= 3 && !ProtectedLead(path[1], path[2])
  {
    assert |q| >= 3 && !ProtectedLead(q[1], q[2]);
  }

  lemma ProtectedIsPage(path: string)
    requires StartsWithAny(path, PROTECTED_PAGES)
    ensures !IsApi(path) && !IsStatic(path) && !StartsWithAny(path, PROTECTED_APIS)
    ensures IsTradePath(path) || !GuestOnly(path)
  {
    AuthPagesAreTradePaths();
    var p :| p in PROTECTED_PAGES && p <= path;
    ProtectedLeads(path, p);
    if IsStatic(path) {
      var q :| q in STATIC_ASSETS && q <= path;
      AssetLeads(path, q);
    }
    if StartsWithAny(path, PROTECTED_APIS) {
      var q :| q in PROTECTED_APIS && q <= path;
      AssetLeads(path, q);
    }
    assert "/api/"[1] == 'a' && "/api/"[2] == 'p';
  }

  /** Where a locale cookie may move the visit to, the visitor is signed in as well. */
  predicate SignedInThroughout(sys: System, loggedIn: string -> bool, v: Visit) {
    && loggedIn(v.host)
    && (v.resolved || OnTradeHost(sys.site, v.host) || loggedIn(PublicOrigin(sys.site, v.host)))
  }

  /** One run of the marketing app's middleware on an unrouted page. */
  lemma UnroutedStep(sys: System, loggedIn: string -> bool, v: Visit, cookie: Option<string>, originAllowed: bool)
    requires CleanPath(v.path) && !HasLocale(v.path) && Unrouted(v.path) && !sys.servedByTrade(v.host)
    ensures Step(sys, loggedIn, v, cookie, originAllowed)
      == var r := PublicOrigin(sys.site, v.host);
         if cookie.Some? && cookie.value in LOCALES && cookie.value != DEFAULT_LOCALE
            && !OnTradeHost(sys.site, v.host) && !v.resolved
         then Go(Visit(r, "/" + cookie.value + v.path, v.query, false))
         else if loggedIn(v.host) then Settled
         else Go(Visit(r, "/login", CallbackQuery(v.path, v.query), false))
  {
    UnroutedStays(sys, v.host, v.path);
    ProtectedIsPage(v.path);
    AuthTargetsClean();
    hide DomainRedirect, PublicOrigin, StartsWithAny, CleanPath, HasLocale, IsTradePath, OnTradeHost, IsApi;
    hide DomainBounce;
    var req := Request(v.host, v.path, v.query, cookie, v.resolved, loggedIn(v.host), originAllowed);
    UnprefixedMoves(sys.site, sys.urlFollows, req);
    CleanResolves("/login", CallbackQuery(v.path, v.query), PublicOrigin(sys.site, v.host));
  }

  lemma NoFamilyStays(site: Site, raw: string, path: string)
    requires !IsTradePath(path) && !IsMarketingPath(path)
    ensures DomainRedirect(site, raw, path).None?
  {
    hide NormalizeHost, RequestHost, PublicOrigin, IsLocalRoute, IsTradePath, IsMarketingPath;
  }

  /** Its prefixed form is rewritten to it. */
  lemma PrefixedUnroutedStep(sys: System, loggedIn: string -> bool, r: Authority, locale: string, path: string,
                             query: string, cookie: Option<string>, originAllowed: bool)
    requires CleanPath(path) && Unrouted(path) && !sys.servedByTrade(r)
    requires locale in LOCALES && locale != DEFAULT_LOCALE
    ensures Step(sys, loggedIn, Visit(r, "/" + locale + path, query, false), cookie, originAllowed)
      == Go(Visit(r, path, query, true))
  {
    var v := Visit(r, "/" + locale + path, query, false);
    PrefixThenStrip(locale, path);
    FamiliesDisjoint(v.path);
    FamiliesDisjoint(path);
    NoFamilyStays(sys.site, r, v.path);
    NoFamilyStays(sys.site, r, path);
    hide DomainRedirect, PublicOrigin, CleanPath, HasLocale, StripLocale, LocaleOf, Unrouted, AuthHandler, IsTradePath;
    LocaleMoves(sys.site, sys.urlFollows,
                Request(r, v.path, query, cookie, false, loggedIn(r), originAllowed));
  }

  lemma SignedInSettles(sys: System, loggedIn: string -> bool, v: Visit)
    requires Configured(sys) && CleanPath(v.path) && !HasLocale(v.path) && Unrouted(v.path)
    requires !sys.servedByTrade(v.host)
    requires SignedInThroughout(sys, loggedIn, v)
    ensures Settles(sys, loggedIn, v, 2)
  {
    hide Step, CleanPath, HasLocale, Unrouted, PublicOrigin, OnTradeHost, Configured;
    var r := PublicOrigin(sys.site, v.host);
    SignInRestsAlike(sys, v.host);
    forall cookie, originAllowed
      ensures var o := Step(sys, loggedIn, v, cookie, originAllowed); o.Go? ==> Settles(sys, loggedIn, o.next, 1)
    {
      UnroutedStep(sys, loggedIn, v, cookie, originAllowed);
      var o := Step(sys, loggedIn, v, cookie, originAllowed);
      if o.Go? {
        LocalisedUnroutedSettles(sys, loggedIn, r, cookie.value, v.path, v.query);
      }
    }
  }

  lemma LocalisedUnroutedSettles(sys: System, loggedIn: string -> bool, r: Authority, locale: string, path: string,
                                 query: string)
    requires CleanPath(path) && !HasLocale(path) && Unrouted(path) && !sys.servedByTrade(r) && loggedIn(r)
    requires locale in LOCALES && locale != DEFAULT_LOCALE
    ensures Settles(sys, loggedIn, Visit(r, "/" + locale + path, query, false), 1)
  {
    hide Step, CleanPath, HasLocale, Unrouted, PublicOrigin, OnTradeHost;
    var inner := Visit(r, path, query, true);
    forall cookie, originAllowed ensures Step(sys, loggedIn, inner, cookie, originAllowed).Settled? {
      UnroutedStep(sys, loggedIn, inner, cookie, originAllowed);
    }
    assert Settles(sys, loggedIn, inner, 0);
    forall cookie, originAllowed
      ensures Step(sys, loggedIn, Visit(r, "/" + locale + path, query, false), cookie, originAllowed) == Go(inner)
    {
      PrefixedUnroutedStep(sys, loggedIn, r, locale, path, query, cookie, originAllowed);
    }
  }

  /** A settling visit's next visit settles. */
  lemma SettlesNext(sys: System, loggedIn: string -> bool, v: Visit, cookie: Option<string>, k: nat)
    requires Settles(sys, loggedIn, v, k) && Step(sys, loggedIn, v, cookie, true).Go?
    ensures k > 0 && Settles(sys, loggedIn, Step(sys, loggedIn, v, cookie, true).next, k - 1)
  {
    hide Step;
  }

  lemma UnsignedNeverSettles(sys: System, loggedIn: string -> bool, v: Visit, k: nat)
    requires Configured(sys) && CleanPath(v.path) && !HasLocale(v.path) && Unrouted(v.path)
    requires !sys.servedByTrade(v.host) && !loggedIn(v.host) && !PathRests(sys, v.host, "/login")
    ensures !Settles(sys, loggedIn, v, k)
  {
    hide Step, CleanPath, HasLocale, Unrouted, PublicOrigin, OnTradeHost, Configured, PathRests, CallbackQuery;
    if Settles(sys, loggedIn, v, k) {
      UnroutedStep(sys, loggedIn, v, None, true);
      SettlesNext(sys, loggedIn, v, None, k);
      SignInRestsAlike(sys, v.host);
      SignInNeverSettles(sys, loggedIn, PublicOrigin(sys.site, v.host), CallbackQuery(v.path, v.query), k - 1);
    }
  }

  lemma MovedNeverSettles(sys: System, loggedIn: string -> bool, v: Visit, k: nat)
    requires Configured(sys) && CleanPath(v.path) && !HasLocale(v.path) && Unrouted(v.path)
    requires !sys.servedByTrade(v.host) && !PathRests(sys, v.host, "/login")
    requires !v.resolved && !OnTradeHost(sys.site, v.host) && !loggedIn(PublicOrigin(sys.site, v.host))
    ensures !Settles(sys, loggedIn, v, k)
  {
    hide Step, CleanPath, HasLocale, Unrouted, PublicOrigin, OnTradeHost, Configured, PathRests;
    if Settles(sys, loggedIn, v, k) {
      var r := PublicOrigin(sys.site, v.host);
      var w := Visit(r, "/" + "fr" + v.path, v.query, false);
      assert "fr" in LOCALES && "fr" != DEFAULT_LOCALE;
      SignInRestsAlike(sys, v.host);
      UnroutedStep(sys, loggedIn, v, Some("fr"), true);
      SettlesNext(sys, loggedIn, v, Some("fr"), k);
      PrefixedUnroutedStep(sys, loggedIn, r, "fr", v.path, v.query, None, true);
      SettlesNext(sys, loggedIn, w, None, k - 1);
      UnsignedNeverSettles(sys, loggedIn, Visit(r, v.path, v.query, true), k - 2);
    }
  }

  /** Such a page settles exactly when the trade app serves it, or the sign-in page can be reached, or it need not
      be. */
  lemma UnroutedSettlesIff(sys: System, loggedIn: string -> bool, v: Visit)
    requires Configured(sys) && CleanPath(v.path) && !HasLocale(v.path) && Unrouted(v.path)
    ensures SettlesEventually(sys, loggedIn, v) <==>
      sys.servedByTrade(v.host) || PathRests(sys, v.host, "/login") || SignedInThroughout(sys, loggedIn, v)
  {
    UnroutedStays(sys, v.host, v.path);
    assert PathRests(sys, v.host, v.path);
    hide Hop, CleanPath, PublicOrigin, OnTradeHost, Configured, Rests, Router;
    if sys.servedByTrade(v.host) {
      ServedByTradeSettles(sys, loggedIn, v);
    } else if PathRests(sys, v.host, "/login") {
      RestingSettlesEventually(sys, loggedIn, v);
    } else if SignedInThroughout(sys, loggedIn, v) {
      SignedInSettles(sys, loggedIn, v);
    } else if k: nat :| Settles(sys, loggedIn, v, k) {
      if !loggedIn(v.host) {
        UnsignedNeverSettles(sys, loggedIn, v, k);
      } else {
        MovedNeverSettles(sys, loggedIn, v, k);
      }
    }
  }

  lemma ServedByTradeSettles(sys: System, loggedIn: string -> bool, v: Visit)
    requires Unrouted(v.path) && sys.servedByTrade(v.host)
    ensures Settles(sys, loggedIn, v, 0)
  {
    FamiliesDisjoint(v.path);
  }

  lemma SelfRoutedHop(sys: System, d: string)
    requires Configured(sys) && d in sys.site.domains && !sys.servedByTrade(d) && !IsLocalRoute(d)
    requires FamilyTradeHost(sys.site, d) == d
    ensures Hop(sys, d, "/login") == Some(d)
  {
    AuthPagesAreTradePaths();
    ApexIsTrusted(sys.site, d);
    assert WithHostname(d, d) == d;
  }

  /** A family routed to its own apex never serves its sign-in page. */
  lemma {:induction false} SelfRoutedNeverSettles(sys: System, loggedIn: string -> bool, v: Visit, k: nat)
    requires Configured(sys) && v.host in sys.site.domains && !sys.servedByTrade(v.host) && !IsLocalRoute(v.host)
    requires FamilyTradeHost(sys.site, v.host) == v.host && v.path == "/login"
    ensures !Settles(sys, loggedIn, v, k)
    decreases k
  {
    SelfRoutedHop(sys, v.host);
    AuthPagesAreTradePaths();
    AuthTargetsClean();
    BounceIsForced(sys, loggedIn, v);
    if k > 0 {
      SelfRoutedNeverSettles(sys, loggedIn, v.(resolved := false), k - 1);
    }
  }

  // ---------------------------------------------------------------- well-formed deployments

  /** Apexes are plain names, no trade host is an apex, and every family's trade host is a trusted non-apex. */
  ghost predicate WellFormedSite(site: Site) {
    && site.domains != []
    && (forall d :: d in site.domains ==> PlainName(d) && NormalizeHost(d) == d)
    && (forall d :: d in site.domains ==> TradeHostOf(site, d) !in site.domains)
    && (forall d :: d in site.domains ==>
          var f := FamilyTradeHost(site, d);
          PlainName(f) && HostIsTrusted(site, f) && NormalizeHost(f) !in site.domains)
  }

  /** The marketing app answers every apex on every port it answers at all; the development origins belong to
      their apps, whatever name they are asked under. */
  ghost predicate WellFormed(sys: System) {
    var site := sys.site;
    && WellFormedSite(site)
    && !sys.servedByTrade(site.domains[0])
    && (forall h: Authority, d {:trigger WithHostname(h, d)} ::
          d in site.domains && !sys.servedByTrade(h) ==> !sys.servedByTrade(WithHostname(h, d)))
    && (sys.servedByTrade(site.tradeDevOrigin) && !sys.servedByTrade(site.webDevOrigin))
    && (forall name {:trigger WithHostname(site.tradeDevOrigin, name)} ::
          sys.servedByTrade(WithHostname(site.tradeDevOrigin, name)))
    && (forall name {:trigger WithHostname(site.webDevOrigin, name)} ::
          !sys.servedByTrade(WithHostname(site.webDevOrigin, name)))
  }

  /** A marketing-app bounce of a trade path leads to the trade app or to a host that keeps the path. */
  lemma TradeBounceLands(sys: System, host: Authority, path: string)
    requires WellFormed(sys) && !sys.servedByTrade(host) && IsTradePath(path)
    requires DomainRedirect(sys.site, host, path).Some?
    ensures var next := DomainRedirect(sys.site, host, path).value;
      || sys.servedByTrade(next)
      || IsLocalRoute(NormalizeHost(RequestHost(sys.site, next)))
      || DomainRedirect(sys.site, next, path).None?
  {
    FamiliesDisjoint(path);
    var origin := PublicOrigin(sys.site, host);
    var route := NormalizeHost(RequestHost(sys.site, host));
    if !IsLocalRoute(route) {
      PlainWithPort(sys.site, origin, FamilyTradeHost(sys.site, route));
    }
  }

  lemma LocalBounceLands(sys: System, host: Authority)
    requires WellFormed(sys) && !sys.servedByTrade(host)
    requires IsLocalRoute(NormalizeHost(RequestHost(sys.site, host)))
    ensures Hop(sys, host, "/login").Some? && sys.servedByTrade(Hop(sys, host, "/login").value)
  {
    AuthPagesAreTradePaths();
  }

  lemma TradeAppKeepsTradePaths(site: Site, host: string, path: string)
    requires IsTradePath(path)
    ensures TradeRedirect(site, host, path).None?
  {
    FamiliesDisjoint(path);
  }

  lemma WellFormedSignInRests(sys: System, host: Authority)
    requires WellFormed(sys)
    ensures Escapes(sys, host, "/login", 2)
  {
    AuthPagesAreTradePaths();
    var next := Router(sys, "/login");
    if next(host).Some? {
      var h := next(host).value;
      TradeAppKeepsTradePaths(sys.site, host, "/login");
      TradeBounceLands(sys, host, "/login");
      TradeAppKeepsTradePaths(sys.site, h, "/login");
      if !sys.servedByTrade(h) && next(h).Some? {
        LocalBounceLands(sys, h);
        TradeAppKeepsTradePaths(sys.site, next(h).value, "/login");
      }
      assert Rests(next, h, 1);
    }
  }

  /** A marketing-app bounce of a marketing path lands on an apex, which keeps it. */
  lemma MarketingBounceLands(sys: System, host: Authority, path: string)
    requires WellFormed(sys) && !sys.servedByTrade(host) && !IsTradePath(path)
    requires DomainRedirect(sys.site, host, path).Some?
    ensures var next := DomainRedirect(sys.site, host, path).value;
      !sys.servedByTrade(next) && NormalizeHost(next) in sys.site.domains && DomainRedirect(sys.site, next, path).None?
  {
    CanonicalIsTrusted(sys, host);
    var origin := PublicOrigin(sys.site, host);
    var route := NormalizeHost(RequestHost(sys.site, host));
    var d := FamilyOfTradeHost(sys.site, |sys.site.domains|, route);
    PlainWithPort(sys.site, origin, d);
    ApexIsTrusted(sys.site, d);
    ApexIsNoTradeHost(sys.site, d);
    assert !sys.servedByTrade(origin);
  }

  /** How many leading "trade." labels a host has. */
  function TradeLabels(host: string): nat
    decreases |host|
  {
    if HasTradeLabel(host) then 1 + TradeLabels(StripTradeLabel(host)) else 0
  }

  lemma MarketingRestsFromWeb(sys: System, host: Authority, path: string)
    requires WellFormed(sys) && !sys.servedByTrade(host) && !IsTradePath(path)
    ensures Escapes(sys, host, path, 1)
  {
    if DomainRedirect(sys.site, host, path).Some? {
      MarketingBounceLands(sys, host, path);
      assert Rests(Router(sys, path), DomainRedirect(sys.site, host, path).value, 0);
    }
  }

  lemma TradeAppMarketingHop(sys: System, host: Authority, path: string)
    requires WellFormed(sys) && sys.servedByTrade(host) && Hop(sys, host, path).Some?
    ensures var next := Hop(sys, host, path).value;
      !sys.servedByTrade(next) || (|next| < |host| && TradeLabels(host) == TradeLabels(next) + 1)
  {
    hide Trim, Lower, NormalizeHost, StripPort, LocalDevelopmentHost, WithinApex, WellFormedSite;
  }

  /** Trade hops shed labels, and once outside the trade app one more hop at most follows. */
  lemma {:induction false} SheddingRests(next: Authority -> Option<Authority>, inTrade: string -> bool, host: Authority)
    requires forall h: Authority :: !inTrade(h) ==> Rests(next, h, 1)
    requires forall h: Authority :: inTrade(h) && next(h).Some? ==>
      !inTrade(next(h).value)
      || (|next(h).value| < |h| && TradeLabels(h) == TradeLabels(next(h).value) + 1)
    ensures Rests(next, host, TradeLabels(host) + 2)
    decreases |host|
  {
    var n := TradeLabels(host) + 2;
    if !inTrade(host) {
      RestsWithin(next, host, 1, n);
    } else if next(host).Some? {
      var h := next(host).value;
      if inTrade(h) {
        SheddingRests(next, inTrade, h);
      } else {
        RestsWithin(next, h, 1, n - 1);
      }
    }
  }

  lemma WellFormedMarketingRests(sys: System, host: Authority, path: string)
    requires WellFormed(sys) && !IsTradePath(path)
    ensures Rests(Router(sys, path), host, TradeLabels(host) + 2)
  {
    var next := Router(sys, path);
    forall h: Authority | !sys.servedByTrade(h) ensures Rests(next, h, 1) {
      MarketingRestsFromWeb(sys, h, path);
    }
    forall h: Authority | sys.servedByTrade(h) && next(h).Some?
      ensures !sys.servedByTrade(next(h).value)
        || (|next(h).value| < |h| && TradeLabels(h) == TradeLabels(next(h).value) + 1)
    {
      TradeAppMarketingHop(sys, h, path);
    }
    SheddingRests(next, sys.servedByTrade, host);
  }

  lemma WellFormedTradeRests(sys: System, host: Authority, path: string, n: nat)
    requires WellFormed(sys) && IsTradePath(path) && n >= 2
    ensures Rests(Router(sys, path), host, n)
  {
    TradeEscapesAlike(sys, host, path, 2);
    WellFormedSignInRests(sys, host);
    RestsWithin(Router(sys, path), host, 2, n);
  }

  ghost predicate Resting(sys: System, v: Visit, n: nat) {
    && Configured(sys)
    && Escapes(sys, v.host, Core(v.path), n) && Escapes(sys, v.host, "/login", n)
  }

  lemma WellFormedIsConfigured(sys: System)
    requires WellFormed(sys)
    ensures Configured(sys)
  {
  }

  lemma WebResting(sys: System, v: Visit)
    requires WellFormed(sys) && !sys.servedByTrade(v.host)
    ensures Resting(sys, v, 2)
  {
    hide Rests, Router, WellFormed, DomainRedirect, TradeRedirect;
    WellFormedIsConfigured(sys);
    WellFormedSignInRests(sys, v.host);
    if IsTradePath(Core(v.path)) {
      WellFormedTradeRests(sys, v.host, Core(v.path), 2);
    } else {
      MarketingRestsFromWeb(sys, v.host, Core(v.path));
      RestsWithin(Router(sys, Core(v.path)), v.host, 1, 2);
    }
  }

  lemma RestingBound(sys: System, loggedIn: string -> bool, v: Visit)
    requires Resting(sys, v, 2) && CleanPath(v.path)
    ensures Settles(sys, loggedIn, v, Locales(v.path) + 35)
  {
    RestingSettles(sys, loggedIn, v, 2);
  }

  /**
   * In a well-formed deployment every chain that begins at the marketing app ends within its locale segments
   * plus a constant, whatever the host, the path, the cookies read on the way and the hosts the visitor is
   * signed in on.
   */
  lemma WebRequestsSettle(sys: System, loggedIn: string -> bool, v: Visit)
    requires WellFormed(sys) && CleanPath(v.path) && !sys.servedByTrade(v.host)
    ensures Settles(sys, loggedIn, v, Locales(v.path) + 35)
  {
    hide *;
    WebResting(sys, v);
    RestingBound(sys, loggedIn, v);
  }

  lemma {:induction false} SettlesLater(sys: System, loggedIn: string -> bool, v: Visit, n: nat, m: nat)
    requires n <= m && Settles(sys, loggedIn, v, n)
    ensures Settles(sys, loggedIn, v, m)
    decreases n
  {
    hide Step;
    forall cookie, originAllowed
      ensures var o := Step(sys, loggedIn, v, cookie, originAllowed);
        o.Go? ==> m > 0 && Settles(sys, loggedIn, o.next, m - 1)
    {
      var o := Step(sys, loggedIn, v, cookie, originAllowed);
      if o.Go? {
        SettlesLater(sys, loggedIn, o.next, n - 1, m - 1);
      }
    }
  }

  lemma SettlesAfterHop(sys: System, loggedIn: string -> bool, v: Visit, n: nat)
    requires sys.servedByTrade(v.host)
    requires var hop := Hop(sys, v.host, v.path);
      hop.Some? ==> Settles(sys, loggedIn, Visit(hop.value, v.path, v.query, false), n)
    ensures Settles(sys, loggedIn, v, n + 1)
  {
    hide TradeRedirect;
  }

  /** A bound on the redirects and rewrites of one chain: one per leading locale segment and per leading trade
      label, plus a constant. */
  function ChainBound(v: Visit): nat {
    Locales(v.path) + TradeLabels(v.host) + 36
  }

  /** In a well-formed deployment every chain ends, wherever it begins. */
  lemma {:induction false} EveryRequestSettles(sys: System, loggedIn: string -> bool, v: Visit)
    requires WellFormed(sys) && CleanPath(v.path)
    ensures Settles(sys, loggedIn, v, ChainBound(v))
    decreases |v.host|
  {
    hide Settles, Step, WellFormed, Hop;
    var hop := Hop(sys, v.host, v.path);
    if !sys.servedByTrade(v.host) {
      WebRequestsSettle(sys, loggedIn, v);
      SettlesLater(sys, loggedIn, v, Locales(v.path) + 35, ChainBound(v));
    } else {
      if hop.Some? {
        var w := Visit(hop.value, v.path, v.query, false);
        TradeAppMarketingHop(sys, v.host, v.path);
        if sys.servedByTrade(w.host) {
          EveryRequestSettles(sys, loggedIn, w);
        } else {
          WebRequestsSettle(sys, loggedIn, w);
          SettlesLater(sys, loggedIn, w, Locales(v.path) + 35, ChainBound(v) - 1);
        }
      }
      SettlesAfterHop(sys, loggedIn, v, ChainBound(v) - 1);
    }
  }
}
