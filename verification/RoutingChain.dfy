/**
 * The two apps and a browser as one transition system. A visit is one run of a middleware; a redirect
 * leads to a visit without the internal marker, a rewrite re-enters the middleware with it.
 */
module RoutingChain {
  import opened Basics
  import opened Strings
  import opened Registry
  import opened WebMiddleware
  import opened TradeMiddleware
  import opened PathFamilies
  import opened HostFacts

  datatype System = System(site: Site, urlFollows: bool, servedByTrade: string -> bool)

  datatype Visit = Visit(host: Authority, path: string, query: string, resolved: bool)

  datatype Outcome = Settled | Go(next: Visit)

  /** One middleware run. The cookie read and the origin verdict may differ from visit to visit. */
  function Step(sys: System, loggedIn: string -> bool, v: Visit, cookie: Option<string>, originAllowed: bool): Outcome {
    if sys.servedByTrade(v.host) then
      match TradeRedirect(sys.site, v.host, v.path)
      case Some(host) => Go(Visit(host, v.path, v.query, false))
      case None => Settled
    else
      var req := Request(v.host, v.path, v.query, cookie, v.resolved, loggedIn(v.host), originAllowed);
      match AuthHandler(sys.site, sys.urlFollows, req)
      case Redirect(_, t, _) => Go(Visit(t.host, t.path, t.query, false))
      case Rewrite(t, _) => Go(Visit(v.host, t.path, t.query, true))
      case Pass => Settled
      case Refuse(_) => Settled
  }

  /** Every chain from `v` ends within `n` redirects and rewrites, whatever cookies are read on the way. */
  ghost predicate Settles(sys: System, loggedIn: string -> bool, v: Visit, n: nat)
    decreases n
  {
    forall cookie, originAllowed ::
      var o := Step(sys, loggedIn, v, cookie, originAllowed);
      o.Go? ==> n > 0 && Settles(sys, loggedIn, o.next, n - 1)
  }

  /** Where host routing alone sends a request for an unprefixed path. */
  function Hop(sys: System, host: Authority, path: string): Option<Authority> {
    if sys.servedByTrade(host) then TradeRedirect(sys.site, host, path)
    else DomainRedirect(sys.site, host, path)
  }

  function Router(sys: System, path: string): Authority -> Option<Authority> {
    (host: Authority) => Hop(sys, host, path)
  }

  /** Following `next` from `host` comes to rest within `n` hops. */
  predicate Rests(next: Authority -> Option<Authority>, host: Authority, n: nat)
    decreases n
  {
    next(host).None? || (n > 0 && Rests(next, next(host).value, n - 1))
  }

  function HopCount(next: Authority -> Option<Authority>, host: Authority, n: nat): (k: nat)
    ensures k <= n
    decreases n
  {
    if n == 0 || next(host).None? then 0 else 1 + HopCount(next, next(host).value, n - 1)
  }

  predicate Escapes(sys: System, host: Authority, path: string, n: nat) {
    Rests(Router(sys, path), host, n)
  }

  /** A path of which no suffix can be mistaken for a reference with its own authority. */
  predicate CleanPath(path: string) {
    && path != "" && path[0] == '/'
    && forall i :: 0 <= i < |path| - 1 ==> !(path[i] == '/' && path[i + 1] == '/')
  }

  /** The path with every leading locale segment removed. */
  function Core(path: string): (c: string)
    ensures !HasLocale(c)
    decreases |path|
  {
    if HasLocale(path) then Core(StripLocale(path)) else path
  }

  function Locales(path: string): nat
    decreases |path|
  {
    if HasLocale(path) then 1 + Locales(StripLocale(path)) else 0
  }

  /** Assumptions on a deployment: apexes are normalised names, and the marketing app answers the canonical one. */
  ghost predicate Configured(sys: System) {
    && sys.site.domains != []
    && (forall d :: d in sys.site.domains ==> Settable(d) && NormalizeHost(d) == d && StripPort(d) == d)
    && !sys.servedByTrade(sys.site.domains[0])
  }

  // ---------------------------------------------------------------- the measure

  /** Locale moves still possible while the host stays. */
  function Debt(path: string, resolved: bool): (k: nat)
    ensures k <= Locales(path) + 2
    decreases |path|
  {
    if !HasLocale(path) then (if resolved then 0 else 2)
    else if HasLocale(StripLocale(path)) then 1 + Debt(StripLocale(path), false)
    else if LocaleOf(path) == DEFAULT_LOCALE then 3 else 1
  }

  predicate AuthHopDue(core: string, signedIn: bool) {
    (GuestOnly(core) && signedIn) || (StartsWithAny(core, PROTECTED_PAGES) && !signedIn)
  }

  /** Sign-in redirects still possible. */
  function Stage(sys: System, loggedIn: string -> bool, host: Authority, core: string): (k: nat)
    ensures k <= 3
  {
    if !GuestOnly(core) && !StartsWithAny(core, PROTECTED_PAGES) then 0
    else if Hop(sys, host, "/login").None? then (if AuthHopDue(core, loggedIn(host)) then 1 else 0)
    else if IsTradePath(core) then 2
    else 3
  }

  function Weight(stage: nat, n: nat): nat {
    if stage == 0 then 0 else 3 * n + 3 + Weight(stage - 1, n)
  }

  function Budget(sys: System, loggedIn: string -> bool, v: Visit, n: nat): nat {
    Weight(Stage(sys, loggedIn, v.host, Core(v.path)), n)
    + 3 * HopCount(Router(sys, Core(v.path)), v.host, n)
    + Debt(v.path, v.resolved)
  }

  // ---------------------------------------------------------------- paths

  lemma StripKeepsClean(path: string)
    requires CleanPath(path) && HasLocale(path)
    ensures CleanPath(StripLocale(path))
  {
    if |path| > 3 {
      var r := StripLocale(path);
      assert forall i :: 0 <= i < |r| ==> r[i] == path[i + 3];
    }
  }

  lemma {:induction false} CoreKeepsClean(path: string)
    requires CleanPath(path)
    ensures CleanPath(Core(path))
    decreases |path|
  {
    if HasLocale(path) {
      StripKeepsClean(path);
      CoreKeepsClean(StripLocale(path));
    }
  }

  /** Prefixing a locale and stripping it again gives the path back. */
  lemma PrefixThenStrip(locale: string, path: string)
    requires locale in LOCALES && path != "" && path[0] == '/'
    ensures var p := "/" + locale + path; HasLocale(p) && LocaleOf(p) == locale && StripLocale(p) == path
    ensures CleanPath(path) ==> CleanPath("/" + locale + path)
  {
    assert |locale| == 2 && locale[0] != '/' && locale[1] != '/';
    var p := "/" + locale + path;
    assert p[1..3] == locale;
    assert p[3..] == path;
    assert forall i :: 3 <= i < |p| ==> p[i] == path[i - 3];
  }

  lemma CleanResolves(path: string, query: string, origin: Authority)
    requires CleanPath(path)
    ensures Resolve(path, query, origin) == Url(origin, path, query)
  {
    assert |path| > 1 ==> !(path[0] == '/' && path[1] == '/');
  }

  // ---------------------------------------------------------------- hosts

  lemma CanonicalIsTrusted(sys: System, host: Authority)
    requires Configured(sys)
    ensures PublicOrigin(sys.site, host) == RequestHost(sys.site, host)
    ensures HostIsTrusted(sys.site, PublicOrigin(sys.site, host))
    ensures PublicOrigin(sys.site, PublicOrigin(sys.site, host)) == PublicOrigin(sys.site, host)
  {
    var d := sys.site.domains[0];
    assert d in sys.site.domains;
    ApexIsTrusted(sys.site, d);
  }

  /** A host the marketing app does not recognise is routed as the canonical apex. */
  lemma UnrecognisedIsRouted(sys: System, host: Authority)
    requires Configured(sys) && !sys.servedByTrade(host)
    requires PublicOrigin(sys.site, host) != host
    ensures Hop(sys, host, "/login").Some?
    ensures !sys.servedByTrade(PublicOrigin(sys.site, host))
  {
    AuthPagesAreTradePaths();
  }

  /** Host routing depends on the recognised host only. */
  lemma RoutedAlike(sys: System, host: Authority, path: string)
    requires Configured(sys) && !sys.servedByTrade(host)
    ensures PublicOrigin(sys.site, host) != host ==> !sys.servedByTrade(PublicOrigin(sys.site, host))
    ensures Hop(sys, PublicOrigin(sys.site, host), path) == Hop(sys, host, path)
  {
    CanonicalIsTrusted(sys, host);
    if PublicOrigin(sys.site, host) != host {
      UnrecognisedIsRouted(sys, host);
    }
  }

  /** All trade paths are bounced alike. */
  lemma TradePathsAlike(sys: System, host: Authority, path: string)
    requires IsTradePath(path)
    ensures Hop(sys, host, path) == Hop(sys, host, "/login")
  {
    AuthPagesAreTradePaths();
    FamiliesDisjoint(path);
    FamiliesDisjoint("/login");
  }

  lemma HopNeedsFamily(sys: System, host: Authority, path: string)
    requires Hop(sys, host, path).Some?
    ensures IsTradePath(path) || Bounced(path)
    ensures !HasLocale(path)
  {
    FamiliesDisjoint(path);
  }

  lemma {:induction false} RestsAlike(f: Authority -> Option<Authority>, g: Authority -> Option<Authority>,
                                    host: Authority, n: nat)
    requires forall h :: f(h) == g(h)
    ensures Rests(f, host, n) == Rests(g, host, n) && HopCount(f, host, n) == HopCount(g, host, n)
    decreases n
  {
    if f(host).Some? && n > 0 {
      RestsAlike(f, g, f(host).value, n - 1);
    }
  }

  lemma {:induction false} RestsLonger(next: Authority -> Option<Authority>, host: Authority, n: nat)
    requires Rests(next, host, n)
    ensures Rests(next, host, n + 1) && HopCount(next, host, n + 1) == HopCount(next, host, n)
    decreases n
  {
    if next(host).Some? {
      RestsLonger(next, next(host).value, n - 1);
    }
  }

  lemma {:induction false} RestsWithin(next: Authority -> Option<Authority>, host: Authority, n: nat, m: nat)
    requires n <= m && Rests(next, host, n)
    ensures Rests(next, host, m)
    decreases m - n
  {
    if n < m {
      RestsLonger(next, host, n);
      RestsWithin(next, host, n + 1, m);
    }
  }

  lemma HopUsesOne(next: Authority -> Option<Authority>, host: Authority, n: nat)
    requires Rests(next, host, n) && next(host).Some?
    ensures Rests(next, next(host).value, n)
    ensures HopCount(next, host, n) == HopCount(next, next(host).value, n) + 1
  {
    RestsLonger(next, next(host).value, n - 1);
  }

  lemma TradeEscapesAlike(sys: System, host: Authority, path: string, n: nat)
    requires IsTradePath(path)
    ensures Escapes(sys, host, path, n) == Escapes(sys, host, "/login", n)
  {
    forall h ensures Router(sys, path)(h) == Router(sys, "/login")(h) {
      TradePathsAlike(sys, h, path);
    }
    RestsAlike(Router(sys, path), Router(sys, "/login"), host, n);
  }

  // ---------------------------------------------------------------- one step

  predicate IsBounce(sys: System, v: Visit, w: Visit) {
    && w.path == v.path && w.query == v.query && !w.resolved
    && Hop(sys, v.host, Core(v.path)) == Some(w.host)
  }

  predicate IsCanonicalised(sys: System, v: Visit, w: Visit) {
    && !sys.servedByTrade(v.host) && HasLocale(v.path) && LocaleOf(v.path) == DEFAULT_LOCALE
    && w == Visit(PublicOrigin(sys.site, v.host), StripLocale(v.path), v.query, false)
  }

  predicate IsRewritten(sys: System, v: Visit, w: Visit) {
    && !sys.servedByTrade(v.host) && HasLocale(v.path) && LocaleOf(v.path) != DEFAULT_LOCALE
    && w == Visit(v.host, StripLocale(v.path), v.query, true)
  }

  predicate IsLocalised(sys: System, v: Visit, w: Visit, cookie: Option<string>) {
    && !sys.servedByTrade(v.host) && !HasLocale(v.path) && !v.resolved
    && !IsStatic(v.path) && !IsApi(v.path) && !OnTradeHost(sys.site, v.host)
    && cookie.Some? && cookie.value in LOCALES && cookie.value != DEFAULT_LOCALE
    && w == Visit(PublicOrigin(sys.site, v.host), "/" + cookie.value + v.path, v.query, false)
  }

  predicate IsAuthHop(sys: System, signedIn: bool, v: Visit, w: Visit) {
    && !sys.servedByTrade(v.host) && !HasLocale(v.path) && Hop(sys, v.host, v.path).None?
    && w.host == PublicOrigin(sys.site, v.host) && !w.resolved
    && ((GuestOnly(v.path) && signedIn && w.path == "/account" && w.query == "")
        || (StartsWithAny(v.path, PROTECTED_PAGES) && !signedIn
            && w.path == "/login" && w.query == CallbackQuery(v.path, v.query)))
  }

  /** Bounces look at the path less its locale segments, whichever path the framework shows host routing. */
  lemma BounceSeesCore(sys: System, v: Visit)
    requires !sys.servedByTrade(v.host)
    requires DomainRedirect(sys.site, v.host, RoutedPath(sys.urlFollows, v.path)).Some?
    ensures RoutedPath(sys.urlFollows, v.path) == Core(v.path)
  {
    HopNeedsFamily(sys, v.host, RoutedPath(sys.urlFollows, v.path));
  }

  lemma CleanRouted(urlFollows: bool, path: string)
    requires CleanPath(path)
    ensures !("//" <= path) && !("//" <= RoutedPath(urlFollows, path))
  {
    assert |path| > 1 ==> !(path[0] == '/' && path[1] == '/');
    if HasLocale(path) {
      StripKeepsClean(path);
      var rest := StripLocale(path);
      assert |rest| > 1 ==> !(rest[0] == '/' && rest[1] == '/');
    }
  }

  /** Only a path that begins with two slashes is read again before it is matched. */
  lemma PlainBounce(site: Site, raw: string, path: string, query: string)
    requires !("//" <= path)
    ensures DomainBounce(site, raw, path, query)
      == match DomainRedirect(site, raw, path) case Some(host) => Some(Url(host, path, query)) case None => None
  {
    hide DomainRedirect, RequestHost, NormalizeHost, IsLocalRoute;
  }

  lemma AuthTargetsClean()
    ensures CleanPath("/account") && CleanPath("/login")
  {
    var p, q := "/account", "/login";
    assert forall i :: 0 < i < |p| ==> p[i] != '/';
    assert forall i :: 0 < i < |q| ==> q[i] != '/';
  }

  lemma GateMoves(site: Site, req: Request)
    ensures var a := Gate(site, req);
      a.Redirect? ==>
        && a.target.host == PublicOrigin(site, req.host)
        && ((GuestOnly(req.path) && req.loggedIn && a.target.path == "/account" && a.target.query == "")
            || (StartsWithAny(req.path, PROTECTED_PAGES) && !req.loggedIn
                && a.target.path == "/login" && a.target.query == CallbackQuery(req.path, req.query)))
    ensures !Gate(site, req).Rewrite?
  {
    hide StartsWithAny, PublicOrigin, CallbackQuery, Resolve, IsApi;
    AuthTargetsResolve(CallbackQuery(req.path, req.query), PublicOrigin(site, req.host));
  }

  lemma AuthTargetsResolve(query: string, origin: Authority)
    ensures Resolve("/account", "", origin) == Url(origin, "/account", "")
    ensures Resolve("/login", query, origin) == Url(origin, "/login", query)
  {
    AuthTargetsClean();
    CleanResolves("/account", "", origin);
    CleanResolves("/login", query, origin);
  }

  lemma LocaleMoves(site: Site, urlFollows: bool, req: Request)
    requires CleanPath(req.path) && HasLocale(req.path)
    requires DomainRedirect(site, req.host, RoutedPath(urlFollows, req.path)).None?
    ensures AuthHandler(site, urlFollows, req)
      == var target := Url(PublicOrigin(site, req.host), StripLocale(req.path), req.query);
         if LocaleOf(req.path) == DEFAULT_LOCALE then Redirect(308, target, Some(DEFAULT_LOCALE))
         else Rewrite(target, LocaleOf(req.path))
  {
    CleanRouted(urlFollows, req.path);
    StripKeepsClean(req.path);
    CleanResolves(StripLocale(req.path), req.query, PublicOrigin(site, req.host));
  }

  lemma UnprefixedMoves(site: Site, urlFollows: bool, req: Request)
    requires CleanPath(req.path) && !HasLocale(req.path)
    requires DomainRedirect(site, req.host, req.path).None?
    ensures AuthHandler(site, urlFollows, req)
      == if Sticky(site, req)
         then Redirect(307, Url(PublicOrigin(site, req.host), "/" + req.cookieLocale.value + req.path, req.query), None)
         else Gate(site, req)
  {
    CleanRouted(urlFollows, req.path);
    if Sticky(site, req) {
      PrefixThenStrip(req.cookieLocale.value, req.path);
      CleanResolves("/" + req.cookieLocale.value + req.path, req.query, PublicOrigin(site, req.host));
    }
  }

  lemma BounceKind(sys: System, loggedIn: string -> bool, v: Visit, cookie: Option<string>, originAllowed: bool)
    requires CleanPath(v.path)
    requires if sys.servedByTrade(v.host) then TradeRedirect(sys.site, v.host, v.path).Some?
      else DomainRedirect(sys.site, v.host, RoutedPath(sys.urlFollows, v.path)).Some?
    ensures var o := Step(sys, loggedIn, v, cookie, originAllowed); o.Go? && IsBounce(sys, v, o.next)
  {
    hide DomainRedirect, DomainBounce, RequestHost, PublicOrigin, CleanPath, MarketingOrigin;
    if sys.servedByTrade(v.host) {
      FamiliesDisjoint(v.path);
    } else {
      CleanRouted(sys.urlFollows, v.path);
      PlainBounce(sys.site, v.host, RoutedPath(sys.urlFollows, v.path), v.query);
      BounceSeesCore(sys, v);
    }
  }

  lemma PrefixedKind(sys: System, loggedIn: string -> bool, v: Visit, cookie: Option<string>, originAllowed: bool)
    requires CleanPath(v.path) && HasLocale(v.path) && !sys.servedByTrade(v.host)
    requires DomainRedirect(sys.site, v.host, RoutedPath(sys.urlFollows, v.path)).None?
    ensures var o := Step(sys, loggedIn, v, cookie, originAllowed);
      o.Go? && (IsCanonicalised(sys, v, o.next) || IsRewritten(sys, v, o.next))
  {
    hide DomainRedirect, AuthHandler, PublicOrigin, CleanPath, HasLocale, StripLocale, LocaleOf, RoutedPath;
    LocaleMoves(sys.site, sys.urlFollows,
                Request(v.host, v.path, v.query, cookie, v.resolved, loggedIn(v.host), originAllowed));
  }

  lemma UnprefixedKind(sys: System, loggedIn: string -> bool, v: Visit, cookie: Option<string>, originAllowed: bool)
    requires CleanPath(v.path) && !HasLocale(v.path) && !sys.servedByTrade(v.host)
    requires DomainRedirect(sys.site, v.host, v.path).None?
    ensures var o := Step(sys, loggedIn, v, cookie, originAllowed);
      o.Go? ==> IsLocalised(sys, v, o.next, cookie) || IsAuthHop(sys, loggedIn(v.host), v, o.next)
  {
    hide DomainRedirect, AuthHandler, PublicOrigin, CleanPath, HasLocale, Gate, OnTradeHost, IsStatic, IsApi;
    var req := Request(v.host, v.path, v.query, cookie, v.resolved, loggedIn(v.host), originAllowed);
    UnprefixedMoves(sys.site, sys.urlFollows, req);
    GateMoves(sys.site, req);
  }

  /** Every redirect and rewrite is one of five moves, each of which says what happens to host, path, query and
      marker. */
  lemma StepKinds(sys: System, loggedIn: string -> bool, v: Visit, cookie: Option<string>, originAllowed: bool)
    requires CleanPath(v.path)
    ensures var o := Step(sys, loggedIn, v, cookie, originAllowed);
      o.Go? ==>
        || IsBounce(sys, v, o.next) || IsCanonicalised(sys, v, o.next) || IsRewritten(sys, v, o.next)
        || IsLocalised(sys, v, o.next, cookie) || IsAuthHop(sys, loggedIn(v.host), v, o.next)
  {
    hide DomainRedirect, AuthHandler, PublicOrigin, CleanPath, HasLocale, TradeRedirect, IsBounce, IsCanonicalised;
    hide IsRewritten, IsLocalised, IsAuthHop;
    if sys.servedByTrade(v.host) {
      if TradeRedirect(sys.site, v.host, v.path).Some? {
        BounceKind(sys, loggedIn, v, cookie, originAllowed);
      }
    } else if DomainRedirect(sys.site, v.host, RoutedPath(sys.urlFollows, v.path)).Some? {
      BounceKind(sys, loggedIn, v, cookie, originAllowed);
    } else if HasLocale(v.path) {
      PrefixedKind(sys, loggedIn, v, cookie, originAllowed);
    } else {
      UnprefixedKind(sys, loggedIn, v, cookie, originAllowed);
    }
  }

  // ---------------------------------------------------------------- every step pays

  /** A page whose visitor may be sent to sign in or away from it. */
  predicate NeedsSignIn(core: string) {
    GuestOnly(core) || StartsWithAny(core, PROTECTED_PAGES)
  }

  /** What the settling argument carries along a chain. */
  ghost predicate Paid(sys: System, v: Visit, n: nat) {
    && Configured(sys)
    && CleanPath(v.path)
    && Escapes(sys, v.host, Core(v.path), n)
    && (NeedsSignIn(Core(v.path)) ==> Escapes(sys, v.host, "/login", n))
  }

  lemma StageOf(sys: System, loggedIn: string -> bool, host: Authority, core: string)
    ensures Bounced(core) ==> Stage(sys, loggedIn, host, core) == 0
    ensures Hop(sys, host, "/login").None? ==> Stage(sys, loggedIn, host, core) <= 1
    ensures IsTradePath(core) ==> Stage(sys, loggedIn, host, core) <= 2
  {
    FamiliesDisjoint(core);
  }

  lemma BounceStage(sys: System, loggedIn: string -> bool, host: Authority, next: Authority, core: string)
    requires Hop(sys, host, core) == Some(next)
    ensures Stage(sys, loggedIn, next, core) <= Stage(sys, loggedIn, host, core)
  {
    HopNeedsFamily(sys, host, core);
    StageOf(sys, loggedIn, next, core);
    if IsTradePath(core) {
      TradePathsAlike(sys, host, core);
    }
  }

  lemma BounceKeepsSignIn(sys: System, host: Authority, next: Authority, core: string, n: nat)
    requires Hop(sys, host, core) == Some(next) && Escapes(sys, next, core, n)
    ensures NeedsSignIn(core) ==> Escapes(sys, next, "/login", n)
  {
    HopNeedsFamily(sys, host, core);
    FamiliesDisjoint(core);
    if NeedsSignIn(core) {
      TradeEscapesAlike(sys, next, core, n);
    }
  }

  lemma BouncePays(sys: System, loggedIn: string -> bool, v: Visit, w: Visit, n: nat)
    requires Paid(sys, v, n) && IsBounce(sys, v, w)
    ensures Paid(sys, w, n) && Budget(sys, loggedIn, w, n) < Budget(sys, loggedIn, v, n)
  {
    var core := Core(v.path);
    HopUsesOne(Router(sys, core), v.host, n);
    BounceKeepsSignIn(sys, v.host, w.host, core, n);
    BounceStage(sys, loggedIn, v.host, w.host, core);
    DebtAfterBounce(v.path, v.resolved);
    WeightMonotone(Stage(sys, loggedIn, w.host, core), Stage(sys, loggedIn, v.host, core), n);
  }

  lemma DebtAfterBounce(path: string, resolved: bool)
    ensures Debt(path, false) <= Debt(path, resolved) + 2
  {
  }

  lemma DebtDrops(path: string, resolved: bool)
    requires HasLocale(path)
    ensures Debt(StripLocale(path), LocaleOf(path) != DEFAULT_LOCALE) < Debt(path, resolved)
  {
    var rest := StripLocale(path);
    assert HasLocale(rest) ==> Debt(rest, true) == Debt(rest, false);
  }

  lemma WeightMonotone(a: nat, b: nat, n: nat)
    requires a <= b
    ensures Weight(a, n) <= Weight(b, n)
    ensures a < b ==> Weight(a, n) + 3 * n + 3 <= Weight(b, n)
  {
    if a < b {
      WeightMonotone(a, b - 1, n);
    }
  }

  /** Moving to the recognised host changes neither the routing nor the stage for the worse. */
  lemma CanonicalStage(sys: System, loggedIn: string -> bool, host: Authority, core: string, n: nat)
    requires Configured(sys) && !sys.servedByTrade(host)
    ensures Stage(sys, loggedIn, PublicOrigin(sys.site, host), core) <= Stage(sys, loggedIn, host, core)
    ensures HopCount(Router(sys, core), PublicOrigin(sys.site, host), n) == HopCount(Router(sys, core), host, n)
    ensures Escapes(sys, PublicOrigin(sys.site, host), core, n) == Escapes(sys, host, core, n)
  {
    RoutedAlike(sys, host, core);
    RoutedAlike(sys, host, "/login");
    if PublicOrigin(sys.site, host) != host {
      UnrecognisedIsRouted(sys, host);
    }
  }

  lemma LocaleMovePays(sys: System, loggedIn: string -> bool, v: Visit, w: Visit, n: nat)
    requires Paid(sys, v, n) && (IsCanonicalised(sys, v, w) || IsRewritten(sys, v, w))
    ensures Paid(sys, w, n) && Budget(sys, loggedIn, w, n) < Budget(sys, loggedIn, v, n)
  {
    var core := Core(v.path);
    assert Core(w.path) == core;
    StripKeepsClean(v.path);
    CanonicalStage(sys, loggedIn, v.host, core, n);
    CanonicalStage(sys, loggedIn, v.host, "/login", n);
    WeightMonotone(Stage(sys, loggedIn, w.host, core), Stage(sys, loggedIn, v.host, core), n);
    DebtDrops(v.path, v.resolved);
  }

  lemma LocalisingPays(sys: System, loggedIn: string -> bool, v: Visit, w: Visit, cookie: Option<string>, n: nat)
    requires Paid(sys, v, n) && IsLocalised(sys, v, w, cookie)
    ensures Paid(sys, w, n) && Budget(sys, loggedIn, w, n) < Budget(sys, loggedIn, v, n)
  {
    var core := v.path;
    PrefixThenStrip(cookie.value, v.path);
    assert Core(v.path) == core && Core(w.path) == Core(StripLocale(w.path)) == core;
    CanonicalStage(sys, loggedIn, v.host, core, n);
    CanonicalStage(sys, loggedIn, v.host, "/login", n);
    WeightMonotone(Stage(sys, loggedIn, w.host, core), Stage(sys, loggedIn, v.host, core), n);
    assert Debt(w.path, w.resolved) == 1;
  }

  /** A sign-in redirect uses up a stage: it happens on a recognised host, or leads to a path that is routed away. */
  lemma AuthHopStage(sys: System, loggedIn: string -> bool, v: Visit, w: Visit)
    requires Configured(sys) && IsAuthHop(sys, loggedIn(v.host), v, w)
    ensures IsTradePath(w.path) && !HasLocale(w.path)
    ensures Stage(sys, loggedIn, w.host, w.path) < Stage(sys, loggedIn, v.host, v.path)
  {
    AuthPagesAreTradePaths();
    StageOf(sys, loggedIn, w.host, w.path);
    if Hop(sys, v.host, "/login").None? {
      if PublicOrigin(sys.site, v.host) != v.host {
        UnrecognisedIsRouted(sys, v.host);
      }
      assert w.host == v.host;
    } else if IsTradePath(v.path) {
      TradePathsAlike(sys, v.host, v.path);
      assert false;
    }
  }

  lemma AuthHopPays(sys: System, loggedIn: string -> bool, v: Visit, w: Visit, n: nat)
    requires Paid(sys, v, n) && IsAuthHop(sys, loggedIn(v.host), v, w)
    ensures Paid(sys, w, n) && Budget(sys, loggedIn, w, n) < Budget(sys, loggedIn, v, n)
  {
    AuthTargetsClean();
    AuthHopStage(sys, loggedIn, v, w);
    CanonicalStage(sys, loggedIn, v.host, "/login", n);
    TradeEscapesAlike(sys, w.host, w.path, n);
    WeightMonotone(Stage(sys, loggedIn, w.host, w.path), Stage(sys, loggedIn, v.host, v.path), n);
  }

  lemma StepPays(sys: System, loggedIn: string -> bool, v: Visit, cookie: Option<string>, originAllowed: bool, n: nat)
    requires Paid(sys, v, n)
    ensures var o := Step(sys, loggedIn, v, cookie, originAllowed);
      o.Go? ==> Paid(sys, o.next, n) && Budget(sys, loggedIn, o.next, n) < Budget(sys, loggedIn, v, n)
  {
    var o := Step(sys, loggedIn, v, cookie, originAllowed);
    StepKinds(sys, loggedIn, v, cookie, originAllowed);
    if o.Go? {
      if IsBounce(sys, v, o.next) {
        BouncePays(sys, loggedIn, v, o.next, n);
      } else if IsCanonicalised(sys, v, o.next) || IsRewritten(sys, v, o.next) {
        LocaleMovePays(sys, loggedIn, v, o.next, n);
      } else if IsLocalised(sys, v, o.next, cookie) {
        LocalisingPays(sys, loggedIn, v, o.next, cookie, n);
      } else {
        AuthHopPays(sys, loggedIn, v, o.next, n);
      }
    }
  }

  lemma {:induction false} PaidSettles(sys: System, loggedIn: string -> bool, v: Visit, n: nat, k: nat)
    requires Paid(sys, v, n) && Budget(sys, loggedIn, v, n) <= k
    ensures Settles(sys, loggedIn, v, k)
    decreases k
  {
    forall cookie, originAllowed
      ensures var o := Step(sys, loggedIn, v, cookie, originAllowed);
        o.Go? ==> k > 0 && Settles(sys, loggedIn, o.next, k - 1)
    {
      StepPays(sys, loggedIn, v, cookie, originAllowed, n);
      var o := Step(sys, loggedIn, v, cookie, originAllowed);
      if o.Go? {
        PaidSettles(sys, loggedIn, o.next, n, k - 1);
      }
    }
  }
}
