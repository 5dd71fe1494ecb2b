/** When a visit to a URL with a locale prefix settles. */
module RoutingPrefixes {
  import opened Basics
  import opened Strings
  import opened WebMiddleware
  import opened PathFamilies
  import opened RoutingChain
  import opened RoutingTheorems

  /** Where the next locale move leads. */
  function StripVisit(sys: System, v: Visit): Visit
    requires HasLocale(v.path)
  {
    if LocaleOf(v.path) == DEFAULT_LOCALE
    then Visit(PublicOrigin(sys.site, v.host), StripLocale(v.path), v.query, false)
    else Visit(v.host, StripLocale(v.path), v.query, true)
  }

  /** Where all locale moves lead, when no bounce comes between. */
  function Bare(sys: System, v: Visit): (w: Visit)
    ensures !HasLocale(w.path)
    decreases |v.path|
  {
    if HasLocale(v.path) then Bare(sys, StripVisit(sys, v)) else v
  }

  /** Host routing of a prefixed URL: the trade app serves it. */
  function WebHop(sys: System, host: Authority, core: string): Option<Authority> {
    if sys.servedByTrade(host) then None else DomainRedirect(sys.site, host, core)
  }

  function WebRouter(sys: System, core: string): Authority -> Option<Authority> {
    (host: Authority) => WebHop(sys, host, core)
  }

  // ---------------------------------------------------------------- one step

  lemma ServedPrefixSettles(sys: System, loggedIn: string -> bool, v: Visit)
    requires sys.servedByTrade(v.host) && HasLocale(v.path)
    ensures Settles(sys, loggedIn, v, 0)
  {
    FamiliesDisjoint(v.path);
  }

  lemma PrefixedStep(sys: System, loggedIn: string -> bool, v: Visit, cookie: Option<string>, originAllowed: bool)
    requires CleanPath(v.path) && HasLocale(v.path) && !sys.servedByTrade(v.host)
    ensures var hop := DomainRedirect(sys.site, v.host, RoutedPath(sys.urlFollows, v.path));
      Step(sys, loggedIn, v, cookie, originAllowed)
      == Go(if hop.Some? then Visit(hop.value, v.path, v.query, false) else StripVisit(sys, v))
  {
    hide DomainRedirect, PublicOrigin, CleanPath, HasLocale, StripLocale, LocaleOf, RoutedPath, DomainBounce, Resolve;
    var req := Request(v.host, v.path, v.query, cookie, v.resolved, loggedIn(v.host), originAllowed);
    if DomainRedirect(sys.site, v.host, RoutedPath(sys.urlFollows, v.path)).Some? {
      CleanRouted(sys.urlFollows, v.path);
      PlainBounce(sys.site, v.host, RoutedPath(sys.urlFollows, v.path), v.query);
    } else {
      hide AuthHandler;
      LocaleMoves(sys.site, sys.urlFollows, req);
    }
  }

  ghost predicate Forced(sys: System, loggedIn: string -> bool, v: Visit, w: Visit) {
    forall cookie, originAllowed :: Step(sys, loggedIn, v, cookie, originAllowed) == Go(w)
  }

  lemma ForcedSettles(sys: System, loggedIn: string -> bool, v: Visit, w: Visit, k: nat)
    requires Forced(sys, loggedIn, v, w)
    ensures Settles(sys, loggedIn, v, k + 1) <==> Settles(sys, loggedIn, w, k)
    ensures !Settles(sys, loggedIn, v, 0)
  {
    hide Step;
    assert Step(sys, loggedIn, v, None, true) == Go(w);
  }

  lemma ForcedSettlesIff(sys: System, loggedIn: string -> bool, v: Visit, w: Visit)
    requires Forced(sys, loggedIn, v, w)
    ensures SettlesEventually(sys, loggedIn, v) <==> SettlesEventually(sys, loggedIn, w)
  {
    hide Settles, Forced;
    if k: nat :| Settles(sys, loggedIn, v, k) {
      ForcedSettles(sys, loggedIn, v, w, 0);
      ForcedSettles(sys, loggedIn, v, w, k - 1);
    }
    if k: nat :| Settles(sys, loggedIn, w, k) {
      ForcedSettles(sys, loggedIn, v, w, k);
    }
  }

  lemma PrefixedIsForced(sys: System, loggedIn: string -> bool, v: Visit)
    requires CleanPath(v.path) && HasLocale(v.path) && !sys.servedByTrade(v.host)
    ensures var hop := DomainRedirect(sys.site, v.host, RoutedPath(sys.urlFollows, v.path));
      Forced(sys, loggedIn, v, if hop.Some? then Visit(hop.value, v.path, v.query, false) else StripVisit(sys, v))
  {
    hide Step, DomainRedirect, CleanPath, HasLocale, RoutedPath, StripVisit;
    forall cookie, originAllowed {
      PrefixedStep(sys, loggedIn, v, cookie, originAllowed);
    }
  }

  /** A locale move keeps the path clean, the core, and the routing. */
  lemma StripKeeps(sys: System, v: Visit)
    requires Configured(sys) && CleanPath(v.path) && HasLocale(v.path) && !sys.servedByTrade(v.host)
    ensures var w := StripVisit(sys, v);
      && CleanPath(w.path) && Core(w.path) == Core(v.path) && !sys.servedByTrade(w.host)
      && forall core {:trigger WebHop(sys, w.host, core)} :: WebHop(sys, w.host, core) == WebHop(sys, v.host, core)
  {
    StripKeepsClean(v.path);
    forall core ensures WebHop(sys, StripVisit(sys, v).host, core) == WebHop(sys, v.host, core) {
      RoutedAlike(sys, v.host, core);
    }
    RoutedAlike(sys, v.host, "/");
    hide DomainRedirect, CleanPath, HasLocale, StripLocale, Configured;
  }

  lemma PrefixedIsUnrouted(sys: System, host: string, path: string)
    requires HasLocale(path)
    ensures DomainRedirect(sys.site, host, path).None?
  {
    FamiliesDisjoint(path);
    NoFamilyStays(sys.site, host, path);
  }

  // ---------------------------------------------------------------- without bounces

  lemma {:induction false} BareSettlesIff(sys: System, loggedIn: string -> bool, v: Visit)
    requires Configured(sys) && CleanPath(v.path) && !sys.servedByTrade(v.host)
    requires !sys.urlFollows || Unrouted(Core(v.path))
    ensures SettlesEventually(sys, loggedIn, v) <==> SettlesEventually(sys, loggedIn, Bare(sys, v))
    decreases |v.path|
  {
    hide Settles, SettlesEventually, CleanPath, HasLocale, Configured, DomainRedirect, Unrouted, PublicOrigin;
    if HasLocale(v.path) {
      NoBounceOnTheWay(sys, v);
      PrefixedIsForced(sys, loggedIn, v);
      StripKeeps(sys, v);
      ForcedSettlesIff(sys, loggedIn, v, StripVisit(sys, v));
      BareSettlesIff(sys, loggedIn, StripVisit(sys, v));
    }
  }

  lemma NoBounceOnTheWay(sys: System, v: Visit)
    requires HasLocale(v.path) && (!sys.urlFollows || Unrouted(Core(v.path)))
    ensures DomainRedirect(sys.site, v.host, RoutedPath(sys.urlFollows, v.path)).None?
  {
    var routed := RoutedPath(sys.urlFollows, v.path);
    hide DomainRedirect, StripLocale, IsTradePath, StartsWithAny;
    if HasLocale(routed) {
      PrefixedIsUnrouted(sys, v.host, routed);
    } else {
      assert routed == Core(v.path);
      FamiliesDisjoint(routed);
      NoFamilyStays(sys.site, v.host, routed);
    }
  }

  // ---------------------------------------------------------------- with bounces

  lemma AlikeRests(next: Authority -> Option<Authority>, a: Authority, b: Authority, n: nat)
    requires next(a) == next(b)
    ensures Rests(next, a, n) == Rests(next, b, n)
  {
  }

  /** Whether the routed path is the core, or still carries a prefix and is not bounced. */
  lemma RoutedCore(sys: System, v: Visit)
    requires HasLocale(v.path) && sys.urlFollows
    ensures RoutedPath(sys.urlFollows, v.path) == StripLocale(v.path)
    ensures HasLocale(StripLocale(v.path)) ==> DomainRedirect(sys.site, v.host, StripLocale(v.path)).None?
    ensures !HasLocale(StripLocale(v.path)) ==> StripLocale(v.path) == Core(v.path)
  {
    hide DomainRedirect;
    if HasLocale(StripLocale(v.path)) {
      PrefixedIsUnrouted(sys, v.host, StripLocale(v.path));
    }
  }

  /** A settling visit that its page's host routing sends on takes a bounce, or a locale move that keeps the routing;
      the rest of the chain is one shorter. */
  lemma SettlingWebHop(sys: System, loggedIn: string -> bool, v: Visit, k: nat) returns (w: Visit)
    requires Configured(sys) && CleanPath(v.path) && HasLocale(v.path) && sys.urlFollows
    requires Settles(sys, loggedIn, v, k) && WebHop(sys, v.host, Core(v.path)).Some?
    ensures k > 0 && Settles(sys, loggedIn, w, k - 1)
    ensures CleanPath(w.path) && HasLocale(w.path) && Core(w.path) == Core(v.path)
    ensures var next := WebRouter(sys, Core(v.path)); next(v.host) == Some(w.host) || next(v.host) == next(w.host)
  {
    hide Settles, CleanPath, HasLocale, Configured, DomainRedirect, StripLocale, RoutedPath, Core, Forced, StripVisit;
    RoutedCore(sys, v);
    PrefixedIsForced(sys, loggedIn, v);
    if HasLocale(StripLocale(v.path)) {
      w := StripVisit(sys, v);
      StripKeeps(sys, v);
      StripVisitPath(sys, v);
    } else {
      w := Visit(WebHop(sys, v.host, Core(v.path)).value, v.path, v.query, false);
    }
    ForcedSettles(sys, loggedIn, v, w, if k > 0 then k - 1 else 0);
  }

  lemma StripVisitPath(sys: System, v: Visit)
    requires HasLocale(v.path)
    ensures StripVisit(sys, v).path == StripLocale(v.path)
  {
  }

  lemma {:induction false} SettlingWebRests(sys: System, loggedIn: string -> bool, v: Visit, k: nat)
    requires Configured(sys) && CleanPath(v.path) && HasLocale(v.path) && sys.urlFollows
    requires Settles(sys, loggedIn, v, k)
    ensures Rests(WebRouter(sys, Core(v.path)), v.host, k)
    decreases k
  {
    hide Settles, CleanPath, HasLocale, Configured, Core, WebHop;
    var next := WebRouter(sys, Core(v.path));
    if WebHop(sys, v.host, Core(v.path)).Some? {
      var w := SettlingWebHop(sys, loggedIn, v, k);
      SettlingWebRests(sys, loggedIn, w, k - 1);
      hide WebRouter;
      if next(v.host) == next(w.host) {
        AlikeRests(next, w.host, v.host, k - 1);
        RestsLonger(next, v.host, k - 1);
      }
    }
  }

  lemma {:induction false} WebRestingSettles(sys: System, loggedIn: string -> bool, v: Visit, n: nat)
    requires Configured(sys) && CleanPath(v.path) && HasLocale(v.path) && sys.urlFollows && !Unrouted(Core(v.path))
    requires Rests(WebRouter(sys, Core(v.path)), v.host, n)
    ensures SettlesEventually(sys, loggedIn, v)
    decreases |v.path|, n
  {
    hide Settles, CleanPath, HasLocale, Configured, DomainRedirect, StripLocale, RoutedPath, Core, Unrouted;
    var next, core := WebRouter(sys, Core(v.path)), Core(v.path);
    if sys.servedByTrade(v.host) {
      ServedPrefixSettles(sys, loggedIn, v);
    } else {
      RoutedCore(sys, v);
      PrefixedIsForced(sys, loggedIn, v);
      if !HasLocale(StripLocale(v.path)) && WebHop(sys, v.host, core).Some? {
        var w := Visit(WebHop(sys, v.host, core).value, v.path, v.query, false);
        WebRestingSettles(sys, loggedIn, w, n - 1);
        ForcedSettlesIff(sys, loggedIn, v, w);
      } else {
        var w := StripVisit(sys, v);
        StripKeeps(sys, v);
        AlikeRests(next, w.host, v.host, n);
        if HasLocale(w.path) {
          WebRestingSettles(sys, loggedIn, w, n);
        } else {
          assert WebHop(sys, w.host, core).None?;
          ServedWhereItIs(sys, loggedIn, w);
        }
        ForcedSettlesIff(sys, loggedIn, v, w);
      }
    }
  }

  /** An unprefixed URL that host routing keeps settles. */
  lemma ServedWhereItIs(sys: System, loggedIn: string -> bool, w: Visit)
    requires Configured(sys) && CleanPath(w.path) && !HasLocale(w.path) && !Unrouted(w.path)
    requires !sys.servedByTrade(w.host) && WebHop(sys, w.host, w.path).None?
    ensures SettlesEventually(sys, loggedIn, w)
  {
    hide Settles, CleanPath, HasLocale, Configured, DomainRedirect, Unrouted;
    assert Rests(Router(sys, w.path), w.host, 0);
    SettlesIffHostRoutingRests(sys, loggedIn, w);
  }

  // ---------------------------------------------------------------- exactly

  /**
   * A prefixed URL on a host the trade app serves settles at once. On a marketing-app host it settles exactly when the
   * unprefixed visit its locale moves lead to settles; except that, where host routing sees the stripped path, the
   * bounces come first, and they must lead to the trade app or to a host that keeps the page.
   */
  lemma PrefixedSettlesIff(sys: System, loggedIn: string -> bool, v: Visit)
    requires Configured(sys) && CleanPath(v.path) && HasLocale(v.path)
    ensures SettlesEventually(sys, loggedIn, v) <==>
      || sys.servedByTrade(v.host)
      || (if sys.urlFollows && !Unrouted(Core(v.path)) then RestsEventually(WebRouter(sys, Core(v.path)), v.host)
          else SettlesEventually(sys, loggedIn, Bare(sys, v)))
  {
    hide Settles, CleanPath, HasLocale, Configured, DomainRedirect, Unrouted, Core, Bare, Rests, WebRouter;
    if sys.servedByTrade(v.host) {
      ServedPrefixSettles(sys, loggedIn, v);
    } else if sys.urlFollows && !Unrouted(Core(v.path)) {
      if k: nat :| Settles(sys, loggedIn, v, k) {
        SettlingWebRests(sys, loggedIn, v, k);
      }
      if n: nat :| Rests(WebRouter(sys, Core(v.path)), v.host, n) {
        WebRestingSettles(sys, loggedIn, v, n);
      }
    } else {
      BareSettlesIff(sys, loggedIn, v);
    }
  }
}
