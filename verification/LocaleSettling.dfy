/** A browser with locale cookies opening a public page: where it ends up and what language it shows. */
module LocaleSettling {
  import opened Basics
  import opened Strings
  import opened Registry
  import opened WebMiddleware
  import opened PathFamilies
  import opened RoutingChain
  import opened HostFacts
  import opened CookieText
  import opened CookieHeader
  import MiddlewareAnswers

  // ---------------------------------------------------------------- the jar

  /** Locale cookies by scope: for one host only, or for a brand domain and everything below it; and other pairs. */
  datatype Jar = Jar(others: seq<string>, hostOnly: map<string, string>, domainWide: map<string, string>)

  predicate PlainValue(v: string) { ';' !in v && ' ' !in v }

  ghost predicate JarOk(jar: Jar) {
    && (forall i :: 0 <= i < |jar.others| ==> IsPair(jar.others[i]) && !(MARK <= jar.others[i]))
    && (forall h :: h in jar.hostOnly ==> PlainValue(jar.hostOnly[h]))
    && (forall d :: d in jar.domainWide ==> PlainValue(jar.domainWide[d]))
  }

  function Wide(jar: Jar, domains: seq<string>, name: string): seq<string> {
    if domains == [] then []
    else (if WithinApex(name, domains[0]) && domains[0] in jar.domainWide then [jar.domainWide[domains[0]]] else [])
         + Wide(jar, domains[1..], name)
  }

  /** The NEXT_LOCALE values the browser sends to a host, listed by scope. */
  function LocaleValues(jar: Jar, site: Site, host: string): seq<string> {
    var name := StripPort(host);
    (if name in jar.hostOnly then [jar.hostOnly[name]] else []) + Wide(jar, site.domains, name)
  }

  function Marked(vs: seq<string>): (ps: seq<string>)
    ensures |ps| == |vs|
  {
    if vs == [] then [] else [MARK + vs[0]] + Marked(vs[1..])
  }

  /** What the browser sends, in no particular order. */
  function Sent(jar: Jar, site: Site, host: string): seq<string> {
    jar.others + Marked(LocaleValues(jar, site, host))
  }

  /** The NEXT_LOCALE values of a header, in order. */
  function Texts(ps: seq<string>): seq<string> {
    if ps == [] then []
    else (if MARK <= ps[0] then [ps[0][|MARK|..]] else []) + Texts(ps[1..])
  }

  /** The value the cookie API hands out when a name is sent more than once: the first or the last. */
  function Read(vs: seq<string>, last: bool): Option<string> {
    if vs == [] then None else Some(vs[if last then |vs| - 1 else 0])
  }

  /** Both Set-Cookie headers of a locale write, as the browser applies them. */
  function Stamp(jar: Jar, site: Site, host: string, locale: string): Jar {
    var name := StripPort(host);
    var d := CookieDomain(site.domains, RequestHost(site, host));
    jar.(hostOnly := jar.hostOnly[name := locale],
         domainWide :=
           if d.Some? && WithinApex(name, d.value) then jar.domainWide[d.value := locale] else jar.domainWide)
  }

  /** A recognised host with a plain name, in a deployment of normalised brand domains. */
  ghost predicate Owned(site: Site, host: Authority) {
    && RequestHost(site, host) == host && PlainName(StripPort(host))
    && forall d :: d in site.domains ==> PlainName(d) && NormalizeHost(d) == d
  }

  /** A brand domain above the host, other than the one a locale write goes to, holds another locale. */
  ghost predicate StaleElsewhere(jar: Jar, site: Site, host: string, locale: string) {
    exists d ::
      && d in site.domains && WithinApex(StripPort(host), d) && CookieDomain(site.domains, host) != Some(d)
      && d in jar.domainWide && jar.domainWide[d] != locale
  }

  // ---------------------------------------------------------------- opening a page

  datatype Page = Page(jar: Jar, path: string, cookie: string)

  /** Follows at most `fuel` redirects on one host; the page carries the URL shown and the Cookie header rendered.
      `arrange` is the order the browser sends its cookies in. */
  function Load(site: Site, urlFollows: bool, last: bool, loggedIn: bool, arrange: seq<string> -> seq<string>,
                jar: Jar, host: Authority, path: string, query: string, fuel: nat): Option<Page>
    decreases fuel
  {
    var pairs := arrange(Sent(jar, site, host));
    match AuthHandler(site, urlFollows, Request(host, path, query, Read(Texts(pairs), last), false, loggedIn, true))
    case Pass => Some(Page(jar, path, Join(pairs)))
    case Refuse(_) => None
    case Redirect(_, t, stamped) =>
      if fuel == 0 || t.host != host then None
      else
        var jar' := if stamped.Some? then Stamp(jar, site, host, stamped.value) else jar;
        Load(site, urlFollows, last, loggedIn, arrange, jar', host, t.path, t.query, fuel - 1)
    case Rewrite(t, locale) =>
      var inner := Request(host, t.path, t.query, Some(locale), true, loggedIn, true);
      if AuthHandler(site, urlFollows, inner).Pass?
      then Some(Page(Stamp(jar, site, host, locale), path, InjectLocale(Join(pairs), locale)))
      else None
  }

  /** A page that host routing keeps where it is and that needs no sign-in. */
  predicate PublicPage(site: Site, host: string, core: string) {
    && !HasLocale(core)
    && DomainRedirect(site, host, core).None? && !OnTradeHost(site, host)
    && !IsStatic(core) && !IsApi(core) && !GuestOnly(core) && !StartsWithAny(core, PROTECTED_PAGES)
  }

  /** The language a URL stands for. */
  function UrlLocale(path: string): string {
    if HasLocale(path) then LocaleOf(path) else DEFAULT_LOCALE
  }

  predicate Localises(c: Option<string>) {
    c.Some? && c.value in LOCALES && c.value != DEFAULT_LOCALE
  }

  // ---------------------------------------------------------------- what is sent

  lemma {:induction false} MarkedArePairs(vs: seq<string>)
    requires forall i :: 0 <= i < |vs| ==> PlainValue(vs[i])
    ensures ArePairs(Marked(vs)) && Texts(Marked(vs)) == vs
  {
    if vs != [] {
      MarkedArePairs(vs[1..]);
      assert PlainValue(vs[0]) && IsPair(MARK + vs[0]);
      assert (MARK + vs[0])[|MARK|..] == vs[0];
    }
  }

  lemma {:induction false} TextsConcat(others: seq<string>, ps: seq<string>)
    requires forall i :: 0 <= i < |others| ==> !(MARK <= others[i])
    ensures Texts(others + ps) == Texts(ps)
  {
    if others == [] {
      assert others + ps == ps;
    } else {
      TextsConcat(others[1..], ps);
      assert (others + ps)[1..] == others[1..] + ps;
    }
  }

  lemma {:induction false} WideIsPlain(jar: Jar, domains: seq<string>, name: string)
    requires JarOk(jar)
    ensures forall i :: 0 <= i < |Wide(jar, domains, name)| ==> PlainValue(Wide(jar, domains, name)[i])
  {
    if domains != [] {
      WideIsPlain(jar, domains[1..], name);
    }
  }

  lemma SentArePairs(jar: Jar, site: Site, host: string)
    requires JarOk(jar)
    ensures ArePairs(Sent(jar, site, host)) && Texts(Sent(jar, site, host)) == LocaleValues(jar, site, host)
  {
    WideIsPlain(jar, site.domains, StripPort(host));
    MarkedArePairs(LocaleValues(jar, site, host));
    TextsConcat(jar.others, Marked(LocaleValues(jar, site, host)));
  }

  /** The values of a header are those of its marked pairs. */
  lemma {:induction false} TextsMembers(ps: seq<string>)
    ensures forall v :: v in Texts(ps) <==> MARK + v in ps
  {
    if ps != [] {
      TextsMembers(ps[1..]);
      assert ps == [ps[0]] + ps[1..];
      if MARK <= ps[0] {
        assert ps[0] == MARK + ps[0][|MARK|..];
      }
      forall v ensures MARK + v == ps[0] <==> MARK <= ps[0] && v == ps[0][|MARK|..] {
        assert (MARK + v)[|MARK|..] == v;
      }
    }
  }

  /** What request.ts finds: the first value, up to a further equals sign. */
  lemma {:induction false} FirstOfTexts(ps: seq<string>)
    ensures FirstLocale(ps) == if Texts(ps) == [] then None else Some(Before(Texts(ps)[0], '='))
  {
    if ps != [] && !(MARK <= ps[0]) {
      FirstOfTexts(ps[1..]);
    }
  }

  /** What is sent for the brand domains: the cookies of those above the host. */
  lemma {:induction false} WideMembers(jar: Jar, domains: seq<string>, name: string)
    ensures forall v :: v in Wide(jar, domains, name) <==>
      exists d :: d in domains && WithinApex(name, d) && d in jar.domainWide && jar.domainWide[d] == v
  {
    if domains != [] {
      WideMembers(jar, domains[1..], name);
      assert domains == [domains[0]] + domains[1..];
    }
  }

  lemma WwwIsBelow(name: string, d: string)
    requires "www." <= name && !("www." <= d)
    ensures WithinApex(name, d) <==> WithinApex(name[4..], d)
  {
    var n := name[4..];
    if EndsWith(name, "." + d) {
      var k := |name| - |d| - 1;
      assert name[k..] == "." + d && name[k] == '.';
      assert k >= 3;
      if k == 3 {
        assert n == d;
      } else {
        assert n[k - 4..] == name[k..];
      }
    }
    if n == d {
      assert name[3..] == "." + d;
    } else if EndsWith(n, "." + d) {
      assert name[|name| - |d| - 1..] == n[|n| - |d| - 1..];
    }
  }

  lemma NormalisedHasNoWww(d: string)
    requires PlainName(d) && NormalizeHost(d) == d
    ensures !("www." <= d)
  {
  }

  lemma RoutedName(host: Authority)
    requires PlainName(StripPort(host))
    ensures var name := StripPort(host); NormalizeHost(host) == if "www." <= name then name[4..] else name
  {
    assert WithHostname(host, StripPort(host)) == host;
    PlainWithPortIsTrimmed(host, StripPort(host));
  }

  lemma CoveredAlike(site: Site, host: Authority, d: string)
    requires Owned(site, host) && d in site.domains
    ensures WithinApex(NormalizeHost(host), d) <==> WithinApex(StripPort(host), d)
  {
    RoutedName(host);
    NormalisedHasNoWww(d);
    if "www." <= StripPort(host) {
      WwwIsBelow(StripPort(host), d);
    }
  }

  /** The dot-domain of a host's locale cookie is the first brand domain at or above the host, if there is one. */
  lemma CookieDomainCovers(site: Site, host: Authority)
    requires Owned(site, host)
    ensures var name, r := StripPort(host), CookieDomain(site.domains, host);
      && (r.None? <==> forall d :: d in site.domains ==> !WithinApex(name, d))
      && (r.Some? ==> exists k ::
            && 0 <= k < |site.domains| && site.domains[k] == r.value && WithinApex(name, site.domains[k])
            && forall j :: 0 <= j < k ==> !WithinApex(name, site.domains[j]))
  {
    hide NormalizeHost, WithinApex, StripPort, Owned;
    forall d | d in site.domains
      ensures WithinApex(NormalizeHost(host), d) <==> WithinApex(StripPort(host), d)
    {
      CoveredAlike(site, host, d);
    }
  }

  /** A write sets the host's own cookie and that of its cookie domain. */
  lemma StampedValues(jar: Jar, site: Site, host: Authority, locale: string)
    requires Owned(site, host)
    ensures var jar', cd := Stamp(jar, site, host, locale), CookieDomain(site.domains, host);
      && jar'.domainWide == (if cd.Some? then jar.domainWide[cd.value := locale] else jar.domainWide)
      && LocaleValues(jar', site, host) == [locale] + Wide(jar', site.domains, StripPort(host))
  {
    hide NormalizeHost, WithinApex, StripPort, CookieDomain, HostIsTrusted;
    CookieDomainCovers(site, host);
  }

  lemma AllWideIff(jar: Jar, domains: seq<string>, name: string, locale: string)
    ensures (forall v :: v in Wide(jar, domains, name) ==> v == locale) <==>
      forall d :: d in domains && WithinApex(name, d) && d in jar.domainWide ==> jar.domainWide[d] == locale
  {
    hide WithinApex;
    WideMembers(jar, domains, name);
    hide Wide;
    forall d | d in domains && WithinApex(name, d) && d in jar.domainWide
      ensures jar.domainWide[d] in Wide(jar, domains, name)
    {
    }
  }

  lemma StaleIff(jar: Jar, site: Site, host: Authority, locale: string)
    requires Owned(site, host)
    ensures (forall v :: v in Wide(Stamp(jar, site, host, locale), site.domains, StripPort(host)) ==> v == locale)
      <==> !StaleElsewhere(jar, site, host, locale)
  {
    StampedValues(jar, site, host, locale);
    AllWideIff(Stamp(jar, site, host, locale), site.domains, StripPort(host), locale);
    hide Stamp, Wide, WithinApex, StripPort, CookieDomain, Owned, LocaleValues;
  }

  /** After a locale write the first NEXT_LOCALE value sent back to the host is the written one; all of them are
      exactly when no other brand domain above the host holds another locale. */
  lemma StampedLocaleIsSent(jar: Jar, site: Site, host: Authority, locale: string)
    requires Owned(site, host)
    ensures var vs := LocaleValues(Stamp(jar, site, host, locale), site, host);
      && vs != [] && vs[0] == locale
      && ((forall i :: 0 <= i < |vs| ==> vs[i] == locale) <==> !StaleElsewhere(jar, site, host, locale))
  {
    hide *;
    StampedValues(jar, site, host, locale);
    StaleIff(jar, site, host, locale);
    SameThroughout(locale, Wide(Stamp(jar, site, host, locale), site.domains, StripPort(host)));
  }

  lemma SameThroughout(x: string, ws: seq<string>)
    ensures var vs := [x] + ws; (forall i :: 0 <= i < |vs| ==> vs[i] == x) <==> forall v :: v in ws ==> v == x
  {
    var vs := [x] + ws;
    if forall i :: 0 <= i < |vs| ==> vs[i] == x {
      forall v | v in ws ensures v == x {
        var k :| 0 <= k < |ws| && ws[k] == v;
        assert vs[k + 1] == v;
      }
    }
    if forall v :: v in ws ==> v == x {
      forall i | 0 <= i < |vs| ensures vs[i] == x {
        assert i > 0 ==> vs[i] in ws;
      }
    }
  }

  // ---------------------------------------------------------------- one answer at a time

  lemma ApisAreBelowApi(path: string)
    requires StartsWithAny(path, PROTECTED_APIS)
    ensures IsApi(path)
  {
    var p :| p in PROTECTED_APIS && p <= path;
    assert "/api/" <= p;
  }

  lemma UnprefixedAnswer(site: Site, urlFollows: bool, req: Request)
    requires CleanPath(req.path) && PublicPage(site, req.host, req.path)
    requires IsAuthority(req.host) && RequestHost(site, req.host) == req.host
    ensures AuthHandler(site, urlFollows, req)
      == if Localises(req.cookieLocale) && !req.resolved
         then Redirect(307, Url(req.host, "/" + req.cookieLocale.value + req.path, req.query), None)
         else Pass
  {
    UnprefixedMoves(site, urlFollows, req);
    if StartsWithAny(req.path, PROTECTED_APIS) {
      ApisAreBelowApi(req.path);
    }
  }

  lemma PrefixedAnswer(site: Site, urlFollows: bool, req: Request, locale: string, core: string)
    requires CleanPath(core) && PublicPage(site, req.host, core)
    requires IsAuthority(req.host) && RequestHost(site, req.host) == req.host
    requires locale in LOCALES && req.path == "/" + locale + core
    ensures AuthHandler(site, urlFollows, req)
      == if locale == DEFAULT_LOCALE then Redirect(308, Url(req.host, core, req.query), Some(DEFAULT_LOCALE))
         else Rewrite(Url(req.host, core, req.query), locale)
  {
    PrefixThenStrip(locale, core);
    FamiliesDisjoint(req.path);
    LocaleMoves(site, urlFollows, req);
  }

  // ---------------------------------------------------------------- opening a page

  /** What a page load stays with: the deployment, the host, the page, the visitor and the browser's cookie order. */
  datatype Setting = Setting(
    site: Site, urlFollows: bool, last: bool, loggedIn: bool, arrange: seq<string> -> seq<string>,
    host: Authority, core: string, query: string)
  {
    function Open(jar: Jar, path: string, fuel: nat): Option<Page> {
      Load(site, urlFollows, last, loggedIn, arrange, jar, host, path, query, fuel)
    }

    predicate Here() {
      RequestHost(site, host) == host && CleanPath(core) && PublicPage(site, host, core)
    }

    /** Cookies are sent in some order. */
    ghost predicate Arranges() {
      forall ps: seq<string> :: multiset(arrange(ps)) == multiset(ps)
    }

    ghost predicate Ok(jar: Jar) {
      JarOk(jar) && Owned(site, host) && Here() && Arranges()
    }

    /** The pairs of the Cookie header, in the order sent. */
    function Pairs(jar: Jar): seq<string> { arrange(Sent(jar, site, host)) }

    function Values(jar: Jar): seq<string> { Texts(Pairs(jar)) }

    function Cookie(jar: Jar): string { Join(Pairs(jar)) }
  }

  lemma PairsAreSent(s: Setting, jar: Jar)
    requires s.Arranges()
    ensures forall p :: p in s.Pairs(jar) <==> p in Sent(jar, s.site, s.host)
  {
    var ps, sent := s.Pairs(jar), Sent(jar, s.site, s.host);
    assert multiset(ps) == multiset(sent);
    forall p ensures p in ps <==> p in sent {
      assert p in multiset(ps) <==> p in multiset(sent);
    }
  }

  /** Whatever the order, the header is made of pairs and holds the values of the jar. */
  lemma HeaderFacts(s: Setting, jar: Jar)
    requires JarOk(jar) && s.Arranges()
    ensures ArePairs(s.Pairs(jar))
    ensures forall v :: v in s.Values(jar) <==> v in LocaleValues(jar, s.site, s.host)
  {
    SentArePairs(jar, s.site, s.host);
    PairsAreSent(s, jar);
    TextsMembers(s.Pairs(jar));
    TextsMembers(Sent(jar, s.site, s.host));
    var ps, sent := s.Pairs(jar), Sent(jar, s.site, s.host);
    hide Sent, LocaleValues, Texts, IsPair, JarOk;
    forall i | 0 <= i < |ps| ensures IsPair(ps[i]) {
      assert ps[i] in sent;
    }
  }

  /** Cookies sent by scope, host-only first, are read by scope. */
  lemma SentInOrder(s: Setting, jar: Jar)
    requires JarOk(jar) && s.Pairs(jar) == Sent(jar, s.site, s.host)
    ensures s.Values(jar) == LocaleValues(jar, s.site, s.host)
  {
    SentArePairs(jar, s.site, s.host);
  }

  /** The locale a page renders in that is served with the header as it is. */
  function HeaderLocale(s: Setting, jar: Jar, accepted: string): string {
    if s.Values(jar) == [] then accepted else NormalizeLocale(Before(s.Values(jar)[0], '='))
  }

  lemma HeaderRenders(s: Setting, jar: Jar, accepted: string)
    requires JarOk(jar) && s.Arranges()
    ensures Rendered(s.Cookie(jar), accepted) == HeaderLocale(s, jar, accepted)
  {
    HeaderFacts(s, jar);
    FirstOfTexts(s.Pairs(jar));
    hide Setting.Pairs, JarOk, Rendered, FirstLocale, Texts, NormalizeLocale;
    RenderedOf(s.Pairs(jar), accepted);
  }

  /** Whether a page of another locale speaks it: the edit reaches the locale cookie, or need not. */
  predicate PrefixAgrees(s: Setting, jar: Jar, locale: string, accepted: string) {
    MarkerIsOurs(MARK, s.Pairs(jar)) || locale == HeaderLocale(s, jar, accepted)
  }

  lemma PrefixedRendersIff(s: Setting, jar: Jar, locale: string, accepted: string)
    requires s.Ok(jar) && locale in LOCALES
    ensures Rendered(InjectLocale(s.Cookie(jar), locale), accepted) == locale
      <==> PrefixAgrees(s, jar, locale, accepted)
    ensures var path := "/" + locale + s.core; HasLocale(path) && LocaleOf(path) == locale
  {
    PrefixThenStrip(locale, s.core);
    HeaderFacts(s, jar);
    HeaderRenders(s, jar, accepted);
    hide Setting.Pairs, Setting.Here, JarOk, Owned, Rendered, MarkerIsOurs, HeaderLocale, HasLocale, LocaleOf;
    if MarkerIsOurs(MARK, s.Pairs(jar)) {
      InjectedLocaleRenders(s.Pairs(jar), locale, accepted);
    } else {
      MisplacedEditKeepsLocale(s.Pairs(jar), locale, accepted);
    }
  }

  lemma RewrittenPageLoads(s: Setting, jar: Jar, path: string, inner: string, locale: string, fuel: nat)
    requires AuthHandler(s.site, s.urlFollows,
                         Request(s.host, path, s.query, Read(s.Values(jar), s.last), false, s.loggedIn, true))
      == Rewrite(Url(s.host, inner, s.query), locale)
    requires AuthHandler(s.site, s.urlFollows,
                         Request(s.host, inner, s.query, Some(locale), true, s.loggedIn, true)) == Pass
    ensures s.Open(jar, path, fuel)
      == Some(Page(Stamp(jar, s.site, s.host, locale), path, InjectLocale(s.Cookie(jar), locale)))
  {
  }

  lemma OpenPrefixed(s: Setting, jar: Jar, locale: string, fuel: nat)
    requires s.Here() && locale in LOCALES && locale != DEFAULT_LOCALE
    ensures var path := "/" + locale + s.core;
      s.Open(jar, path, fuel)
      == Some(Page(Stamp(jar, s.site, s.host, locale), path, InjectLocale(s.Cookie(jar), locale)))
  {
    var path := "/" + locale + s.core;
    var outer := Request(s.host, path, s.query, Read(s.Values(jar), s.last), false, s.loggedIn, true);
    PrefixedAnswer(s.site, s.urlFollows, outer, locale, s.core);
    UnprefixedAnswer(s.site, s.urlFollows, Request(s.host, s.core, s.query, Some(locale), true, s.loggedIn, true));
    RewrittenPageLoads(s, jar, path, s.core, locale, fuel);
  }

  lemma OpenUnprefixed(s: Setting, jar: Jar, fuel: nat)
    requires s.Here()
    ensures var c := Read(s.Values(jar), s.last);
      s.Open(jar, s.core, fuel)
      == if !Localises(c) then Some(Page(jar, s.core, s.Cookie(jar)))
         else if fuel == 0 then None
         else s.Open(jar, "/" + c.value + s.core, fuel - 1)
  {
    var c := Read(s.Values(jar), s.last);
    UnprefixedAnswer(s.site, s.urlFollows, Request(s.host, s.core, s.query, c, false, s.loggedIn, true));
  }

  /** An asset is served at its own URL, whatever locale cookies are sent. */
  lemma OpenAsset(s: Setting, jar: Jar, path: string, fuel: nat)
    requires RequestHost(s.site, s.host) == s.host && CleanPath(path) && !HasLocale(path)
    requires DomainRedirect(s.site, s.host, path).None? && MiddlewareAnswers.IsAsset(path)
    ensures s.Open(jar, path, fuel) == Some(Page(jar, path, s.Cookie(jar)))
  {
    var req := Request(s.host, path, s.query, Read(s.Values(jar), s.last), false, s.loggedIn, true);
    MiddlewareAnswers.AssetPasses(s.site, s.urlFollows, req);
    hide AuthHandler, DomainRedirect, RequestHost, CleanPath, HasLocale, Sent, Texts;
  }

  lemma StampedJarIsOk(jar: Jar, site: Site, host: string, locale: string)
    requires JarOk(jar) && locale in LOCALES
    ensures JarOk(Stamp(jar, site, host, locale))
  {
    LocaleIsPlain(locale);
  }

  /** The locale cookie the middleware reads on the bare page, after the prefixed default locale was asked for. */
  function AfterDefault(s: Setting, jar: Jar): Option<string> {
    Read(s.Values(Stamp(jar, s.site, s.host, DEFAULT_LOCALE)), s.last)
  }

  /** It is the default one, unless a brand domain above holds another; sent by scope, the first value is the default
      one in any case. */
  lemma StampedDefaultStays(s: Setting, jar: Jar)
    requires s.Ok(jar)
    ensures var jar' := Stamp(jar, s.site, s.host, DEFAULT_LOCALE);
      && DEFAULT_LOCALE in s.Values(jar')
      && (!StaleElsewhere(jar, s.site, s.host, DEFAULT_LOCALE) ==>
            && AfterDefault(s, jar) == Some(DEFAULT_LOCALE)
            && forall accepted :: HeaderLocale(s, jar', accepted) == DEFAULT_LOCALE)
      && (s.Pairs(jar') == Sent(jar', s.site, s.host) ==>
            s.Values(jar')[0] == DEFAULT_LOCALE && (!s.last ==> AfterDefault(s, jar) == Some(DEFAULT_LOCALE)))
  {
    hide *;
    var jar' := Stamp(jar, s.site, s.host, DEFAULT_LOCALE);
    OkParts(s, jar);
    StampedHeader(s, jar);
    if !StaleElsewhere(jar, s.site, s.host, DEFAULT_LOCALE) {
      DefaultThroughout(s, jar');
    }
    if s.Pairs(jar') == Sent(jar', s.site, s.host) {
      StampedJarIsOk(jar, s.site, s.host, DEFAULT_LOCALE);
      SentInOrder(s, jar');
      StampedLocaleIsSent(jar, s.site, s.host, DEFAULT_LOCALE);
    }
    AfterDefaultReads(s, jar);
  }

  lemma OkParts(s: Setting, jar: Jar)
    requires s.Ok(jar)
    ensures JarOk(jar) && Owned(s.site, s.host) && s.Arranges() && DEFAULT_LOCALE in LOCALES
  {
  }

  lemma AfterDefaultReads(s: Setting, jar: Jar)
    ensures var vs := s.Values(Stamp(jar, s.site, s.host, DEFAULT_LOCALE));
      AfterDefault(s, jar) == Read(vs, s.last) && (vs != [] && !s.last ==> Read(vs, s.last) == Some(vs[0]))
  {
    hide Stamp, Setting.Values;
  }

  lemma StampedHeader(s: Setting, jar: Jar)
    requires s.Ok(jar)
    ensures var vs := s.Values(Stamp(jar, s.site, s.host, DEFAULT_LOCALE));
      && DEFAULT_LOCALE in vs
      && (!StaleElsewhere(jar, s.site, s.host, DEFAULT_LOCALE) ==> forall v :: v in vs ==> v == DEFAULT_LOCALE)
  {
    hide *;
    OkParts(s, jar);
    StampedJarIsOk(jar, s.site, s.host, DEFAULT_LOCALE);
    StampedLocaleIsSent(jar, s.site, s.host, DEFAULT_LOCALE);
    HeaderFacts(s, Stamp(jar, s.site, s.host, DEFAULT_LOCALE));
  }

  lemma DefaultThroughout(s: Setting, jar: Jar)
    requires DEFAULT_LOCALE in s.Values(jar) && forall v :: v in s.Values(jar) ==> v == DEFAULT_LOCALE
    ensures Read(s.Values(jar), s.last) == Some(DEFAULT_LOCALE)
    ensures forall accepted :: HeaderLocale(s, jar, accepted) == DEFAULT_LOCALE
  {
    hide Setting.Values, NormalizeLocale, Before;
    var vs := s.Values(jar);
    assert vs != [] && vs[0] in vs && vs[|vs| - 1] in vs;
    LocaleIsPlain(DEFAULT_LOCALE);
    BeforeAppend(DEFAULT_LOCALE, "", '=');
    assert DEFAULT_LOCALE + "" == DEFAULT_LOCALE;
  }

  /** The prefixed default locale moves to the bare page. */
  lemma OpenDefault(s: Setting, jar: Jar, fuel: nat)
    requires s.Here() && fuel >= 1
    ensures s.Open(jar, "/" + DEFAULT_LOCALE + s.core, fuel)
      == s.Open(Stamp(jar, s.site, s.host, DEFAULT_LOCALE), s.core, fuel - 1)
  {
    var path := "/" + DEFAULT_LOCALE + s.core;
    var req := Request(s.host, path, s.query, Read(s.Values(jar), s.last), false, s.loggedIn, true);
    PrefixedAnswer(s.site, s.urlFollows, req, DEFAULT_LOCALE, s.core);
  }

  function Localised(c: Option<string>, core: string): string {
    if Localises(c) then "/" + c.value + core else core
  }

  /** Where the visitor ends up. */
  function SettledPath(s: Setting, jar: Jar, prefix: Option<string>): string {
    match prefix
    case Some(l) => if l == DEFAULT_LOCALE then Localised(AfterDefault(s, jar), s.core) else "/" + l + s.core
    case None => Localised(Read(s.Values(jar), s.last), s.core)
  }

  /** The bare page: it moves to the locale of the cookie read, or renders with the header as it is. */
  predicate BareAgrees(s: Setting, jar: Jar, accepted: string) {
    var c := Read(s.Values(jar), s.last);
    if Localises(c) then PrefixAgrees(s, jar, c.value, accepted) else DEFAULT_LOCALE == HeaderLocale(s, jar, accepted)
  }

  /** Whether the shown page speaks the language its URL stands for; decided by the cookies of the first request. */
  predicate LanguagesAgree(s: Setting, jar: Jar, prefix: Option<string>, accepted: string) {
    match prefix
    case None => BareAgrees(s, jar, accepted)
    case Some(l) =>
      if l == DEFAULT_LOCALE then BareAgrees(s, Stamp(jar, s.site, s.host, DEFAULT_LOCALE), accepted)
      else PrefixAgrees(s, jar, l, accepted)
  }

  function Asked(s: Setting, prefix: Option<string>): string {
    if prefix.Some? then "/" + prefix.value + s.core else s.core
  }

  /** What loading a page comes to: a URL that a reload keeps, and whether it speaks its language. */
  ghost predicate SettlesOn(s: Setting, r: Option<Page>, path: string, accepted: string, agree: bool) {
    && r.Some? && r.value.path == path
    && (UrlLocale(path) == Rendered(r.value.cookie, accepted) <==> agree)
    && s.Open(r.value.jar, path, 0).Some? && s.Open(r.value.jar, path, 0).value.path == path
  }

  /** A prefixed page of another locale. */
  lemma PrefixedSettles(s: Setting, jar: Jar, locale: string, accepted: string, fuel: nat)
    requires s.Ok(jar) && locale in LOCALES && locale != DEFAULT_LOCALE
    ensures var path := "/" + locale + s.core;
      SettlesOn(s, s.Open(jar, path, fuel), path, accepted, PrefixAgrees(s, jar, locale, accepted))
  {
    hide Load, Stamp, JarOk, Owned, PrefixAgrees, Rendered, InjectLocale, HasLocale, LocaleOf, Setting.Cookie;
    OpenPrefixed(s, jar, locale, fuel);
    PrefixedRendersIff(s, jar, locale, accepted);
    OpenPrefixed(s, Stamp(jar, s.site, s.host, locale), locale, 0);
  }

  lemma BareUrlLocale(s: Setting)
    requires s.Here()
    ensures UrlLocale(s.core) == DEFAULT_LOCALE
  {
  }

  /** The bare page, when the cookie read does not move it. */
  lemma StayingSettles(s: Setting, jar: Jar, accepted: string, fuel: nat)
    requires s.Ok(jar) && !Localises(Read(s.Values(jar), s.last))
    ensures SettlesOn(s, s.Open(jar, s.core, fuel), s.core, accepted, BareAgrees(s, jar, accepted))
  {
    BareUrlLocale(s);
    hide Load, Rendered, Owned, JarOk, Localises, HeaderLocale, UrlLocale, Setting.Values, Setting.Cookie, Setting.Here;
    OpenUnprefixed(s, jar, fuel);
    OpenUnprefixed(s, jar, 0);
    HeaderRenders(s, jar, accepted);
  }

  /** The bare page. */
  lemma BareSettles(s: Setting, jar: Jar, accepted: string, fuel: nat)
    requires s.Ok(jar) && fuel >= 1
    ensures var c := Read(s.Values(jar), s.last);
      SettlesOn(s, s.Open(jar, s.core, fuel), Localised(c, s.core), accepted, BareAgrees(s, jar, accepted))
    ensures s.Open(jar, s.core, 0).Some? <==> !Localises(Read(s.Values(jar), s.last))
  {
    hide Load, Owned, JarOk, SettlesOn, Read, PrefixAgrees, HeaderLocale, Setting.Values, Setting.Here, Setting.Cookie;
    var c := Read(s.Values(jar), s.last);
    OpenUnprefixed(s, jar, fuel);
    OpenUnprefixed(s, jar, 0);
    if Localises(c) {
      PrefixedSettles(s, jar, c.value, accepted, fuel - 1);
    } else {
      StayingSettles(s, jar, accepted, fuel);
    }
  }

  /** The prefixed default locale. */
  lemma DefaultSettles(s: Setting, jar: Jar, accepted: string)
    requires s.Ok(jar)
    ensures var path, c := "/" + DEFAULT_LOCALE + s.core, AfterDefault(s, jar);
      && SettlesOn(s, s.Open(jar, path, 2), Localised(c, s.core), accepted,
                   BareAgrees(s, Stamp(jar, s.site, s.host, DEFAULT_LOCALE), accepted))
      && (s.Open(jar, path, 1).Some? <==> !Localises(c))
  {
    hide Load, SettlesOn, Owned, JarOk, Stamp, Localised, Localises, BareAgrees, Setting.Values, Setting.Here;
    var jar' := Stamp(jar, s.site, s.host, DEFAULT_LOCALE);
    OpenDefault(s, jar, 1);
    OpenDefault(s, jar, 2);
    StampedJarIsOk(jar, s.site, s.host, DEFAULT_LOCALE);
    BareSettles(s, jar', accepted, 1);
  }

  /**
   * A public page, asked for with at most one locale prefix, settles on a URL that a reload keeps; the URL's
   * language is the rendered one exactly under `LanguagesAgree`. It takes at most one redirect, except when the
   * default locale was asked for and another brand domain's cookie moves the bare page on.
   */
  lemma PublicPageSettles(s: Setting, jar: Jar, prefix: Option<string>, accepted: string)
    requires s.Ok(jar) && (prefix.Some? ==> prefix.value in LOCALES)
    ensures SettlesOn(s, s.Open(jar, Asked(s, prefix), 2), SettledPath(s, jar, prefix), accepted,
                      LanguagesAgree(s, jar, prefix, accepted))
    ensures s.Open(jar, Asked(s, prefix), 1).Some?
      <==> !(prefix == Some(DEFAULT_LOCALE) && Localises(AfterDefault(s, jar)))
  {
    hide Load, Owned, JarOk, Stamp, Localised, Rendered, Localises, BareAgrees, PrefixAgrees;
    hide Setting.Values, Setting.Here;
    if prefix.None? {
      BareSettles(s, jar, accepted, 1);
      BareSettles(s, jar, accepted, 2);
    } else if prefix.value == DEFAULT_LOCALE {
      DefaultSettles(s, jar, accepted);
    } else {
      PrefixedSettles(s, jar, prefix.value, accepted, 1);
      PrefixedSettles(s, jar, prefix.value, accepted, 2);
    }
  }
}
