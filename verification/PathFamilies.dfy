/** The path families of the two apps: disjoint from each other and from the locale prefixes. */
module PathFamilies {
  import opened WebMiddleware
  import opened TradeMiddleware

  predicate TradeHead(c: char, d: char) {
    || (c == 'l' && d == 'o') || (c == 'r' && d == 'e') || (c == 'f' && d == 'o') || (c == 'v' && d == 'e')
    || (c == 't' && d == 'r') || (c == 'a' && d in {'c', 'd', 'p'})
  }

  predicate MarketingHead(c: char, d: char) {
    || (c == 'a' && d in {'b', 'n', 'm'}) || (c == 'c' && d == 'o') || (c == 't' && d in {'o', 'e'})
    || (c == 'e' && d == 'd') || (c == 'l' && d == 'e') || (c == 'd' && d == 'o') || (c == 'b' && d == 'r')
    || (c == 'p' && d == 'r') || (c == 'k' && d == 'y')
  }

  /** The two characters after the slash decide the family, and the next one is not a slash. */
  lemma TradePathHead(path: string, p: string)
    requires p in TRADE_DOMAIN_PREFIXES && Under(path, p)
    ensures |path| >= 4 && path[0] == '/' && TradeHead(path[1], path[2]) && path[3] != '/'
  {
    assert |p| >= 4 && p[0] == '/' && TradeHead(p[1], p[2]) && p[3] != '/';
    assert p <= path;
  }

  lemma MarketingPathHead(path: string, p: string)
    requires p in MARKETING_DOMAIN_PREFIXES + MARKETING_PREFIXES && Under(path, p)
    ensures |path| >= 4 && path[0] == '/' && MarketingHead(path[1], path[2]) && path[3] != '/'
  {
    assert |p| >= 4 && p[0] == '/' && MarketingHead(p[1], p[2]) && p[3] != '/';
    assert p <= path;
  }

  lemma ProtectedPathHead(path: string, p: string)
    requires p in PROTECTED_PAGES && p <= path
    ensures |path| >= 3 && TradeHead(path[1], path[2])
  {
    assert |p| >= 3 && TradeHead(p[1], p[2]);
  }

  predicate Bounced(path: string) {
    IsMarketingPath(path) || TradeBounces(path)
  }

  lemma TradeFamilyHead(path: string)
    requires IsTradePath(path)
    ensures |path| >= 4 && path[0] == '/' && TradeHead(path[1], path[2]) && path[3] != '/'
  {
    var p :| p in TRADE_DOMAIN_PREFIXES && Under(path, p);
    TradePathHead(path, p);
  }

  lemma BouncedHead(path: string)
    requires Bounced(path) && path != "/"
    ensures |path| >= 4 && path[0] == '/' && MarketingHead(path[1], path[2]) && path[3] != '/'
  {
    var q :| q in MARKETING_DOMAIN_PREFIXES + MARKETING_PREFIXES && Under(path, q);
    MarketingPathHead(path, q);
  }

  lemma GuestOrProtectedHead(path: string)
    requires StartsWithAny(path, PROTECTED_PAGES) || GuestOnly(path)
    ensures |path| >= 3 && TradeHead(path[1], path[2])
  {
    if StartsWithAny(path, PROTECTED_PAGES) {
      var r :| r in PROTECTED_PAGES && r <= path;
      ProtectedPathHead(path, r);
    }
  }

  /** Neither family of marketing paths meets the trade paths, and no member of either carries a locale prefix. */
  lemma FamiliesDisjoint(path: string)
    ensures IsTradePath(path) ==> !Bounced(path) && !HasLocale(path)
    ensures Bounced(path) ==> !IsTradePath(path) && !HasLocale(path)
    ensures Bounced(path) ==> !StartsWithAny(path, PROTECTED_PAGES) && !GuestOnly(path)
    ensures IsTradePath(path) ==> path != "/"
  {
    hide IsTradePath, Bounced, StartsWithAny, GuestOnly;
    if IsTradePath(path) {
      TradeFamilyHead(path);
    }
    if Bounced(path) && path != "/" {
      BouncedHead(path);
    }
    if StartsWithAny(path, PROTECTED_PAGES) || GuestOnly(path) {
      GuestOrProtectedHead(path);
    }
  }

  lemma ListedIsTradePath(path: string)
    requires path in TRADE_DOMAIN_PREFIXES
    ensures IsTradePath(path)
  {
    assert Under(path, path);
  }

  lemma AccountIsProtected()
    ensures StartsWithAny("/account", PROTECTED_PAGES) && !StartsWithAny("/login", PROTECTED_PAGES)
  {
    assert "/account" <= "/account" && "/account" in PROTECTED_PAGES;
    forall p | p in PROTECTED_PAGES ensures !(p <= "/login") {
      assert p[1] != 'l';
    }
  }

  lemma AuthPagesAreTradePaths()
    ensures IsTradePath("/login") && IsTradePath("/account") && IsTradePath("/register")
    ensures !HasLocale("/login") && !HasLocale("/account")
    ensures StartsWithAny("/account", PROTECTED_PAGES) && !StartsWithAny("/login", PROTECTED_PAGES)
  {
    hide IsTradePath, StartsWithAny, HasLocale;
    ListedIsTradePath("/login");
    ListedIsTradePath("/account");
    ListedIsTradePath("/register");
    AccountIsProtected();
    FamiliesDisjoint("/login");
    FamiliesDisjoint("/account");
  }
}
