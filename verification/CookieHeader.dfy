/** The NEXT_LOCALE cookie inside a Cookie header: the edit made on a forwarded request, and how it is read. */
module CookieHeader {
  import opened Basics
  import opened Strings
  import opened WebMiddleware
  import opened CookieText

  const MARK: string := "NEXT_LOCALE="

  /** The Cookie header of the forwarded request. */
  function InjectLocale(cookie: string, locale: string): string {
    Inject(MARK, cookie, locale)
  }

  lemma MarkIsMark()
    ensures IsMark(MARK)
  {
  }

  /** Reading the edited header back gives every pair unchanged and in order but the locale pair, for every
      locale, if and only if the first pair holding the marker is a NEXT_LOCALE pair. */
  lemma InjectionIsCorrectIff(ps: seq<string>)
    requires ArePairs(ps)
    ensures (forall l :: l in LOCALES ==> Parse(InjectLocale(Join(ps), l)) == Edit(MARK, ps, l))
      <==> MarkerIsOurs(MARK, ps)
  {
    MarkIsMark();
    assert forall l :: l in LOCALES ==> ';' !in l && ' ' !in l;
    if MarkerIsOurs(MARK, ps) {
      forall l | l in LOCALES ensures Parse(InjectLocale(Join(ps), l)) == Edit(MARK, ps, l) {
        InjectIsEdit(MARK, ps, l);
        EditIsPairs(MARK, ps, l);
        ParseJoin(Edit(MARK, ps, l));
      }
    } else {
      MisplacedMarkerBreaks(MARK, ps, "fr", "de");
      var l := if Touch(MARK, ps, "fr") != Edit(MARK, ps, "fr") then "fr" else "de";
      JoinContains(MARK, ps);
      JoinReplaces(MARK, ps, l);
      EditIsPairs(MARK, ps, l);
      ParseJoin(Touch(MARK, ps, l));
      assert l in LOCALES && Parse(InjectLocale(Join(ps), l)) != Edit(MARK, ps, l);
    }
  }

  // ---------------------------------------------------------------- the locale that renders

  function BeforeDash(s: string): string {
    if s == "" || s[0] == '-' || s[0] == '_' then "" else [s[0]] + BeforeDash(s[1..])
  }

  /** Coerces a cookie value to a supported locale. */
  function NormalizeLocale(value: string): (l: string)
    ensures l in LOCALES
    ensures value in LOCALES ==> l == value
  {
    var lower := Lower(value);
    assert value in LOCALES ==> lower == value;
    if lower in LOCALES then lower
    else if BeforeDash(lower) in LOCALES then BeforeDash(lower)
    else DEFAULT_LOCALE
  }

  /** A tag of the given language: the language itself, or it and a region. */
  predicate TagOf(lower: string, language: string) {
    lower == language || language + "-" <= lower || language + "_" <= lower
  }

  lemma {:induction false} BeforeDashIs(s: string, language: string)
    requires '-' !in language && '_' !in language
    ensures BeforeDash(s) == language <==> TagOf(s, language)
  {
    if language != "" && s != "" && s[0] == language[0] {
      BeforeDashIs(s[1..], language[1..]);
      assert s == [s[0]] + s[1..] && language == [language[0]] + language[1..];
      assert forall c: char :: language + [c] == [language[0]] + (language[1..] + [c]);
    }
  }

  /** A tag of a supported language, in any case, gives that language; everything else the default one. */
  lemma NormalizeLocaleIff(value: string, language: string)
    requires language in LOCALES
    ensures NormalizeLocale(value) == language <==>
      || TagOf(Lower(value), language)
      || (language == DEFAULT_LOCALE && forall l :: l in LOCALES ==> !TagOf(Lower(value), l))
  {
    var lower := Lower(value);
    forall l | l in LOCALES ensures BeforeDash(lower) == l <==> TagOf(lower, l) {
      NoDash(l);
      BeforeDashIs(lower, l);
    }
    hide TagOf, BeforeDash, Lower;
    if lower in LOCALES {
      assert TagOf(lower, lower) by { WholeTag(lower); }
    }
  }

  lemma NoDash(language: string)
    requires language in LOCALES
    ensures '-' !in language && '_' !in language
  {
  }

  lemma WholeTag(language: string)
    ensures TagOf(language, language)
  {
  }

  function FirstLocale(ps: seq<string>): Option<string> {
    if ps == [] then None
    else if MARK <= ps[0] then Some(Before(ps[0][|MARK|..], '='))
    else FirstLocale(ps[1..])
  }

  /** The locale a page is rendered in: the first NEXT_LOCALE cookie, else what Accept-Language resolves to. */
  function Rendered(cookie: string, accepted: string): string {
    match FirstLocale(Parse(cookie))
    case Some(v) => NormalizeLocale(v)
    case None => accepted
  }

  lemma {:induction false} EditSetsFirst(ps: seq<string>, locale: string)
    requires '=' !in locale
    ensures FirstLocale(Edit(MARK, ps, locale)) == Some(locale)
  {
    BeforeAppend(locale, "", '=');
    assert locale + "" == locale;
    assert (MARK + locale)[|MARK|..] == locale;
    if ps != [] && !(MARK <= ps[0]) {
      EditSetsFirst(ps[1..], locale);
      assert Edit(MARK, ps, locale)[1..] == Edit(MARK, ps[1..], locale);
    }
  }

  lemma LocaleIsPlain(locale: string)
    requires locale in LOCALES
    ensures ';' !in locale && ' ' !in locale && '=' !in locale
    ensures NormalizeLocale(locale) == locale
  {
  }

  lemma RenderedOf(ps: seq<string>, accepted: string)
    requires ArePairs(ps)
    ensures Rendered(Join(ps), accepted)
      == if FirstLocale(ps).Some? then NormalizeLocale(FirstLocale(ps).value) else accepted
  {
    ParseJoin(ps);
  }

  /** A forwarded request renders in the injected locale. */
  lemma InjectedLocaleRenders(ps: seq<string>, locale: string, accepted: string)
    requires ArePairs(ps) && MarkerIsOurs(MARK, ps) && locale in LOCALES
    ensures Rendered(InjectLocale(Join(ps), locale), accepted) == locale
  {
    MarkIsMark();
    LocaleIsPlain(locale);
    InjectIsEdit(MARK, ps, locale);
    EditIsPairs(MARK, ps, locale);
    EditSetsFirst(ps, locale);
    RenderedOf(Edit(MARK, ps, locale), accepted);
  }

  /** A misplaced edit leaves the locale that renders. */
  lemma {:induction false} TouchKeepsLocale(ps: seq<string>, locale: string)
    requires !MarkerIsOurs(MARK, ps)
    ensures FirstLocale(Touch(MARK, ps, locale)) == FirstLocale(ps)
  {
    var touched := Touch(MARK, ps, locale);
    if Contains(MARK, ps[0]) {
      ReplacementKeepsHead(MARK, ps[0], locale);
      assert touched == [ReplaceFirst(MARK, ps[0], locale)] + ps[1..];
      assert !(MARK <= touched[0]) by { assert touched[0][..|MARK|] == ps[0][..|MARK|] != MARK; }
      assert touched[1..] == ps[1..];
    } else {
      TouchKeepsLocale(ps[1..], locale);
      assert touched == [ps[0]] + Touch(MARK, ps[1..], locale);
      assert touched[1..] == Touch(MARK, ps[1..], locale);
    }
  }

  lemma MisplacedEditKeepsLocale(ps: seq<string>, locale: string, accepted: string)
    requires ArePairs(ps) && !MarkerIsOurs(MARK, ps) && locale in LOCALES
    ensures Rendered(InjectLocale(Join(ps), locale), accepted) == Rendered(Join(ps), accepted)
  {
    MarkIsMark();
    LocaleIsPlain(locale);
    hide Contains, ReplaceFirst, Touch, IsMark, NormalizeLocale, FirstLocale, MarkerIsOurs;
    MisplacedMarkerBreaks(MARK, ps, "fr", "de");
    JoinContains(MARK, ps);
    JoinReplaces(MARK, ps, locale);
    EditIsPairs(MARK, ps, locale);
    TouchKeepsLocale(ps, locale);
    RenderedOf(Touch(MARK, ps, locale), accepted);
    RenderedOf(ps, accepted);
  }
}
