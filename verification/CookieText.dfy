/** Editing one cookie-pair inside a Cookie header, as text. The mark is the cookie's name with its equals sign. */
module CookieText {
  import opened Basics
  import opened Strings

  ghost predicate IsMark(m: string) {
    m != "" && ';' !in m && ' ' !in m
  }

  predicate Contains(m: string, s: string) {
    m <= s || (s != "" && Contains(m, s[1..]))
  }

  function FromSemicolon(s: string): string {
    if s == "" || s[0] == ';' then s else FromSemicolon(s[1..])
  }

  /** The first match of the mark and everything up to a semicolon, replaced by the mark and the locale. */
  function ReplaceFirst(m: string, s: string, locale: string): string {
    if m <= s then m + locale + FromSemicolon(s[|m|..])
    else if s == "" then ""
    else [s[0]] + ReplaceFirst(m, s[1..], locale)
  }

  function Inject(m: string, cookie: string, locale: string): string {
    if Contains(m, cookie) then ReplaceFirst(m, cookie, locale)
    else (if cookie != "" then cookie + "; " else "") + m + locale
  }

  // ---------------------------------------------------------------- pairs

  /** A cookie-pair of section 4.2.1 of RFC 6265, as far as separators go. */
  predicate IsPair(p: string) {
    p != "" && ';' !in p && ' ' !in p
  }

  predicate ArePairs(ps: seq<string>) {
    forall i :: 0 <= i < |ps| ==> IsPair(ps[i])
  }

  function Join(ps: seq<string>): string {
    if ps == [] then ""
    else if |ps| == 1 then ps[0]
    else ps[0] + "; " + Join(ps[1..])
  }

  function SkipBlanks(s: string): string {
    if s != "" && s[0] == ' ' then SkipBlanks(s[1..]) else s
  }

  /** Splits at semicolons and drops the blanks after them. */
  function Parse(s: string): seq<string>
    decreases |s|
  {
    if s == "" then []
    else
      var p := Before(s, ';');
      if |p| == |s| then [p] else
      var rest := s[|p| + 1..];
      BlanksShrink(rest);
      [p] + Parse(SkipBlanks(rest))
  }

  lemma {:induction false} BlanksShrink(s: string)
    ensures |SkipBlanks(s)| <= |s|
    decreases |s|
  {
    if s != "" && s[0] == ' ' {
      BlanksShrink(s[1..]);
    }
  }

  /** What a correct edit does: the first NEXT_LOCALE pair changed, or one appended. */
  function Edit(m: string, ps: seq<string>, locale: string): seq<string> {
    if ps == [] then [m + locale]
    else if m <= ps[0] then [m + locale] + ps[1..]
    else [ps[0]] + Edit(m, ps[1..], locale)
  }

  /** What the textual edit does: the first pair that contains the marker anywhere is changed. */
  function Touch(m: string, ps: seq<string>, locale: string): seq<string> {
    if ps == [] then []
    else if Contains(m, ps[0]) then [ReplaceFirst(m, ps[0], locale)] + ps[1..]
    else [ps[0]] + Touch(m, ps[1..], locale)
  }

  /** The first pair that contains the marker, if any, is a NEXT_LOCALE pair. */
  predicate MarkerIsOurs(m: string, ps: seq<string>) {
    ps == [] || m <= ps[0] || (!Contains(m, ps[0]) && MarkerIsOurs(m, ps[1..]))
  }

  // ---------------------------------------------------------------- text and pairs agree

  lemma OneBlank(rest: string)
    requires rest != "" && rest[0] != ' '
    ensures SkipBlanks(" " + rest) == rest
  {
    assert (" " + rest)[1..] == rest;
    assert SkipBlanks(rest) == rest;
  }

  lemma ParseSplit(s: string, p: string, tail: string)
    requires s == p + ";" + tail && ';' !in p
    ensures Parse(s) == [p] + Parse(SkipBlanks(tail))
  {
    assert s == p + (";" + tail);
    BeforeAppend(p, ";" + tail, ';');
    assert s[|p| + 1..] == tail;
    hide Before, SkipBlanks;
  }

  lemma ParseCons(p: string, rest: string)
    requires IsPair(p) && rest != "" && rest[0] != ' '
    ensures Parse(p + "; " + rest) == [p] + Parse(rest)
  {
    var s := p + "; " + rest;
    assert s == p + ";" + (" " + rest);
    hide Parse, SkipBlanks;
    OneBlank(rest);
    ParseSplit(s, p, " " + rest);
  }

  lemma {:induction false} ParseJoin(ps: seq<string>)
    requires ArePairs(ps)
    ensures Parse(Join(ps)) == ps
  {
    if |ps| == 1 {
      BeforeAppend(ps[0], "", ';');
      assert IsPair(ps[0]) && ps[0] + "" == ps[0];
    } else if |ps| > 1 {
      assert IsPair(ps[0]) && IsPair(ps[1]) && ps[1] <= Join(ps[1..]);
      ParseCons(ps[0], Join(ps[1..]));
      ParseJoin(ps[1..]);
      assert ps == [ps[0]] + ps[1..];
    }
  }

  lemma NoStraddle(m: string, p: string, tail: string)
    requires IsMark(m)
    requires ';' !in p && (tail == "" || tail[0] == ';')
    ensures m <= p + tail <==> m <= p
  {
    assert forall i :: 0 <= i < |m| ==> m[i] != ';';
    assert |p| < |m| && |p| < |p + tail| ==> (p + tail)[|p|] == ';' != m[|p|];
    assert m <= p ==> (p + tail)[..|p|] == p;
    assert m <= p + tail && |p| >= |m| ==> p[..|m|] == (p + tail)[..|m|];
  }

  lemma {:induction false} ValueEnds(v: string, tail: string)
    requires ';' !in v && (tail == "" || tail[0] == ';')
    ensures FromSemicolon(v + tail) == tail
  {
    if v == "" {
      assert v + tail == tail;
    } else {
      assert (v + tail)[1..] == v[1..] + tail;
      ValueEnds(v[1..], tail);
    }
  }

  lemma {:induction false} PairThenTailContains(m: string, p: string, tail: string)
    requires IsMark(m)
    requires ';' !in p && (tail == "" || tail[0] == ';')
    ensures Contains(m, p + tail) == (Contains(m, p) || Contains(m, tail))
  {
    if p == "" {
      assert p + tail == tail;
    } else {
      NoStraddle(m, p, tail);
      assert (p + tail)[1..] == p[1..] + tail;
      PairThenTailContains(m, p[1..], tail);
    }
  }

  lemma ReplaceMark(m: string, v: string, locale: string)
    ensures m <= m + v && ReplaceFirst(m, m + v, locale) == m + locale + FromSemicolon(v)
  {
    assert (m + v)[|m|..] == v && (m + v)[..|m|] == m;
  }

  lemma MarkedPairThenTail(m: string, p: string, tail: string, locale: string)
    requires IsMark(m)
    requires m <= p && ';' !in p && (tail == "" || tail[0] == ';')
    ensures m <= p + tail
    ensures ReplaceFirst(m, p + tail, locale) == ReplaceFirst(m, p, locale) + tail == m + locale + tail
  {
    var v := p[|m|..];
    hide ReplaceFirst, FromSemicolon, IsMark;
    ValueEnds(v, tail);
    ValueEnds(v, "");
    assert p == m + v && v + "" == v;
    assert p + tail == m + (v + tail);
    ReplaceMark(m, v, locale);
    ReplaceMark(m, v + tail, locale);
    assert m + locale + "" == m + locale;
  }

  lemma PastUnmarked(m: string, c: char, s: string, locale: string)
    requires !(m <= [c] + s)
    ensures Contains(m, [c] + s) == Contains(m, s)
    ensures ReplaceFirst(m, [c] + s, locale) == [c] + ReplaceFirst(m, s, locale)
  {
    assert ([c] + s)[1..] == s && ([c] + s)[0] == c;
  }

  /** The step of the next lemma past a character that starts no mark. */
  lemma PastOneChar(m: string, c: char, rest: string, tail: string, locale: string)
    requires !(m <= [c] + rest) && !(m <= [c] + (rest + tail))
    requires ReplaceFirst(m, rest + tail, locale)
      == if Contains(m, rest) then ReplaceFirst(m, rest, locale) + tail else rest + ReplaceFirst(m, tail, locale)
    ensures ReplaceFirst(m, [c] + (rest + tail), locale)
      == if Contains(m, [c] + rest) then ReplaceFirst(m, [c] + rest, locale) + tail
         else ([c] + rest) + ReplaceFirst(m, tail, locale)
  {
    hide Contains, ReplaceFirst;
    PastUnmarked(m, c, rest, locale);
    PastUnmarked(m, c, rest + tail, locale);
    Regroup([c], ReplaceFirst(m, rest, locale), tail);
    Regroup([c], rest, ReplaceFirst(m, tail, locale));
  }

  lemma {:induction false} PairThenTail(m: string, p: string, tail: string, locale: string)
    requires IsMark(m)
    requires ';' !in p && (tail == "" || tail[0] == ';')
    ensures ReplaceFirst(m, p + tail, locale)
      == if Contains(m, p) then ReplaceFirst(m, p, locale) + tail else p + ReplaceFirst(m, tail, locale)
  {
    if m <= p {
      MarkedPairThenTail(m, p, tail, locale);
    } else if p == "" {
      assert p + tail == tail;
      assert tail == "" + tail;
    } else {
      var rest := p[1..];
      NoStraddle(m, p, tail);
      hide Contains, ReplaceFirst, IsMark;
      PairThenTail(m, rest, tail, locale);
      assert p == [p[0]] + rest && p + tail == [p[0]] + (rest + tail);
      PastOneChar(m, p[0], rest, tail, locale);
    }
  }

  lemma StepOver(m: string, c: char, s: string, locale: string)
    requires IsMark(m)
    requires c != m[0]
    ensures Contains(m, [c] + s) == Contains(m, s)
    ensures ReplaceFirst(m, [c] + s, locale) == [c] + ReplaceFirst(m, s, locale)
  {
    assert ([c] + s)[1..] == s && ([c] + s)[0] == c;
  }

  lemma SeparatorThenTail(m: string, s: string, locale: string)
    requires IsMark(m)
    ensures Contains(m, "; " + s) == Contains(m, s)
    ensures ReplaceFirst(m, "; " + s, locale) == "; " + ReplaceFirst(m, s, locale)
  {
    StepOver(m, ' ', s, locale);
    StepOver(m, ';', [' '] + s, locale);
    assert "; " + s == [';'] + ([' '] + s);
  }

  predicate AnyMarked(m: string, ps: seq<string>) {
    exists p :: p in ps && Contains(m, p)
  }

  lemma {:induction false} TouchLength(m: string, ps: seq<string>, locale: string)
    ensures |Touch(m, ps, locale)| == |ps|
  {
    if ps != [] {
      TouchLength(m, ps[1..], locale);
    }
  }

  lemma {:induction false} JoinContains(m: string, ps: seq<string>)
    requires IsMark(m)
    requires ArePairs(ps)
    ensures Contains(m, Join(ps)) == AnyMarked(m, ps)
  {
    if |ps| == 1 {
      assert ps == [ps[0]];
    } else if |ps| > 1 {
      var rest := Join(ps[1..]);
      assert IsPair(ps[0]) && Join(ps) == ps[0] + ("; " + rest);
      PairThenTailContains(m, ps[0], "; " + rest);
      SeparatorThenTail(m, rest, "");
      JoinContains(m, ps[1..]);
      assert ps == [ps[0]] + ps[1..];
    }
  }

  lemma ReplaceInNothing(m: string, locale: string)
    requires IsMark(m)
    ensures ReplaceFirst(m, "", locale) == "" && !Contains(m, "")
  {
  }

  lemma {:induction false} JoinReplaces(m: string, ps: seq<string>, locale: string)
    requires IsMark(m)
    requires ArePairs(ps)
    ensures ReplaceFirst(m, Join(ps), locale) == Join(Touch(m, ps, locale))
  {
    hide ReplaceFirst, Contains, IsMark;
    if ps == [] {
      ReplaceInNothing(m, locale);
    } else if |ps| == 1 {
      PairThenTail(m, ps[0], "", locale);
      ReplaceInNothing(m, locale);
      assert IsPair(ps[0]) && ps[0] + "" == ps[0];
      assert ReplaceFirst(m, ps[0], locale) + "" == ReplaceFirst(m, ps[0], locale);
      assert ps[1..] == [] && Touch(m, ps, locale) == [ReplaceFirst(m, ps[0], locale)];
    } else if |ps| > 1 {
      var rest := Join(ps[1..]);
      assert IsPair(ps[0]) && Join(ps) == ps[0] + ("; " + rest);
      PairThenTail(m, ps[0], "; " + rest, locale);
      SeparatorThenTail(m, rest, locale);
      JoinReplaces(m, ps[1..], locale);
      TouchLength(m, ps[1..], locale);
      var touched := Touch(m, ps, locale);
      assert touched[1..] == if Contains(m, ps[0]) then ps[1..] else Touch(m, ps[1..], locale);
    }
  }

  lemma {:induction false} JoinSnoc(ps: seq<string>, p: string)
    requires ps != []
    ensures Join(ps + [p]) == Join(ps) + "; " + p
  {
    if |ps| == 1 {
      assert (ps + [p])[1..] == [p];
    } else {
      assert (ps + [p])[1..] == ps[1..] + [p];
      JoinSnoc(ps[1..], p);
    }
  }

  lemma {:induction false} TouchIsEdit(m: string, ps: seq<string>, locale: string)
    requires IsMark(m)
    requires ArePairs(ps) && MarkerIsOurs(m, ps)
    ensures Edit(m, ps, locale) == if AnyMarked(m, ps) then Touch(m, ps, locale) else ps + [m + locale]
  {
    if ps != [] {
      assert IsPair(ps[0]);
      if m <= ps[0] {
        ValueEnds(ps[0][|m|..], "");
        assert ps[0][|m|..] + "" == ps[0][|m|..];
        assert Contains(m, ps[0]) && ps[0] in ps;
        assert ReplaceFirst(m, ps[0], locale) == m + locale;
      } else {
        TouchIsEdit(m, ps[1..], locale);
        assert AnyMarked(m, ps) == AnyMarked(m, ps[1..]) by {
          assert ps == [ps[0]] + ps[1..];
        }
      }
    }
  }

  /** The textual edit is the intended one whenever the first marked pair is the locale pair. */
  lemma InjectIsEdit(m: string, ps: seq<string>, locale: string)
    requires IsMark(m)
    requires ArePairs(ps) && MarkerIsOurs(m, ps)
    ensures Inject(m, Join(ps), locale) == Join(Edit(m, ps, locale))
  {
    JoinContains(m, ps);
    TouchIsEdit(m, ps, locale);
    if AnyMarked(m, ps) {
      JoinReplaces(m, ps, locale);
    } else if ps != [] {
      assert IsPair(ps[0]) && Join(ps) != "";
      JoinSnoc(ps, m + locale);
      assert Join(ps) + "; " + m + locale == Join(ps) + "; " + (m + locale);
    } else {
      assert "" + m + locale == m + locale;
    }
  }

  // ---------------------------------------------------------------- and only then

  lemma {:induction false} ReplacementsDiffer(m: string, p: string, a: string, b: string)
    requires IsMark(m)
    requires Contains(m, p) && |a| == |b| && a != b
    ensures ReplaceFirst(m, p, a) != ReplaceFirst(m, p, b)
  {
    if m <= p {
      var x, y := ReplaceFirst(m, p, a), ReplaceFirst(m, p, b);
      assert x[|m|..][..|a|] == a && y[|m|..][..|b|] == b;
    } else {
      ReplacementsDiffer(m, p[1..], a, b);
      assert ReplaceFirst(m, p, a)[1..] == ReplaceFirst(m, p[1..], a);
      assert ReplaceFirst(m, p, b)[1..] == ReplaceFirst(m, p[1..], b);
    }
  }

  lemma {:induction false} SuffixHasNo(s: string, c: char)
    requires c !in s
    ensures c !in FromSemicolon(s)
  {
    if s != "" && s[0] != ';' {
      SuffixHasNo(s[1..], c);
    }
  }

  lemma {:induction false} ReplacementIsPair(m: string, p: string, locale: string)
    requires IsMark(m)
    requires IsPair(p) && Contains(m, p) && ';' !in locale && ' ' !in locale
    ensures IsPair(ReplaceFirst(m, p, locale))
  {
    if m <= p {
      SuffixHasNo(p[|m|..], ';');
      SuffixHasNo(p[|m|..], ' ');
    } else if Contains(m, p[1..]) && p[1..] != "" {
      ReplacementIsPair(m, p[1..], locale);
    }
  }

  lemma {:induction false} EditIsPairs(m: string, ps: seq<string>, locale: string)
    requires IsMark(m)
    requires ArePairs(ps) && ';' !in locale && ' ' !in locale
    ensures ArePairs(Edit(m, ps, locale)) && ArePairs(Touch(m, ps, locale))
  {
    assert IsPair(m + locale);
    if ps != [] {
      EditIsPairs(m, ps[1..], locale);
      assert IsPair(ps[0]);
      if Contains(m, ps[0]) {
        ReplacementIsPair(m, ps[0], locale);
      }
    }
  }

  /** A misplaced marker makes the text edit miss the intended one. */
  lemma {:induction false} MisplacedMarkerBreaks(m: string, ps: seq<string>, a: string, b: string)
    requires IsMark(m)
    requires ArePairs(ps) && !MarkerIsOurs(m, ps) && |a| == |b| && a != b
    ensures Touch(m, ps, a) != Edit(m, ps, a) || Touch(m, ps, b) != Edit(m, ps, b)
    ensures AnyMarked(m, ps)
  {
    if Contains(m, ps[0]) {
      ReplacementsDiffer(m, ps[0], a, b);
      assert Edit(m, ps, a)[0] == ps[0] == Edit(m, ps, b)[0];
      assert Touch(m, ps, a)[0] == ReplaceFirst(m, ps[0], a) && Touch(m, ps, b)[0] == ReplaceFirst(m, ps[0], b);
    } else {
      MisplacedMarkerBreaks(m, ps[1..], a, b);
      assert Touch(m, ps, a)[1..] == Touch(m, ps[1..], a) && Edit(m, ps, a)[1..] == Edit(m, ps[1..], a);
      assert Touch(m, ps, b)[1..] == Touch(m, ps[1..], b) && Edit(m, ps, b)[1..] == Edit(m, ps[1..], b);
      assert ps == [ps[0]] + ps[1..];
    }
  }

  /** A replacement keeps the beginning of a pair, as far as the mark is long. */
  lemma {:induction false} ReplacementKeepsHead(m: string, p: string, locale: string)
    requires Contains(m, p)
    ensures var r := ReplaceFirst(m, p, locale); |r| >= |m| && |p| >= |m| && r[..|m|] == p[..|m|]
  {
    if !(m <= p) {
      ReplacementKeepsHead(m, p[1..], locale);
      var r := ReplaceFirst(m, p, locale);
      assert r[1..] == ReplaceFirst(m, p[1..], locale);
      assert forall i :: 0 < i < |m| ==> r[i] == r[1..][..|m|][i - 1] && p[i] == p[1..][..|m|][i - 1];
    }
  }
}
