/** Field keys made from labels: identifier-shaped and unique within a form. */
module FieldKeys {
  import opened Basics
  import opened Strings

  /** Lower-case letters and digits of ASCII. */
  predicate LowerAlnum(c: char): (b: bool)
    ensures b <==> 97 <= c as int <= 122 || 48 <= c as int <= 57
  {
    'a' <= c <= 'z' || '0' <= c <= '9'
  }

  predicate KeyChar(c: char) { LowerAlnum(c) || 'A' <= c <= 'Z' }

  function UpperChar(c: char): (u: char)
    ensures if 'a' <= c <= 'z' then 'A' <= u <= 'Z' && u - 'A' == c - 'a' else u == c
  {
    if 'a' <= c <= 'z' then c - 'a' + 'A' else c
  }

  function Word(s: string): (w: string)
    ensures |w| <= |s| && (s != "" && LowerAlnum(s[0]) ==> w != "")
    ensures forall i :: 0 <= i < |w| ==> LowerAlnum(w[i])
  {
    if s == "" || !LowerAlnum(s[0]) then "" else [s[0]] + Word(s[1..])
  }

  /** The maximal runs of lower-case letters and digits. */
  function Words(s: string): (ws: seq<string>)
    ensures forall i :: 0 <= i < |ws| ==> ws[i] != "" && forall j :: 0 <= j < |ws[i]| ==> LowerAlnum(ws[i][j])
    decreases |s|
  {
    if s == "" then []
    else if !LowerAlnum(s[0]) then Words(s[1..])
    else [Word(s)] + Words(s[|Word(s)|..])
  }

  function Capitalized(ws: seq<string>): string
    requires forall i :: 0 <= i < |ws| ==> ws[i] != ""
  {
    if ws == [] then "" else [UpperChar(ws[0][0])] + ws[0][1..] + Capitalized(ws[1..])
  }

  /** The key of a label, given the label in lower case. */
  function FieldKey(lowered: string): string {
    var parts := Words(lowered);
    if parts == [] then "field"
    else
      var key := parts[0] + Capitalized(parts[1..]);
      if 'a' <= key[0] <= 'z' then key else "f" + key
  }

  predicate IsIdentifier(key: string) {
    key != "" && 'a' <= key[0] <= 'z' && forall i :: 0 <= i < |key| ==> KeyChar(key[i])
  }

  lemma {:induction false} CapitalizedIsKeyText(ws: seq<string>)
    requires forall i :: 0 <= i < |ws| ==> ws[i] != "" && forall j :: 0 <= j < |ws[i]| ==> LowerAlnum(ws[i][j])
    ensures forall i :: 0 <= i < |Capitalized(ws)| ==> KeyChar(Capitalized(ws)[i])
  {
    if ws != [] {
      CapitalizedIsKeyText(ws[1..]);
      assert forall i :: 0 <= i < |ws[0][1..]| ==> ws[0][1..][i] == ws[0][i + 1];
    }
  }

  lemma FieldKeyIsIdentifier(lowered: string)
    ensures IsIdentifier(FieldKey(lowered)) && '_' !in FieldKey(lowered)
  {
    var parts := Words(lowered);
    if parts != [] {
      CapitalizedIsKeyText(parts[1..]);
    }
  }

  function LowerText(s: string): string {
    if s == "" then "" else [LowerChar(s[0])] + LowerText(s[1..])
  }

  /** The letters and digits of a text, in order. */
  function Alnum(s: string): string {
    if s == "" then "" else (if LowerAlnum(s[0]) then [s[0]] else "") + Alnum(s[1..])
  }

  lemma {:induction false} LowerConcatText(a: string, b: string)
    ensures LowerText(a + b) == LowerText(a) + LowerText(b)
  {
    if a == "" {
      assert a + b == b;
    } else {
      assert (a + b)[1..] == a[1..] + b;
      LowerConcatText(a[1..], b);
    }
  }

  lemma {:induction false} LowerOfLower(s: string)
    requires forall i :: 0 <= i < |s| ==> LowerAlnum(s[i])
    ensures LowerText(s) == s
  {
    if s != "" {
      LowerOfLower(s[1..]);
    }
  }

  function Flat(ws: seq<string>): string {
    if ws == [] then "" else ws[0] + Flat(ws[1..])
  }

  lemma {:induction false} CapitalizedReadsAs(ws: seq<string>)
    requires forall i :: 0 <= i < |ws| ==> ws[i] != "" && forall j :: 0 <= j < |ws[i]| ==> LowerAlnum(ws[i][j])
    ensures LowerText(Capitalized(ws)) == Flat(ws)
  {
    if ws != [] {
      var head, body, rest := [UpperChar(ws[0][0])], ws[0][1..], Capitalized(ws[1..]);
      CapitalizedReadsAs(ws[1..]);
      LowerOfLower(body);
      LowerConcatText(head + body, rest);
      LowerConcatText(head, body);
      assert head[1..] == "" && LowerChar(UpperChar(ws[0][0])) == ws[0][0];
      assert ws[0] == [ws[0][0]] + body;
    }
  }

  lemma {:induction false} WordThenRest(s: string)
    ensures Alnum(s) == Word(s) + Alnum(s[|Word(s)|..])
  {
    if s != "" && LowerAlnum(s[0]) {
      WordThenRest(s[1..]);
      assert s[1..][|Word(s[1..])|..] == s[|Word(s)|..];
    } else {
      assert s[0..] == s;
    }
  }

  lemma {:induction false} WordsAreAlnum(s: string)
    ensures Flat(Words(s)) == Alnum(s)
    decreases |s|
  {
    if s != "" {
      if LowerAlnum(s[0]) {
        WordThenRest(s);
        WordsAreAlnum(s[|Word(s)|..]);
      } else {
        WordsAreAlnum(s[1..]);
      }
    }
  }

  lemma CamelReadsAs(parts: seq<string>)
    requires parts != []
    requires forall i :: 0 <= i < |parts| ==>
      parts[i] != "" && forall j :: 0 <= j < |parts[i]| ==> LowerAlnum(parts[i][j])
    ensures var key := parts[0] + Capitalized(parts[1..]);
      LowerText(key) == Flat(parts) && LowerText("f" + key) == "f" + Flat(parts) && key[0] == Flat(parts)[0]
  {
    CapitalizedReadsAs(parts[1..]);
    LowerOfLower(parts[0]);
    LowerOfLower("f");
    hide LowerText, Capitalized, LowerAlnum;
    LowerConcatText(parts[0], Capitalized(parts[1..]));
    LowerConcatText("f", parts[0] + Capitalized(parts[1..]));
    assert (parts[0] + Flat(parts[1..]))[0] == parts[0][0];
  }

  /** Read without case, a key spells the label's letters and digits in order; only a leading "f" may be added. */
  lemma FieldKeySpellsLabel(lowered: string)
    ensures var key, text := LowerText(FieldKey(lowered)), Alnum(lowered);
      if text == "" then key == "field"
      else if 'a' <= text[0] <= 'z' then key == text
      else key == "f" + text
  {
    WordsAreAlnum(lowered);
    var parts := Words(lowered);
    if parts == [] {
      LowerOfLower("field");
    } else {
      FirstWord(lowered);
      CamelReadsAs(parts);
    }
    hide LowerText, Words, Alnum, Flat, Capitalized;
  }

  lemma FirstWord(lowered: string)
    requires Words(lowered) != []
    ensures var parts := Words(lowered);
      && parts[0] != "" && Flat(parts) != ""
      && forall i :: 0 <= i < |parts| ==>
           parts[i] != "" && forall j :: 0 <= j < |parts[i]| ==> LowerAlnum(parts[i][j])
  {
    hide Words, LowerAlnum;
  }

  /** One pass over the label: other characters are dropped, and a letter or digit that follows one that was dropped
      is put in upper case, unless it is the first. */
  function Camel(s: string, started: bool, inWord: bool): string {
    if s == "" then ""
    else if !LowerAlnum(s[0]) then Camel(s[1..], started, false)
    else [if started && !inWord then UpperChar(s[0]) else s[0]] + Camel(s[1..], true, true)
  }

  lemma {:induction false} CamelWord(s: string)
    ensures Camel(s, true, true) == Word(s) + Camel(s[|Word(s)|..], true, true)
    ensures var rest := s[|Word(s)|..]; Camel(rest, true, true) == Camel(rest, true, false)
    decreases |s|
  {
    if s != "" && LowerAlnum(s[0]) {
      CamelWord(s[1..]);
      assert s[1..][|Word(s[1..])|..] == s[|Word(s)|..];
    } else {
      assert s[0..] == s;
    }
  }

  /** The rest of the word that begins a text, and what comes after it. */
  lemma CamelRest(s: string)
    requires s != "" && LowerAlnum(s[0])
    ensures var rest := s[|Word(s)|..];
      && Camel(s[1..], true, true) == Word(s)[1..] + Camel(rest, true, false)
      && Word(s)[0] == s[0] && Words(s)[0] == Word(s) && Words(s)[1..] == Words(rest)
  {
    CamelWord(s[1..]);
    assert s[1..][|Word(s[1..])|..] == s[|Word(s)|..];
  }

  lemma {:induction false} CamelLater(s: string)
    ensures Camel(s, true, false) == Capitalized(Words(s))
    decreases |s|
  {
    if s != "" {
      if LowerAlnum(s[0]) {
        CamelRest(s);
        CamelLater(s[|Word(s)|..]);
        hide Words, Word;
        Regroup([UpperChar(s[0])], Word(s)[1..], Camel(s[|Word(s)|..], true, false));
      } else {
        CamelLater(s[1..]);
      }
    }
  }

  lemma {:induction false} CamelFirst(s: string)
    ensures Camel(s, false, false) == if Words(s) == [] then "" else Words(s)[0] + Capitalized(Words(s)[1..])
    decreases |s|
  {
    if s != "" {
      if LowerAlnum(s[0]) {
        CamelRest(s);
        CamelLater(s[|Word(s)|..]);
        hide Words, Word;
        Regroup([s[0]], Word(s)[1..], Camel(s[|Word(s)|..], true, false));
        assert [s[0]] + Word(s)[1..] == Word(s);
      } else {
        CamelFirst(s[1..]);
      }
    }
  }

  /** Splitting into words and joining them in camel case is that one pass; "field" stands for a label without letters
      and digits, and an "f" goes before a leading digit. */
  lemma FieldKeyIsCamel(lowered: string)
    ensures var key := Camel(lowered, false, false);
      FieldKey(lowered) == if key == "" then "field" else if 'a' <= key[0] <= 'z' then key else "f" + key
  {
    CamelFirst(lowered);
    if Words(lowered) != [] {
      assert Words(lowered)[0] != "";
    }
  }

  // ---------------------------------------------------------------- numbered keys

  function Digit(n: nat): char requires n < 10 { '0' + n as char }

  function Decimal(n: nat): string {
    if n < 10 then [Digit(n)] else Decimal(n / 10) + [Digit(n % 10)]
  }

  function Value(s: string): int {
    if s == "" then 0 else Value(s[..|s| - 1]) * 10 + (s[|s| - 1] as int - '0' as int)
  }

  lemma {:induction false} DecimalValue(n: nat)
    ensures Decimal(n) != "" && Value(Decimal(n)) == n
  {
    var s := Decimal(n);
    if n < 10 {
      assert s[..0] == "";
    } else {
      DecimalValue(n / 10);
      assert s[..|s| - 1] == Decimal(n / 10);
    }
  }

  function Tail(k: nat): string {
    if k <= 1 then "" else "_" + Decimal(k)
  }

  /** The key of the k-th row with a base. */
  function NumberedKey(base: string, k: nat): string {
    base + Tail(k)
  }

  /** How the suffix search spells the keys it tries. */
  lemma SpelledKeys(base: string, suffix: nat)
    requires suffix >= 2
    ensures NumberedKey(base, suffix) == base + "_" + Decimal(suffix) && NumberedKey(base, 1) == base
  {
    assert base + "_" + Decimal(suffix) == base + ("_" + Decimal(suffix));
  }

  lemma TailInjective(j: nat, k: nat)
    requires j >= 1 && k >= 1 && Tail(j) == Tail(k)
    ensures j == k
  {
    DecimalValue(j);
    DecimalValue(k);
    if j > 1 && k > 1 {
      assert Tail(j)[1..] == Decimal(j) && Tail(k)[1..] == Decimal(k);
    }
  }

  lemma NumberedKeyInjective(a: string, j: nat, b: string, k: nat)
    requires '_' !in a && '_' !in b && j >= 1 && k >= 1
    requires NumberedKey(a, j) == NumberedKey(b, k)
    ensures a == b && j == k
  {
    BeforeAppend(a, Tail(j), '_');
    BeforeAppend(b, Tail(k), '_');
    assert (a + Tail(j))[|a|..] == Tail(j) && (b + Tail(k))[|b|..] == Tail(k);
    TailInjective(j, k);
  }

  function Bases(rows: seq<string>): (bases: seq<string>)
    ensures |bases| == |rows|
  {
    if rows == [] then [] else [FieldKey(rows[0])] + Bases(rows[1..])
  }

  lemma {:induction false} BaseAt(rows: seq<string>, i: nat)
    requires i < |rows|
    ensures Bases(rows)[i] == FieldKey(rows[i])
  {
    if i > 0 {
      BaseAt(rows[1..], i - 1);
    }
  }

  lemma {:induction false} BasesConcat(rows: seq<string>, more: seq<string>)
    ensures Bases(rows + more) == Bases(rows) + Bases(more)
  {
    if rows == [] {
      assert rows + more == more;
    } else {
      assert (rows + more)[1..] == rows[1..] + more;
      BasesConcat(rows[1..], more);
    }
  }

  predicate Plain(bases: seq<string>) {
    forall i :: 0 <= i < |bases| ==> '_' !in bases[i]
  }

  lemma BasesArePlain(rows: seq<string>)
    ensures Plain(Bases(rows))
  {
    forall i | 0 <= i < |rows| ensures '_' !in Bases(rows)[i] {
      BaseAt(rows, i);
      FieldKeyIsIdentifier(rows[i]);
    }
  }

  /** How many of the first `n` bases are this one. */
  function Count(bases: seq<string>, base: string, n: nat): nat
    requires n <= |bases|
  {
    if n == 0 then 0 else Count(bases, base, n - 1) + if bases[n - 1] == base then 1 else 0
  }

  /** The key a row gets: its base, numbered from the second row with that base on. */
  function KeyAt(bases: seq<string>, i: nat): string
    requires i < |bases|
  {
    NumberedKey(bases[i], Count(bases, bases[i], i + 1))
  }

  lemma {:induction false} CountGrows(bases: seq<string>, base: string, m: nat, n: nat)
    requires m <= n <= |bases|
    ensures Count(bases, base, m) <= Count(bases, base, n)
    decreases n
  {
    if m < n {
      CountGrows(bases, base, m, n - 1);
    }
  }

  /** The m-th row with a base exists as soon as m rows have it. */
  lemma {:induction false} NthRow(bases: seq<string>, base: string, m: nat, n: nat) returns (j: nat)
    requires n <= |bases| && 1 <= m <= Count(bases, base, n)
    ensures j < n && bases[j] == base && Count(bases, base, j + 1) == m
    decreases n
  {
    if Count(bases, base, n - 1) < m {
      j := n - 1;
    } else {
      j := NthRow(bases, base, m, n - 1);
    }
  }

  predicate Taken(bases: seq<string>, i: nat, key: string)
    requires i <= |bases|
  {
    exists j :: 0 <= j < i && KeyAt(bases, j) == key
  }

  /** Among the keys of the first `i` rows, the numbered keys of a base are exactly those up to its count. */
  lemma TakenIff(bases: seq<string>, base: string, m: nat, i: nat)
    requires i <= |bases| && m >= 1 && '_' !in base && Plain(bases)
    ensures Taken(bases, i, NumberedKey(base, m)) <==> m <= Count(bases, base, i)
  {
    if Taken(bases, i, NumberedKey(base, m)) {
      var j :| 0 <= j < i && KeyAt(bases, j) == NumberedKey(base, m);
      NumberedKeyInjective(bases[j], Count(bases, bases[j], j + 1), base, m);
      CountGrows(bases, base, j + 1, i);
    }
    if m <= Count(bases, base, i) {
      var j := NthRow(bases, base, m, i);
      assert KeyAt(bases, j) == NumberedKey(base, m);
    }
  }

  lemma TakenNext(bases: seq<string>, i: nat, key: string)
    requires i < |bases|
    ensures Taken(bases, i + 1, key) <==> Taken(bases, i, key) || key == KeyAt(bases, i)
  {
    if Taken(bases, i + 1, key) && key != KeyAt(bases, i) {
      var j :| 0 <= j < i + 1 && KeyAt(bases, j) == key;
      assert j < i;
    }
  }

  method UniqueFieldKeys(rows: seq<string>) returns (keys: seq<string>)
    ensures |keys| == |rows|
    ensures forall i :: 0 <= i < |rows| ==> keys[i] == KeyAt(Bases(rows), i)
  {
    hide FieldKey, Plain, NumberedKey, Count, Bases;
    ghost var bases := Bases(rows);
    BasesArePlain(rows);
    var used: set<string> := {};
    keys := [];
    for i := 0 to |rows|
      invariant |keys| == i && forall j :: 0 <= j < i ==> keys[j] == KeyAt(bases, j)
      invariant forall k :: k in used <==> Taken(bases, i, k)
    {
      var base := FieldKey(rows[i]);
      BaseAt(rows, i);
      var key := UnusedKey(bases, i, base, used);
      forall k ensures Taken(bases, i + 1, k) <==> Taken(bases, i, k) || k == key {
        TakenNext(bases, i, k);
      }
      used := used + {key};
      keys := keys + [key];
    }
  }

  /** The suffix search: the first numbered key not in use. */
  method UnusedKey(ghost bases: seq<string>, ghost i: nat, base: string, used: set<string>) returns (key: string)
    requires i < |bases| && base == bases[i] && Plain(bases)
    requires forall k :: k in used <==> Taken(bases, i, k)
    ensures key == KeyAt(bases, i)
  {
    key := base;
    var suffix := 2;
    ghost var taken := Count(bases, base, i);
    SpelledKeys(base, 2);
    TakenIff(bases, base, 1, i);
    while key in used
      invariant 2 <= suffix <= taken + 2 && key == NumberedKey(base, suffix - 1)
      invariant key in used <==> suffix - 1 <= taken
      decreases taken + 2 - suffix
    {
      SpelledKeys(base, suffix);
      key := base + "_" + Decimal(suffix);
      suffix := suffix + 1;
      TakenIff(bases, base, suffix - 1, i);
    }
  }

  predicate IsFieldKey(key: string) {
    key != "" && 'a' <= key[0] <= 'z' && forall i :: 0 <= i < |key| ==> KeyChar(key[i]) || key[i] == '_'
  }

  lemma {:induction false} DecimalIsDigits(n: nat)
    ensures forall i :: 0 <= i < |Decimal(n)| ==> '0' <= Decimal(n)[i] <= '9'
  {
    if n >= 10 {
      DecimalIsDigits(n / 10);
    }
  }

  lemma NumberedKeyIsFieldKey(base: string, k: nat)
    requires IsIdentifier(base) && k >= 1
    ensures IsFieldKey(NumberedKey(base, k))
  {
    DecimalIsDigits(k);
  }

  /** Every key given is a lower-case letter followed by letters, digits and underscores. */
  lemma KeysAreFieldKeys(rows: seq<string>, i: nat)
    requires i < |rows|
    ensures IsFieldKey(KeyAt(Bases(rows), i))
  {
    hide FieldKey, Bases, IsIdentifier, IsFieldKey, NumberedKey;
    BaseAt(rows, i);
    FieldKeyIsIdentifier(rows[i]);
    NumberedKeyIsFieldKey(Bases(rows)[i], Count(Bases(rows), Bases(rows)[i], i + 1));
  }

  /** No two rows get the same key. */
  lemma KeysAreDistinct(rows: seq<string>, i: nat, j: nat)
    requires i < j < |rows|
    ensures KeyAt(Bases(rows), i) != KeyAt(Bases(rows), j)
  {
    BasesArePlain(rows);
    hide FieldKey, Bases, KeyAt, Plain;
    PlainKeysAreDistinct(Bases(rows), i, j);
  }

  lemma PlainKeysAreDistinct(bases: seq<string>, i: nat, j: nat)
    requires i < j < |bases| && Plain(bases)
    ensures KeyAt(bases, i) != KeyAt(bases, j)
  {
    var m, n := Count(bases, bases[i], i + 1), Count(bases, bases[j], j + 1);
    CountGrows(bases, bases[i], i + 1, j);
    assert bases[i] == bases[j] ==> m < n;
    hide Count, NumberedKey;
    if NumberedKey(bases[i], m) == NumberedKey(bases[j], n) {
      NumberedKeyInjective(bases[i], m, bases[j], n);
    }
  }

  lemma {:induction false} CountOfPrefix(bases: seq<string>, more: seq<string>, base: string, n: nat)
    requires n <= |bases|
    ensures Count(bases + more, base, n) == Count(bases, base, n)
    decreases n
  {
    if n > 0 {
      CountOfPrefix(bases, more, base, n - 1);
    }
  }

  /** Appending rows changes no key already given. */
  lemma KeysAreStable(rows: seq<string>, more: seq<string>, i: nat)
    requires i < |rows|
    ensures KeyAt(Bases(rows + more), i) == KeyAt(Bases(rows), i)
  {
    BasesConcat(rows, more);
    CountOfPrefix(Bases(rows), Bases(more), Bases(rows)[i], i + 1);
  }
}
