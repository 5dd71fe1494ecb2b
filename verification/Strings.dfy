/** The JavaScript string operations that host and path routing is built from. */
module Strings {

  predicate EndsWith(s: string, suffix: string) {
    |suffix| <= |s| && forall i :: 0 <= i < |suffix| ==> s[|s| - |suffix| + i] == suffix[i]
  }

  predicate IsDigit(c: char) { '0' <= c <= '9' }

  /** What `trim` removes and `\s` matches. */
  predicate IsSpace(c: char) {
    || c == ' ' || '\t' <= c <= '\r' || c == '\U{00A0}' || c == '\U{1680}' || '\U{2000}' <= c <= '\U{200A}'
    || c == '\U{2028}' || c == '\U{2029}' || c == '\U{202F}' || c == '\U{205F}' || c == '\U{3000}' || c == '\U{FEFF}'
  }

  /** Those are the white space and the line terminators of sections 12.2 and 12.3 of ECMA-262. */
  lemma SpaceIs(c: char)
    ensures IsSpace(c) <==>
      || c as int in {9, 10, 11, 12, 13, 32, 160, 0x1680, 0x2028, 0x2029, 0x202F, 0x205F, 0x3000, 0xFEFF}
      || 0x2000 <= c as int <= 0x200A
  {
  }

  /** Where the digits that end `s[..n]` begin. */
  function DigitsStart(s: string, n: nat): (k: nat)
    requires n <= |s|
    ensures k <= n
  {
    if n == 0 || !IsDigit(s[n - 1]) then n else DigitsStart(s, n - 1)
  }

  /** `s.replace(/:\d+$/, "")` */
  function StripPort(s: string): (r: string)
    ensures r <= s
  {
    var k := DigitsStart(s, |s|);
    if 0 < k < |s| && s[k - 1] == ':' then s[..k - 1] else s
  }

  /** What `StripPort` removes: empty, or a colon and digits. */
  function PortOf(s: string): (r: string)
    ensures IsAuthority(s) ==> IsAuthority(r)
  {
    var k := |StripPort(s)|;
    assert forall i :: 0 <= i < |s| - k ==> s[k..][i] == s[k + i];
    s[k..]
  }

  /** Ends a URL's authority. */
  predicate EndsAuthority(c: char) { c == '/' || c == '\\' || c == '?' || c == '#' }

  /** A host name with or without a port, as it stands in a URL: no delimiter and no user part. */
  predicate IsAuthority(s: string) {
    forall i :: 0 <= i < |s| ==> !EndsAuthority(s[i]) && s[i] != '@'
  }

  type Authority = s: string | IsAuthority(s) witness ""

  function SlashesEnd(s: string, n: nat): (k: nat)
    requires n <= |s|
    ensures n <= k <= |s| && forall i :: n <= i < k ==> s[i] == '/' || s[i] == '\\'
    ensures k < |s| ==> s[k] != '/' && s[k] != '\\'
    decreases |s| - n
  {
    if n < |s| && (s[n] == '/' || s[n] == '\\') then SlashesEnd(s, n + 1) else n
  }

  function AuthorityEnd(s: string, n: nat): (k: nat)
    requires n <= |s|
    ensures n <= k <= |s| && forall i :: n <= i < k ==> !EndsAuthority(s[i])
    ensures k < |s| ==> EndsAuthority(s[k])
    decreases |s| - n
  {
    if n < |s| && !EndsAuthority(s[n]) then AuthorityEnd(s, n + 1) else n
  }

  /** Just after the last '@' of `s[from..n]`, or `from`. */
  function UserEnd(s: string, from: nat, n: nat): (k: nat)
    requires from <= n <= |s|
    ensures from <= k <= n && forall i :: k <= i < n ==> s[i] != '@'
    ensures k > from ==> s[k - 1] == '@'
  {
    if n == from || s[n - 1] == '@' then n else UserEnd(s, from, n - 1)
  }

  /** The authority the URL parser reads after `scheme://`: slashes are skipped, a delimiter ends it, and a user part
      is cut off. */
  function UrlAuthority(s: string): (a: Authority)
    ensures IsAuthority(s) ==> a == s
  {
    if IsAuthority(s) then s
    else
      var from := SlashesEnd(s, 0);
      var to := AuthorityEnd(s, from);
      var at := UserEnd(s, from, to);
      SliceIsAuthority(s, at, to);
      s[at..to]
  }

  lemma SliceIsAuthority(s: string, at: nat, to: nat)
    requires at <= to <= |s| && forall i :: at <= i < to ==> !EndsAuthority(s[i]) && s[i] != '@'
    ensures IsAuthority(s[at..to])
  {
    assert forall i :: 0 <= i < to - at ==> s[at..to][i] == s[at + i];
  }

  /** A name the hostname setter accepts. */
  predicate Settable(name: string) {
    name != "" && IsAuthority(name) && forall i :: 0 <= i < |name| ==> name[i] != ':'
  }

  lemma AuthorityAppend(a: string, b: string)
    ensures IsAuthority(a) && IsAuthority(b) ==> IsAuthority(a + b)
  {
    assert forall i :: |a| <= i < |a + b| ==> (a + b)[i] == b[i - |a|];
  }

  /** Assigning `url.hostname` reads up to a delimiter, replaces the name and keeps the port; a name that is not
      accepted changes nothing. */
  function WithHostname(authority: Authority, name: string): (r: Authority)
    ensures Settable(name) ==> r == name + PortOf(authority)
  {
    var read := name[..AuthorityEnd(name, 0)];
    AuthorityAppend(read, PortOf(authority));
    if Settable(read) then read + PortOf(authority) else authority
  }

  function LowerChar(c: char): char {
    if 'A' <= c <= 'Z' then c - 'A' + 'a' else c
  }

  function Lower(s: string): (r: string)
    ensures |r| == |s| && forall i {:trigger r[i]} :: 0 <= i < |s| ==> r[i] == LowerChar(s[i])
  {
    if s == [] then [] else Lower(s[..|s| - 1]) + [LowerChar(s[|s| - 1])]
  }

  function TrimStart(s: string): string {
    if s != [] && IsSpace(s[0]) then TrimStart(s[1..]) else s
  }

  function TrimEnd(s: string): string {
    if s != [] && IsSpace(s[|s| - 1]) then TrimEnd(s[..|s| - 1]) else s
  }

  function Trim(s: string): string {
    TrimEnd(TrimStart(s))
  }

  predicate AllSpace(s: string) {
    forall i :: 0 <= i < |s| ==> IsSpace(s[i])
  }

  /** `s.trim()` is the stretch of `s` from `i` to `j`: only white space around it, and none at its ends. */
  predicate TrimsAt(s: string, i: nat, j: nat) {
    && i <= j <= |s| && AllSpace(s[..i]) && AllSpace(s[j..])
    && (i < j ==> !IsSpace(s[i]) && !IsSpace(s[j - 1]))
  }

  ghost predicate IsTrimmed(s: string, t: string) {
    exists i: nat, j: nat :: TrimsAt(s, i, j) && t == s[i..j]
  }

  lemma AllSpaceConcat(a: string, b: string)
    ensures AllSpace(a + b) <==> AllSpace(a) && AllSpace(b)
  {
    hide IsSpace;
    assert forall i :: 0 <= i < |a| ==> (a + b)[i] == a[i];
    assert forall i :: 0 <= i < |b| ==> (a + b)[|a| + i] == b[i];
  }

  lemma OneSpace(c: char)
    ensures AllSpace([c]) <==> IsSpace(c)
  {
    assert [c][0] == c;
  }

  lemma {:induction false} TrimStartAt(s: string) returns (i: nat)
    ensures i <= |s| && TrimStart(s) == s[i..] && AllSpace(s[..i]) && (i < |s| ==> !IsSpace(s[i]))
  {
    hide IsSpace;
    i := 0;
    if s != [] && IsSpace(s[0]) {
      var k := TrimStartAt(s[1..]);
      hide AllSpace;
      i := k + 1;
      OneSpace(s[0]);
      AllSpaceConcat([s[0]], s[1..][..k]);
      assert s[..i] == [s[0]] + s[1..][..k];
    }
  }

  lemma {:induction false} TrimEndAt(s: string) returns (j: nat)
    ensures j <= |s| && TrimEnd(s) == s[..j] && AllSpace(s[j..]) && (j > 0 ==> !IsSpace(s[j - 1]))
  {
    hide IsSpace;
    j := |s|;
    if s != [] && IsSpace(s[|s| - 1]) {
      var n := |s| - 1;
      j := TrimEndAt(s[..n]);
      hide AllSpace;
      OneSpace(s[n]);
      AllSpaceConcat(s[..n][j..], [s[n]]);
      assert s[j..] == s[..n][j..] + [s[n]];
    }
  }

  lemma TrimsAtOnce(s: string, i: nat, j: nat, k: nat, l: nat)
    requires TrimsAt(s, i, j) && TrimsAt(s, k, l)
    ensures s[i..j] == s[k..l]
  {
    assert forall m :: 0 <= m < i ==> s[..i][m] == s[m];
    assert forall m :: j <= m < |s| ==> s[j..][m - j] == s[m];
    assert forall m :: 0 <= m < k ==> s[..k][m] == s[m];
    assert forall m :: l <= m < |s| ==> s[l..][m - l] == s[m];
  }

  /** Trimming removes the white space at both ends and nothing else. */
  lemma TrimIff(s: string, t: string)
    ensures Trim(s) == t <==> IsTrimmed(s, t)
  {
    var i := TrimStartAt(s);
    var rest := s[i..];
    var n := TrimEndAt(rest);
    var j := i + n;
    assert rest[..n] == s[i..j] && rest[n..] == s[j..];
    assert TrimsAt(s, i, j);
    if k: nat, l: nat :| TrimsAt(s, k, l) && t == s[k..l] {
      TrimsAtOnce(s, i, j, k, l);
    }
  }

  /** The part of `s` before the first `c`, or all of it. */
  function Before(s: string, c: char): (r: string)
    ensures r <= s && c !in r
    ensures |r| < |s| ==> s[|r|] == c
  {
    if s == [] || s[0] == c then [] else [s[0]] + Before(s[1..], c)
  }

  /** `s.indexOf(c, from)`, or the length if there is none. */
  function IndexFrom(s: string, c: char, from: nat): (k: nat)
    requires from <= |s|
    ensures from <= k <= |s| && c !in s[from..k]
    ensures k < |s| ==> s[k] == c
    decreases |s| - from
  {
    if from == |s| || s[from] == c then from else IndexFrom(s, c, from + 1)
  }

  lemma {:induction false} BeforeAppend(text: string, rest: string, c: char)
    requires c !in text && (rest == "" || rest[0] == c)
    ensures Before(text + rest, c) == text
  {
    if text == "" {
      assert text + rest == rest;
    } else {
      assert (text + rest)[1..] == text[1..] + rest;
      BeforeAppend(text[1..], rest, c);
    }
  }

  lemma {:induction false} DigitsStartIs(s: string, n: nat, k: nat)
    requires k <= n <= |s| && (k > 0 ==> !IsDigit(s[k - 1])) && forall i :: k <= i < n ==> IsDigit(s[i])
    ensures DigitsStart(s, n) == k
  {
    if k < n {
      DigitsStartIs(s, n - 1, k);
    }
  }

  lemma {:induction false} DigitsFromStart(s: string, n: nat)
    requires n <= |s|
    ensures forall i :: DigitsStart(s, n) <= i < n ==> IsDigit(s[i])
    ensures DigitsStart(s, n) > 0 ==> !IsDigit(s[DigitsStart(s, n) - 1])
  {
    if n > 0 && IsDigit(s[n - 1]) {
      DigitsFromStart(s, n - 1);
    }
  }

  /** A port: a colon and digits. */
  predicate IsPort(s: string) {
    |s| > 1 && s[0] == ':' && forall i :: 1 <= i < |s| ==> IsDigit(s[i])
  }

  lemma PortIsPort(s: string)
    ensures PortOf(s) == "" || IsPort(PortOf(s))
  {
    DigitsFromStart(s, |s|);
    var k := |StripPort(s)|;
    assert forall i :: 0 <= i < |s| - k ==> s[k..][i] == s[k + i];
  }

  lemma StripAppended(name: string, port: string)
    requires IsPort(port)
    ensures StripPort(name + port) == name
  {
    var s, k := name + port, |name|;
    assert s[k] == ':' && forall i :: k < i < |s| ==> s[i] == port[i - k];
    DigitsStartIs(s, |s|, k + 1);
    assert s[..k] == name;
  }

  /** A name without a port, given a port taken from another authority, strips back to the name. */
  lemma StripWithHostname(authority: Authority, name: string)
    requires Settable(name)
    ensures StripPort(WithHostname(authority, name)) == name
    ensures PortOf(WithHostname(authority, name)) == PortOf(authority)
  {
    var port := PortOf(authority);
    PortIsPort(authority);
    if port == "" {
      assert name + port == name;
    } else {
      hide IsPort, StripPort;
      StripAppended(name, port);
    }
    assert (name + port)[|name|..] == port;
  }

  /** Prefixing a label to a name without a port gives a name without a port. */
  lemma StripPortOfSubdomain(sub: string, d: string)
    requires d != [] && StripPort(d) == d
    ensures StripPort(sub + "." + d) == sub + "." + d
  {
    var s, at := sub + "." + d, |sub| + 1;
    var k := DigitsStart(d, |d|);
    DigitsFromStart(d, |d|);
    assert s[at - 1] == '.' && forall i :: 0 <= i < |d| ==> s[at + i] == d[i];
    assert forall i :: at + k <= i < |s| ==> s[i] == d[i - at];
    assert k > 0 ==> s[at + k - 1] == d[k - 1];
    DigitsStartIs(s, |s|, at + k);
  }
}
