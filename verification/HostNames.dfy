/** What the host-name operations compute, said by how a text is put together. */
module HostNames {
  import opened Basics
  import opened Strings
  import opened Registry
  import opened WebMiddleware

  // ---------------------------------------------------------------- ports

  /** A text with a port is a name and that port; stripping gives the name, and other texts stay. */
  lemma StripPortIff(s: string, name: string)
    ensures StripPort(s) == name <==>
      || (exists port :: IsPort(port) && s == name + port)
      || (name == s && forall head, port :: s == head + port ==> !IsPort(port))
  {
    PortIsPort(s);
    assert s == StripPort(s) + PortOf(s);
    forall head, port | IsPort(port) && s == head + port ensures StripPort(s) == head {
      StripAppended(head, port);
    }
    hide IsPort, StripPort;
    if PortOf(s) == "" {
      assert StripPort(s) + "" == StripPort(s);
      forall head, port | s == head + port ensures !IsPort(port) {
        if IsPort(port) {
          PortIsNotEmpty(port);
        }
      }
    }
  }

  lemma PortIsNotEmpty(port: string)
    requires IsPort(port)
    ensures port != "" && forall head: string :: head + port != head
  {
    forall head: string ensures head + port != head {
      assert |head + port| > |head|;
    }
  }

  // ---------------------------------------------------------------- names

  /** The routing host of a header: trimmed, in lower case, without port, and without a leading "www.". */
  lemma NormalizeHostIs(host: string, trimmed: string, bare: string)
    requires IsTrimmed(host, trimmed)
    ensures StripPort(Lower(trimmed)) == "www." + bare ==> NormalizeHost(host) == bare
    ensures StripPort(Lower(trimmed)) == bare && !("www." <= bare) ==> NormalizeHost(host) == bare
  {
    TrimIff(host, trimmed);
    hide Trim, Lower, StripPort;
    assert ("www." + bare)[4..] == bare;
  }

  lemma RegistryLabelIs(site: Site, trimmed: string)
    ensures site.tradeSubdomain == None || site.tradeSubdomain == Some("") ==> RegistryLabel(site) == "trade"
    ensures
      (site.tradeSubdomain.Some? && site.tradeSubdomain.value != "" && IsTrimmed(site.tradeSubdomain.value, trimmed))
      ==> RegistryLabel(site) == Lower(trimmed)
  {
    if site.tradeSubdomain.Some? {
      TrimIff(site.tradeSubdomain.value, trimmed);
    }
    hide Trim, Lower;
  }

  lemma EndsWithIff(s: string, suffix: string)
    ensures EndsWith(s, suffix) <==> exists head :: s == head + suffix
  {
    if EndsWith(s, suffix) {
      assert s == s[..|s| - |suffix|] + suffix;
    }
  }

  /** A development name ends in ".localhost"; it is kept as the routing host spells it. */
  lemma LocalDevelopmentHostIff(host: string, name: string)
    ensures LocalDevelopmentHost(host) == Some(name) <==>
      name == NormalizeHost(host) && exists head :: name == head + ".localhost"
  {
    EndsWithIff(NormalizeHost(host), ".localhost");
    hide NormalizeHost, EndsWith;
  }

  // ---------------------------------------------------------------- local hosts

  predicate IsNumber(s: string) {
    s != "" && forall i :: 0 <= i < |s| ==> '0' <= s[i] <= '9'
  }

  /** The rest of an address: digits, and then one more dot and number for every number still to come. */
  ghost predicate Numbers(s: string, more: nat)
    decreases more
  {
    exists d: string, rest: string ::
      && s == d + rest && IsNumber(d)
      && if more == 0 then rest == "" else rest != "" && rest[0] == '.' && Numbers(rest[1..], more - 1)
  }

  function DigitsEnd(s: string): (n: nat)
    ensures n <= |s| && (forall i :: 0 <= i < n ==> IsDigit(s[i])) && (n < |s| ==> !IsDigit(s[n]))
  {
    if s == "" || !IsDigit(s[0]) then 0 else 1 + DigitsEnd(s[1..])
  }

  lemma {:induction false} InNumber(s: string, dots: nat)
    ensures var rest := s[DigitsEnd(s)..];
      DottedQuadFrom(s, dots, true) <==>
        if rest == "" then dots == 3 else rest[0] == '.' && DottedQuadFrom(rest[1..], dots + 1, false)
  {
    if s != "" && IsDigit(s[0]) {
      InNumber(s[1..], dots);
      assert s[1..][DigitsEnd(s[1..])..] == s[DigitsEnd(s)..];
    } else {
      assert s[0..] == s;
    }
  }

  lemma LongestNumber(s: string, d: string, rest: string)
    requires s == d + rest && IsNumber(d) && (rest == "" || !IsDigit(rest[0]))
    ensures d == s[..DigitsEnd(s)] && rest == s[DigitsEnd(s)..]
  {
    var n := DigitsEnd(s);
    assert n < |s| ==> !IsDigit(s[n]);
    assert forall i :: 0 <= i < |d| ==> IsDigit(s[i]);
    assert rest != "" ==> s[|d|] == rest[0];
    assert n == |d|;
  }

  /** The first number of an address can only be the longest one. */
  lemma FirstNumber(s: string, more: nat)
    ensures var n := DigitsEnd(s); var rest := s[n..];
      Numbers(s, more) <==>
        n > 0 && if more == 0 then rest == "" else rest != "" && rest[0] == '.' && Numbers(rest[1..], more - 1)
  {
    var n := DigitsEnd(s);
    assert s == s[..n] + s[n..];
    if n > 0 {
      assert IsNumber(s[..n]);
    }
    forall d, rest | s == d + rest && IsNumber(d) && (rest == "" || rest[0] == '.')
      ensures d == s[..n] && rest == s[n..]
    {
      LongestNumber(s, d, rest);
    }
  }

  lemma FirstDigits(s: string, dots: nat)
    ensures var n := DigitsEnd(s); var rest := s[n..];
      DottedQuadFrom(s, dots, false) <==>
        n > 0 && if rest == "" then dots == 3 else rest[0] == '.' && DottedQuadFrom(rest[1..], dots + 1, false)
  {
    if s != "" && IsDigit(s[0]) {
      InNumber(s[1..], dots);
      assert s[1..][DigitsEnd(s[1..])..] == s[DigitsEnd(s)..];
    }
  }

  lemma {:induction false} QuadIff(s: string, dots: nat)
    requires dots <= 3
    ensures DottedQuadFrom(s, dots, false) <==> Numbers(s, 3 - dots)
    decreases 3 - dots
  {
    hide DottedQuadFrom, Numbers, IsNumber;
    FirstDigits(s, dots);
    FirstNumber(s, 3 - dots);
    var rest := s[DigitsEnd(s)..];
    if rest != "" {
      if dots < 3 {
        QuadIff(rest[1..], dots + 1);
      } else {
        TooManyDots(rest[1..], 4, false);
      }
    }
  }

  lemma {:induction false} TooManyDots(s: string, dots: nat, inNumber: bool)
    requires dots > 3
    ensures !DottedQuadFrom(s, dots, inNumber)
    decreases |s|
  {
    if s != "" {
      TooManyDots(s[1..], dots, true);
      TooManyDots(s[1..], dots + 1, false);
    }
  }

  /** A local host is "localhost", anything that begins with 127.0.0.1, or four numbers with dots between. */
  lemma IsLocalHostIff(host: string, trimmed: string)
    requires IsTrimmed(host, trimmed)
    ensures var name := StripPort(Lower(trimmed));
      IsLocalHost(host) <==> name == "localhost" || "127.0.0.1" <= name || Numbers(name, 3)
  {
    TrimIff(host, trimmed);
    QuadIff(StripPort(Lower(trimmed)), 0);
    hide Trim, Lower, StripPort, Numbers, DottedQuadFrom;
  }

  // ---------------------------------------------------------------- authorities

  /** The host in a URL: slashes up to `i`, a user part with an '@' at its end up to `j`, the host up to `k`, and there
      the end or a delimiter. */
  predicate HostStands(s: string, i: nat, j: nat, k: nat) {
    && i <= j <= k <= |s|
    && (forall n :: 0 <= n < i ==> s[n] == '/' || s[n] == '\\')
    && (i < |s| ==> s[i] != '/' && s[i] != '\\')
    && (forall n :: i <= n < k ==> !EndsAuthority(s[n]))
    && (k < |s| ==> EndsAuthority(s[k]))
    && (i < j ==> s[j - 1] == '@')
    && forall n :: j <= n < k ==> s[n] != '@'
  }

  lemma HostStandsOnce(s: string, i: nat, j: nat, k: nat)
    requires HostStands(s, i, j, k)
    ensures SlashesEnd(s, 0) == i && AuthorityEnd(s, i) == k && UserEnd(s, i, k) == j
  {
    var from := SlashesEnd(s, 0);
    assert from == i;
    var to := AuthorityEnd(s, i);
    assert to == k;
  }

  lemma WholeText(s: string, i: nat, j: nat, k: nat)
    requires HostStands(s, i, j, k) && IsAuthority(s)
    ensures i == 0 && j == 0 && k == |s|
  {
    assert i > 0 ==> EndsAuthority(s[0]);
  }

  /** What the URL parser reads is the host that stands in the text, and one always does. */
  lemma UrlAuthorityIff(s: string, host: string)
    ensures UrlAuthority(s) == host <==> exists i: nat, j: nat, k: nat :: HostStands(s, i, j, k) && host == s[j..k]
  {
    var from := SlashesEnd(s, 0);
    var to := AuthorityEnd(s, from);
    var at := UserEnd(s, from, to);
    assert HostStands(s, from, at, to);
    if IsAuthority(s) {
      WholeText(s, from, at, to);
      assert s[0..|s|] == s;
    }
    forall i: nat, j: nat, k: nat | HostStands(s, i, j, k) ensures s[j..k] == UrlAuthority(s) {
      HostStandsOnce(s, i, j, k);
    }
  }

  /** Setting a hostname reads up to a delimiter; a name that is then not acceptable changes nothing. */
  lemma WithHostnameIs(authority: Authority, name: string, after: string)
    requires forall i :: 0 <= i < |name| ==> !EndsAuthority(name[i])
    requires after != "" ==> EndsAuthority(after[0])
    ensures WithHostname(authority, name + after) == if Settable(name) then name + PortOf(authority) else authority
  {
    var s := name + after;
    assert forall i :: 0 <= i < |name| ==> s[i] == name[i];
    assert after != "" ==> s[|name|] == after[0];
    assert AuthorityEnd(s, 0) == |name| && s[..|name|] == name;
    hide Settable, PortOf;
  }
}
