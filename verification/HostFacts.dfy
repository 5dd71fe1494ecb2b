/** How host names survive the string operations of the registry and the middleware. */
module HostFacts {
  import opened Strings
  import opened Registry
  import opened WebMiddleware

  /** A lower-case name that the hostname setter accepts, without surrounding blanks. */
  predicate PlainName(name: string) {
    Settable(name) && Trim(name) == name && Lower(name) == name && StripPort(name) == name
  }

  lemma {:induction false} TrimStartKeeps(s: string)
    ensures s != [] && !IsSpace(s[0]) ==> TrimStart(s) == s
    ensures TrimStart(s) != [] ==> !IsSpace(TrimStart(s)[0])
    ensures |TrimStart(s)| <= |s|
  {
    if s != [] && IsSpace(s[0]) {
      TrimStartKeeps(s[1..]);
    }
  }

  lemma {:induction false} TrimEndKeeps(s: string)
    ensures s != [] && !IsSpace(s[|s| - 1]) ==> TrimEnd(s) == s
    ensures TrimEnd(s) != [] ==> !IsSpace(TrimEnd(s)[|TrimEnd(s)| - 1])
    ensures TrimEnd(s) <= s
  {
    if s != [] && IsSpace(s[|s| - 1]) {
      TrimEndKeeps(s[..|s| - 1]);
    }
  }

  lemma TrimmedEnds(s: string)
    ensures s != [] && Trim(s) == s ==> !IsSpace(s[0]) && !IsSpace(s[|s| - 1])
    ensures s != [] && !IsSpace(s[0]) && !IsSpace(s[|s| - 1]) ==> Trim(s) == s
  {
    TrimStartKeeps(s);
    TrimEndKeeps(TrimStart(s));
  }

  lemma PortIsPlain(authority: string)
    ensures Lower(PortOf(authority)) == PortOf(authority)
    ensures PortOf(authority) != "" ==> IsDigit(PortOf(authority)[|PortOf(authority)| - 1])
  {
    DigitsFromStart(authority, |authority|);
    var port := PortOf(authority);
    assert forall i :: 0 < i < |port| ==> port[i] == authority[|StripPort(authority)| + i];
  }

  lemma LowerConcat(a: string, b: string)
    ensures Lower(a + b) == Lower(a) + Lower(b)
  {
  }

  // ---------------------------------------------------------------- ordinary texts

  predicate IsLowerText(s: string) {
    forall i :: 0 <= i < |s| ==> LowerChar(s[i]) == s[i]
  }

  lemma LowerTextIsLower(s: string)
    requires IsLowerText(s)
    ensures Lower(s) == s
  {
    assert |Lower(s)| == |s| && forall i :: 0 <= i < |s| ==> Lower(s)[i] == s[i];
    hide Lower;
  }

  lemma NoPort(s: string)
    requires s != "" && !IsDigit(s[|s| - 1])
    ensures StripPort(s) == s
  {
  }

  lemma OrdinaryEnds(s: string)
    requires s != "" && '0' <= s[0] <= 'z' && '0' <= s[|s| - 1] <= 'z'
    ensures Trim(s) == s
  {
    TrimmedEnds(s);
    hide Trim;
  }

  lemma OrdinaryIsNormal(s: string)
    requires s != "" && 'a' <= s[0] <= 'z' && 'a' <= s[|s| - 1] <= 'z' && IsLowerText(s) && !("www." <= s)
    ensures NormalizeHost(s) == s && StripPort(s) == s
  {
    OrdinaryEnds(s);
    LowerTextIsLower(s);
    NoPort(s);
    hide Trim, Lower, StripPort;
  }

  // ---------------------------------------------------------------- plain names

  lemma DigitIsNoSpace(c: char)
    requires IsDigit(c)
    ensures !IsSpace(c)
  {
  }

  /** Only the ends of a text are trimmed. */
  lemma TrimmedAround(a: string, m: string, b: string)
    requires a != "" && Trim(a) == a && b != "" && (Trim(b) == b || IsDigit(b[|b| - 1]))
    ensures Trim(a + m + b) == a + m + b
  {
    hide Trim, IsSpace;
    var s := a + m + b;
    if IsDigit(b[|b| - 1]) {
      DigitIsNoSpace(b[|b| - 1]);
    }
    TrimmedEnds(a);
    TrimmedEnds(b);
    assert s[0] == a[0] && s[|s| - 1] == b[|b| - 1];
    TrimmedEnds(s);
  }

  lemma SettableHasNoPort(name: string)
    requires Settable(name)
    ensures StripPort(name) == name
  {
  }

  lemma NotBlank(name: string)
    requires Settable(name)
    ensures name != ""
  {
  }

  lemma PlainWithPortIsTrimmed(authority: Authority, name: string)
    requires PlainName(name)
    ensures var full := WithHostname(authority, name); Lower(full) == full && Trim(full) == full
  {
    NotBlank(name);
    hide Settable, Trim, Lower, StripPort, PortOf, WithHostname, IsSpace;
    PortIsPlain(authority);
    TrimmedWithPort(name, PortOf(authority));
  }

  lemma TrimmedWithPort(name: string, port: string)
    requires name != "" && Trim(name) == name && Lower(name) == name
    requires Lower(port) == port && (port == "" || IsDigit(port[|port| - 1]))
    ensures Lower(name + port) == name + port && Trim(name + port) == name + port
  {
    hide Trim, Lower, IsSpace;
    LowerConcat(name, port);
    if port == "" {
      assert name + port == name;
    } else {
      TrimmedAround(name, "", port);
      assert name + "" + port == name + port;
    }
  }

  /** A port does not change how a plain name is routed or trusted. */
  lemma PlainWithPort(site: Site, authority: Authority, name: string)
    requires PlainName(name)
    ensures NormalizeHost(WithHostname(authority, name)) == NormalizeHost(name)
    ensures HostIsTrusted(site, WithHostname(authority, name)) == HostIsTrusted(site, name)
    ensures StripPort(WithHostname(authority, name)) == name
  {
    StripWithHostname(authority, name);
    PlainWithPortIsTrimmed(authority, name);
  }

  lemma WwwInLabel(sub: string, d: string)
    requires sub != "" && "www." <= sub + "." + d
    ensures "www." <= sub + "."
  {
    var s := sub + "." + d;
    assert forall i :: 0 <= i < 4 ==> s[i] == "www."[i];
    assert s[|sub|] == '.';
  }

  lemma SettableSubdomain(sub: string, d: string)
    requires Settable(sub) && Settable(d)
    ensures Settable(sub + "." + d)
    ensures StripPort(d) == d
  {
  }

  lemma DotIsLower()
    ensures Lower(".") == "."
  {
  }

  /** A plain label before a plain name is a plain name. */
  lemma PlainSubdomain(sub: string, d: string)
    requires PlainName(d) && PlainName(sub)
    ensures PlainName(sub + "." + d)
    ensures !("www." <= sub + ".") ==> NormalizeHost(sub + "." + d) == sub + "." + d
  {
    var s := sub + "." + d;
    SettableSubdomain(sub, d);
    assert sub != "" && d != "" && Trim(sub) == sub && Trim(d) == d && Lower(sub) == sub && Lower(d) == d;
    hide Settable, Trim, Lower;
    assert StripPort(s) == s by { StripPortOfSubdomain(sub, d); }
    assert Lower(s) == s by {
      LowerConcat(sub, ".");
      LowerConcat(sub + ".", d);
      DotIsLower();
    }
    TrimmedAround(sub, ".", d);
    if "www." <= s {
      WwwInLabel(sub, d);
    }
  }

  lemma SubdomainEnds(sub: string, d: string)
    ensures EndsWith(sub + "." + d, "." + d)
  {
    var s := sub + "." + d;
    assert s[|s| - |d| - 1..] == "." + d;
  }

  lemma {:induction false} WithinAnyHas(domains: seq<string>, n: nat, d: string, host: string)
    requires n <= |domains| && d in domains[..n] && WithinApex(host, d)
    ensures WithinAny(domains, n, host)
  {
    if domains[n - 1] != d {
      WithinAnyHas(domains, n - 1, d, host);
    }
  }

  lemma {:induction false} AnyTradeHostHas(site: Site, n: nat, d: string)
    requires n <= |site.domains| && d in site.domains[..n]
    ensures AnyTradeHost(site, n, TradeHostOf(site, d))
  {
    if site.domains[n - 1] != d {
      AnyTradeHostHas(site, n - 1, d);
    }
  }

  /** Every apex is trusted. */
  lemma ApexIsTrusted(site: Site, d: string)
    requires d in site.domains && StripPort(d) == d
    ensures HostIsTrusted(site, d)
  {
    WithinAnyHas(site.domains, |site.domains|, d, d);
  }

  lemma {:induction false} NoTradeHost(site: Site, n: nat, host: string)
    requires n <= |site.domains| && forall e :: e in site.domains ==> TradeHostOf(site, e) != host
    ensures !AnyTradeHost(site, n, host)
  {
    if n > 0 {
      NoTradeHost(site, n - 1, host);
    }
  }

  /** When no trade host is an apex, no apex is a trade host. */
  lemma ApexIsNoTradeHost(site: Site, d: string)
    requires d in site.domains && forall e :: e in site.domains ==> TradeHostOf(site, e) !in site.domains
    ensures !IsTradeHost(site, d)
  {
    NoTradeHost(site, |site.domains|, d);
  }
}
