/** POST /scan from the first body chunk to the HTTP answer. */
module ScannerGateway {
  import opened Basics
  import opened Strings
  import opened Instream
  import BodyReader
  import ScanPromise

  // ---------------------------------------------------------------- verdict mapping

  const FOUND: string := " FOUND"

  predicate NoSpace(s: string) {
    forall i :: 0 <= i < |s| ==> !IsSpace(s[i])
  }

  function WordStart(s: string, n: nat): (k: nat)
    requires n <= |s|
    ensures k <= n && forall i :: k <= i < n ==> !IsSpace(s[i])
    ensures k > 0 ==> IsSpace(s[k - 1])
  {
    if n == 0 || IsSpace(s[n - 1]) then n else WordStart(s, n - 1)
  }

  /** The longest suffix without white space. */
  function LastWord(s: string): (w: string)
    ensures |w| <= |s| && s[|s| - |w|..] == w && NoSpace(w)
    ensures |w| < |s| ==> IsSpace(s[|s| - |w| - 1])
  {
    s[WordStart(s, |s|)..]
  }

  /** The group of `/(\S+) FOUND$/`, if the pattern matches. */
  function Signature(verdict: string): Option<string> {
    if EndsWith(verdict, FOUND) && LastWord(verdict[..|verdict| - |FOUND|]) != ""
    then Some(LastWord(verdict[..|verdict| - |FOUND|]))
    else None
  }

  predicate IsLastWord(s: string, w: string) {
    && NoSpace(w) && EndsWith(s, w)
    && (|w| < |s| ==> IsSpace(s[|s| - |w| - 1]))
  }

  lemma LongerSuffix(s: string, v: string, w: string)
    requires EndsWith(s, v) && EndsWith(s, w) && |v| < |w|
    ensures s[|s| - |v| - 1] == w[|w| - |v| - 1]
  {
  }

  lemma LastWordIsUnique(s: string, v: string, w: string)
    requires IsLastWord(s, v) && IsLastWord(s, w)
    ensures v == w
  {
    if |v| < |w| {
      LongerSuffix(s, v, w);
      assert false;
    } else if |w| < |v| {
      LongerSuffix(s, w, v);
      assert false;
    }
  }

  /** A signature is the word before the suffix: whole, non-empty, and the only one that could be. */
  lemma SignatureIff(verdict: string, name: string)
    ensures Signature(verdict) == Some(name) <==>
      && name != "" && EndsWith(verdict, FOUND)
      && IsLastWord(verdict[..|verdict| - |FOUND|], name)
  {
    if EndsWith(verdict, FOUND) {
      var front := verdict[..|verdict| - |FOUND|];
      assert IsLastWord(front, LastWord(front));
      if IsLastWord(front, name) {
        LastWordIsUnique(front, name, LastWord(front));
      }
    }
  }

  datatype Answer = Clean | Blocked(signature: string) | Error(status: int)

  function AnswerTo(verdict: string): Answer {
    if verdict == "stream: OK" then Clean
    else match Signature(verdict)
      case Some(name) => Blocked(name)
      case None => Error(502)
  }

  // ---------------------------------------------------------------- the handler

  datatype Call = Call(verb: string, url: string, authorized: bool)

  /** The answer to a scan call, once both promises have settled as given; None while one is pending. */
  function Handle(call: Call, body: BodyReader.Outcome, scan: ScanPromise.Outcome): Option<Answer> {
    if call.verb != "POST" || call.url != "/scan" then Some(Error(404))
    else if !call.authorized then Some(Error(401))
    else match body
      case Pending => None
      case TooLarge => Some(Error(413))
      case Failed => Some(Error(502))
      case Accepted(_) =>
        match scan
        case Pending => None
        case Rejected => Some(Error(502))
        case Resolved(verdict) => Some(AnswerTo(verdict))
  }

  function Serve(call: Call, max: nat, body: seq<BodyReader.BodyEvent>, scan: seq<ScanPromise.ScanEvent>)
    : Option<Answer>
  {
    Handle(call, BodyReader.Run(max, BodyReader.Start, body).outcome, ScanPromise.Run(ScanPromise.Start, scan).outcome)
  }

  predicate IsScanCall(call: Call) {
    call.verb == "POST" && call.url == "/scan" && call.authorized
  }

  /** The text a settled scan is judged by: everything received up to the settling event. */
  function SettledText(scan: seq<ScanPromise.ScanEvent>, k: nat): string
    requires k < |scan|
  {
    ScanPromise.Received(scan[..k]) + if scan[k].Reply? then scan[k].text else ""
  }

  /** The scan is settled by a NUL in the reply, or by a close after something was received. */
  predicate HasVerdict(scan: seq<ScanPromise.ScanEvent>, k: nat)
    requires k < |scan|
  {
    scan[k].Reply? || (scan[k].Closed? && ScanPromise.SaysSomething(SettledText(scan, k)))
  }

  /** A verdict that names a signature: the word before " FOUND". */
  predicate Names(verdict: string, name: string) {
    && verdict != "stream: OK" && name != "" && EndsWith(verdict, " FOUND")
    && IsLastWord(verdict[..|verdict| - 6], name)
  }

  lemma SettledScan(scan: seq<ScanPromise.ScanEvent>, k: nat)
    requires ScanPromise.SettlesAt(scan, k)
    ensures var o := ScanPromise.Run(ScanPromise.Start, scan).outcome;
      if HasVerdict(scan, k) then o.Resolved? && ScanPromise.Reads(SettledText(scan, k), o.verdict)
      else o == ScanPromise.Rejected
  {
    hide ScanPromise.Run, ScanPromise.Reads, ScanPromise.SaysSomething;
    ScanPromise.SettledBy(scan[..k], scan[k], scan[k + 1..]);
    assert scan == scan[..k] + [scan[k]] + scan[k + 1..];
    assert ScanPromise.Received(scan[..k]) + "" == ScanPromise.Received(scan[..k]);
  }

  lemma ReadsOneVerdict(text: string, a: string, b: string)
    requires ScanPromise.Reads(text, a) && ScanPromise.Reads(text, b)
    ensures a == b
  {
    ScanPromise.VerdictIff(text, a);
    ScanPromise.VerdictIff(text, b);
  }

  /** The clean answer is given exactly when the body was accepted and the text received, as of the settling reply
      or close, reads "stream: OK"; over every order of events on both sides. */
  lemma CleanIff(call: Call, max: nat, body: seq<BodyReader.BodyEvent>, scan: seq<ScanPromise.ScanEvent>, k: nat)
    requires ScanPromise.SettlesAt(scan, k)
    ensures Serve(call, max, body, scan) == Some(Clean) <==>
      && IsScanCall(call)
      && BodyReader.Verdict(max, [], body).Accepted?
      && HasVerdict(scan, k) && ScanPromise.Reads(SettledText(scan, k), "stream: OK")
  {
    hide Signature, HasVerdict, SettledText, ScanPromise.Run, ScanPromise.Reads;
    BodyReader.RunVerdict(max, BodyReader.Start, body);
    SettledScan(scan, k);
    if HasVerdict(scan, k) && ScanPromise.Reads(SettledText(scan, k), "stream: OK") {
      ReadsOneVerdict(SettledText(scan, k), "stream: OK", ScanPromise.Run(ScanPromise.Start, scan).outcome.verdict);
    }
  }

  /** A block names the word before " FOUND" in the verdict that settled the scan, by a reply or by a close with
      something received, and is given exactly then. */
  lemma BlockedIff(call: Call, max: nat, body: seq<BodyReader.BodyEvent>, scan: seq<ScanPromise.ScanEvent>, k: nat,
                   name: string)
    requires ScanPromise.SettlesAt(scan, k)
    ensures Serve(call, max, body, scan) == Some(Blocked(name)) <==>
      && IsScanCall(call)
      && BodyReader.Verdict(max, [], body).Accepted?
      && HasVerdict(scan, k)
      && exists verdict :: ScanPromise.Reads(SettledText(scan, k), verdict) && Names(verdict, name)
  {
    hide Signature, HasVerdict, SettledText, ScanPromise.Run, ScanPromise.Reads, Names;
    BodyReader.RunVerdict(max, BodyReader.Start, body);
    SettledScan(scan, k);
    if HasVerdict(scan, k) {
      var verdict := ScanPromise.Run(ScanPromise.Start, scan).outcome.verdict;
      BlockedAnswerIff(verdict, name);
      if v :| ScanPromise.Reads(SettledText(scan, k), v) && Names(v, name) {
        ReadsOneVerdict(SettledText(scan, k), v, verdict);
      }
    }
  }

  lemma BlockedAnswerIff(verdict: string, name: string)
    ensures AnswerTo(verdict) == Blocked(name) <==> Names(verdict, name)
  {
    SignatureIff(verdict, name);
  }

  /** The scan ended with a verdict, and it says that the file is clean or names a signature. */
  ghost predicate SaysCleanOrFound(scan: seq<ScanPromise.ScanEvent>, k: nat)
    requires k < |scan|
  {
    && HasVerdict(scan, k)
    && exists verdict ::
         && ScanPromise.Reads(SettledText(scan, k), verdict)
         && (verdict == "stream: OK" || exists name :: Names(verdict, name))
  }

  /** Every other settled request is refused with the status that fits: a wrong call, a missing token, a body over
      the limit, and 502 for a body that broke off, a scan without a verdict, and a verdict that says neither. */
  lemma StatusIff(call: Call, max: nat, body: seq<BodyReader.BodyEvent>, scan: seq<ScanPromise.ScanEvent>, k: nat)
    requires ScanPromise.SettlesAt(scan, k)
    ensures var a, read := Serve(call, max, body, scan), BodyReader.Verdict(max, [], body);
      && (a == Some(Error(404)) <==> call.verb != "POST" || call.url != "/scan")
      && (a == Some(Error(401)) <==> call.verb == "POST" && call.url == "/scan" && !call.authorized)
      && (a == Some(Error(413)) <==> IsScanCall(call) && read.TooLarge?)
      && (a == Some(Error(502))
          <==> IsScanCall(call) && (read.Failed? || (read.Accepted? && !SaysCleanOrFound(scan, k))))
      && (a.None? <==> IsScanCall(call) && read.Pending?)
  {
    hide HasVerdict, SettledText, ScanPromise.Run, ScanPromise.Reads, Names;
    BodyReader.RunVerdict(max, BodyReader.Start, body);
    SettledScan(scan, k);
    if HasVerdict(scan, k) {
      var verdict := ScanPromise.Run(ScanPromise.Start, scan).outcome.verdict;
      VerdictIsUnclear(verdict);
      forall v | ScanPromise.Reads(SettledText(scan, k), v) ensures v == verdict {
        ReadsOneVerdict(SettledText(scan, k), v, verdict);
      }
    }
  }

  lemma VerdictIsUnclear(verdict: string)
    ensures AnswerTo(verdict) == Error(502) <==> verdict != "stream: OK" && forall name :: !Names(verdict, name)
    ensures AnswerTo(verdict) == Clean <==> verdict == "stream: OK"
  {
    hide Names, Signature;
    forall name ensures Names(verdict, name) <==> AnswerTo(verdict) == Blocked(name) {
      BlockedAnswerIff(verdict, name);
    }
  }

  /** An exchange in which one text arrives before clamd closes. */
  function ClosedAfter(text: string): seq<ScanPromise.ScanEvent> {
    [ScanPromise.Connected, ScanPromise.Reply(text), ScanPromise.Closed]
  }

  lemma ReceivedByClose(text: string)
    ensures ScanPromise.Received(ClosedAfter(text)[..2]) == text
  {
    var reply := [ScanPromise.Reply(text)];
    var both := [ScanPromise.Connected] + reply;
    assert ClosedAfter(text)[..2] == both;
    assert both[1..] == reply && reply[1..] == [];
    assert ScanPromise.Received(reply) == text + "" == text;
    assert ScanPromise.Received(both) == "" + text == text;
  }

  lemma CloseSettles(text: string)
    requires ScanPromise.NUL !in text && ScanPromise.SaysSomething(text)
    ensures ScanPromise.SettlesAt(ClosedAfter(text), 2)
    ensures SettledText(ClosedAfter(text), 2) == text && HasVerdict(ClosedAfter(text), 2)
  {
    ReceivedByClose(text);
    hide ScanPromise.Received, ScanPromise.SaysSomething;
    var before := ClosedAfter(text)[..2];
    assert before[0] == ScanPromise.Connected && before[1] == ScanPromise.Reply(text);
    assert text + "" == text;
  }

  /** clamd's report of a signature blocks the file also when it arrives without a final NUL. */
  lemma FoundThenClosed(call: Call, max: nat, body: seq<BodyReader.BodyEvent>, name: string)
    requires IsScanCall(call) && BodyReader.Verdict(max, [], body).Accepted?
    requires name != "" && NoSpace(name) && ScanPromise.NUL !in name
    ensures Serve(call, max, body, ClosedAfter("stream: " + name + " FOUND")) == Some(Blocked(name))
  {
    hide *;
    var text := "stream: " + name + " FOUND";
    ReportReads(name);
    ReportNames(name);
    CloseSettles(text);
    BlockedIff(call, max, body, ClosedAfter(text), 2, name);
  }

  lemma ReportNames(name: string)
    requires name != "" && NoSpace(name)
    ensures Names("stream: " + name + " FOUND", name)
  {
    var text := "stream: " + name + " FOUND";
    var front := text[..|text| - 6];
    assert front == "stream: " + name;
    assert front[|front| - |name| - 1] == ' ';
    assert text[|text| - 1] == 'D' && text != "stream: OK";
  }

  lemma ReportReads(name: string)
    requires ScanPromise.NUL !in name
    ensures var text := "stream: " + name + " FOUND";
      ScanPromise.NUL !in text && ScanPromise.SaysSomething(text) && ScanPromise.Reads(text, text)
  {
    var text := "stream: " + name + " FOUND";
    assert text[0] == 's' && text[|text| - 1] == 'D';
    assert ScanPromise.NUL !in text;
    WordReads(text);
  }

  lemma WordReads(text: string)
    requires ScanPromise.NUL !in text && text != "" && !IsSpace(text[0]) && !IsSpace(text[|text| - 1])
    ensures ScanPromise.Reads(text, text) && ScanPromise.SaysSomething(text)
  {
    assert ScanPromise.WithoutNul(text) == text;
    assert TrimsAt(text, 0, |text|) && text[0..|text|] == text;
    TrimIff(text, text);
    ScanPromise.VerdictIff(text, text);
    hide Trim, IsTrimmed, ScanPromise.Reads;
  }

  /** A timeout or an error before the verdict always fails closed. */
  lemma {:induction false} FailsClosed(call: Call, max: nat, body: seq<BodyReader.BodyEvent>,
                                       scan: seq<ScanPromise.ScanEvent>, k: nat)
    requires ScanPromise.SettlesAt(scan, k) && (scan[k].TimedOut? || scan[k].Errored?)
    ensures var a := Serve(call, max, body, scan); a.Some? ==> a.value.Error? && a.value.status >= 400
  {
    SettledScan(scan, k);
  }

  /** What clamd decodes is the concatenation of the HTTP body chunks, and an accepted body fits the limit. */
  lemma DaemonSeesTheBody(max: nat, chunks: seq<seq<byte>>, tail: seq<byte>)
    ensures var o := BodyReader.Run(max, BodyReader.Start, BodyReader.DataOf(chunks) + [BodyReader.End]).outcome;
      && (o.Accepted? <==> |BodyReader.Bytes(chunks)| <= max)
      && (o.Accepted? ==> Decode(GREETING + Frames(o.body) + tail) == Stream(BodyReader.Bytes(chunks), tail))
  {
    BodyReader.BodyAcceptedIff(max, chunks);
    InstreamRoundTrip(BodyReader.Bytes(chunks), tail);
  }
}
