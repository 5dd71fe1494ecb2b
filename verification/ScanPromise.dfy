/** The promise around one clamd exchange, driven by socket events in any order. */
module ScanPromise {
  import opened Lists
  import opened Strings

  datatype ScanEvent = Connected | Reply(text: string) | TimedOut | Errored | Closed

  datatype Outcome = Pending | Resolved(verdict: string) | Rejected

  const NUL: char := '\0'

  function WithoutNul(s: string): (r: string)
    ensures NUL !in r
    ensures NUL !in s ==> r == s
  {
    if s == "" then "" else if s[0] == NUL then WithoutNul(s[1..]) else [s[0]] + WithoutNul(s[1..])
  }

  function VerdictOf(response: string): string {
    Trim(WithoutNul(response))
  }

  // ---------------------------------------------------------------- what a verdict is

  function NotNul(): char -> bool {
    (c: char) => c != NUL
  }

  /** The verdict read in a text: every NUL left out, and then the white space at both ends. */
  ghost predicate Reads(text: string, verdict: string) {
    exists kept :: Kept(text, NotNul(), kept) && IsTrimmed(kept, verdict)
  }

  /** Something other than white space was received. */
  predicate SaysSomething(text: string) {
    exists i :: 0 <= i < |text| && !IsSpace(text[i])
  }

  lemma {:induction false} WithoutNulKeeps(text: string)
    ensures Kept(text, NotNul(), WithoutNul(text))
  {
    if text != "" {
      WithoutNulKeeps(text[1..]);
    }
  }

  /** The verdict computed is the one that the text reads as, and no other. */
  lemma VerdictIff(text: string, verdict: string)
    ensures VerdictOf(text) == verdict <==> Reads(text, verdict)
  {
    WithoutNulKeeps(text);
    TrimIff(WithoutNul(text), verdict);
    hide Trim, WithoutNul, Kept, IsTrimmed;
    if kept :| Kept(text, NotNul(), kept) && IsTrimmed(kept, verdict) {
      KeptIsUnique(text, NotNul(), kept, WithoutNul(text));
    }
  }

  lemma SaysSomethingIff(text: string)
    ensures Trim(text) != "" <==> SaysSomething(text)
  {
    TrimIff(text, Trim(text));
    var i: nat, j: nat :| TrimsAt(text, i, j) && Trim(text) == text[i..j];
    assert forall k :: 0 <= k < i ==> text[..i][k] == text[k];
    assert forall k :: j <= k < |text| ==> text[j..][k - j] == text[k];
  }

  datatype State = State(response: string, outcome: Outcome)

  const Start := State("", Pending)

  function Settle(o: Outcome, settled: Outcome): Outcome {
    if o.Pending? then settled else o
  }

  function Step(s: State, e: ScanEvent): State {
    match e
    case Connected => s
    case Reply(text) =>
      var response := s.response + text;
      State(response, if NUL in response then Settle(s.outcome, Resolved(VerdictOf(response))) else s.outcome)
    case TimedOut => s.(outcome := Settle(s.outcome, Rejected))
    case Errored => s.(outcome := Settle(s.outcome, Rejected))
    case Closed =>
      s.(outcome := Settle(s.outcome, if Trim(s.response) != "" then Resolved(VerdictOf(s.response)) else Rejected))
  }

  function Run(s: State, events: seq<ScanEvent>): State
    decreases |events|
  {
    if events == [] then s else Run(Step(s, events[0]), events[1..])
  }

  class Exchange {
    var response: string
    var outcome: Outcome
    var destroyed: bool

    function Abstract(): State
      reads this
    {
      State(response, outcome)
    }

    constructor ()
      ensures Abstract() == Start
    {
      response, outcome, destroyed := "", Pending, false;
    }

    method Resolve(verdict: string)
      modifies `outcome
      ensures outcome == Settle(old(outcome), Resolved(verdict))
    {
      if outcome.Pending? {
        outcome := Resolved(verdict);
      }
    }

    method Reject()
      modifies `outcome
      ensures outcome == Settle(old(outcome), Rejected)
    {
      if outcome.Pending? {
        outcome := Rejected;
      }
    }

    /** A pending promise is settled by the first NUL, with what the text received reads as. */
    method OnData(text: string)
      modifies this
      ensures Abstract() == Step(old(Abstract()), Reply(text))
      ensures response == old(response) + text && destroyed == old(destroyed)
      ensures if old(outcome).Pending? && NUL in response
        then outcome.Resolved? && Reads(response, outcome.verdict) else outcome == old(outcome)
    {
      response := response + text;
      if NUL in response {
        VerdictIff(response, VerdictOf(response));
        Resolve(VerdictOf(response));
      }
    }

    /** Shared by the timeout and error listeners. */
    method Fail()
      modifies this
      ensures Abstract() == Step(old(Abstract()), TimedOut) == Step(old(Abstract()), Errored)
      ensures response == old(response) && destroyed
      ensures outcome == if old(outcome).Pending? then Rejected else old(outcome)
    {
      destroyed := true;
      Reject();
    }

    /** A close settles a pending promise with what was received, if anything was. */
    method OnClose()
      modifies this
      ensures Abstract() == Step(old(Abstract()), Closed)
      ensures response == old(response) && destroyed == old(destroyed)
      ensures if old(outcome).Pending?
        then (if SaysSomething(response) then outcome.Resolved? && Reads(response, outcome.verdict)
              else outcome == Rejected)
        else outcome == old(outcome)
    {
      VerdictIff(response, VerdictOf(response));
      SaysSomethingIff(response);
      hide VerdictOf, Trim, Reads, SaysSomething;
      if Trim(response) != "" {
        Resolve(VerdictOf(response));
      } else {
        Reject();
      }
    }
  }

  // ---------------------------------------------------------------- every run

  /** The promise settles at most once: whatever follows, a settlement stays. */
  lemma {:induction false} SettledStays(s: State, events: seq<ScanEvent>)
    requires !s.outcome.Pending?
    ensures Run(s, events).outcome == s.outcome
    decreases |events|
  {
    if events != [] {
      SettledStays(Step(s, events[0]), events[1..]);
    }
  }

  lemma {:induction false} RunSplits(s: State, a: seq<ScanEvent>, b: seq<ScanEvent>)
    ensures Run(s, a + b) == Run(Run(s, a), b)
    decreases |a|
  {
    if a == [] {
      assert a + b == b;
    } else {
      assert (a + b)[1..] == a[1..] + b;
      RunSplits(Step(s, a[0]), a[1..], b);
    }
  }

  /** The text received in a list of events. */
  function Received(events: seq<ScanEvent>): string {
    if events == [] then ""
    else (if events[0].Reply? then events[0].text else "") + Received(events[1..])
  }

  predicate Quiet(events: seq<ScanEvent>) {
    forall i :: 0 <= i < |events| ==> events[i].Connected? || events[i].Reply?
  }

  /** Events that neither complete a reply nor end the exchange leave it pending with the text so far. */
  lemma {:induction false} QuietRun(s: State, events: seq<ScanEvent>)
    requires s.outcome.Pending? && Quiet(events) && NUL !in s.response + Received(events)
    ensures Run(s, events) == State(s.response + Received(events), Pending)
    decreases |events|
  {
    if events == [] {
      assert s.response + "" == s.response;
    } else {
      var t := Step(s, events[0]);
      assert s.response + Received(events) == t.response + Received(events[1..]);
      QuietRun(t, events[1..]);
    }
  }

  /**
   * A run settles with the first of: a NUL in the text received so far, a close, a timeout or error.
   * Read from the position of that event.
   */
  lemma SettledBy(before: seq<ScanEvent>, e: ScanEvent, after: seq<ScanEvent>)
    requires Quiet(before) && NUL !in Received(before)
    requires e.Reply? ==> NUL in e.text
    requires !e.Connected?
    ensures var text, o := Received(before), Run(Start, before + [e] + after).outcome;
      match e
      case Reply(more) => o.Resolved? && Reads(text + more, o.verdict)
      case Closed => if SaysSomething(text) then o.Resolved? && Reads(text, o.verdict) else o == Rejected
      case _ => o == Rejected
  {
    hide VerdictOf, Trim, Reads, SaysSomething;
    var text := Received(before);
    assert "" + text == text;
    VerdictIff(text, VerdictOf(text));
    SaysSomethingIff(text);
    if e.Reply? {
      VerdictIff(text + e.text, VerdictOf(text + e.text));
    }
    QuietRun(Start, before);
    RunSplits(Start, before + [e], after);
    RunSplits(Start, before, [e]);
    var s := Run(Start, before);
    assert Run(s, [e]) == Step(s, e);
    SettledStays(Run(Start, before + [e]), after);
  }

  /** Whether the event at `k` is the one that settles the run. */
  predicate SettlesAt(events: seq<ScanEvent>, k: nat) {
    && k < |events| && Quiet(events[..k]) && NUL !in Received(events[..k])
    && !events[k].Connected? && (events[k].Reply? ==> NUL in events[k].text)
  }

  lemma {:induction false} ReceivedSnoc(events: seq<ScanEvent>, e: ScanEvent)
    ensures Received(events + [e]) == Received(events) + if e.Reply? then e.text else ""
  {
    if events == [] {
      assert events + [e] == [e] && [e][1..] == [];
      assert Received([e]) == (if e.Reply? then e.text else "") + "";
    } else {
      var head := if events[0].Reply? then events[0].text else "";
      var last := if e.Reply? then e.text else "";
      assert (events + [e])[0] == events[0] && (events + [e])[1..] == events[1..] + [e];
      ReceivedSnoc(events[1..], e);
      assert head + (Received(events[1..]) + last) == (head + Received(events[1..])) + last;
    }
  }

  /** Every run is still pending, with no terminator seen, or has one settling event that `SettledBy` reads. */
  lemma {:induction false} EveryRunDecomposes(events: seq<ScanEvent>, k: nat)
    requires k <= |events| && Quiet(events[..k]) && NUL !in Received(events[..k])
    ensures (Quiet(events) && NUL !in Received(events)) || exists j :: k <= j < |events| && SettlesAt(events, j)
    decreases |events| - k
  {
    if k == |events| {
      assert events[..k] == events;
    } else if !SettlesAt(events, k) {
      assert events[..k + 1] == events[..k] + [events[k]];
      ReceivedSnoc(events[..k], events[k]);
      EveryRunDecomposes(events, k + 1);
    }
  }

  function Replies(parts: seq<string>): seq<ScanEvent> {
    if parts == [] then [] else [Reply(parts[0])] + Replies(parts[1..])
  }

  function Text(parts: seq<string>): string {
    if parts == [] then "" else parts[0] + Text(parts[1..])
  }

  lemma {:induction false} FragmentsFrom(s: State, parts: seq<string>, reply: string)
    requires s.outcome.Pending? && NUL !in reply && s.response + Text(parts) == reply + [NUL] && NUL !in s.response
    ensures Run(s, Replies(parts)).outcome == Resolved(Trim(reply))
    decreases |parts|
  {
    var whole := reply + [NUL];
    assert whole[|reply|] == NUL;
    assert s.response + "" == s.response;
    if parts == [] {
      assert false;
    } else {
      var t := Step(s, Reply(parts[0]));
      assert s.response + Text(parts) == t.response + Text(parts[1..]);
      assert Replies(parts)[1..] == Replies(parts[1..]);
      if NUL in t.response {
        var k :| 0 <= k < |t.response| && t.response[k] == NUL;
        assert whole[k] == NUL;
        assert |t.response| == |whole| && t.response == whole;
        WithoutFinalNul(reply);
        SettledStays(t, Replies(parts[1..]));
      } else {
        FragmentsFrom(t, parts[1..], reply);
      }
    }
  }

  lemma {:induction false} WithoutFinalNul(reply: string)
    requires NUL !in reply
    ensures WithoutNul(reply + [NUL]) == reply
  {
    var s := reply + [NUL];
    if reply == "" {
      assert s[1..] == "";
    } else {
      assert s[1..] == reply[1..] + [NUL];
      WithoutFinalNul(reply[1..]);
    }
  }

  /** A reply that ends with its one NUL gives the same verdict however it is cut up. */
  lemma FragmentationIsInvisible(parts: seq<string>, reply: string)
    requires NUL !in reply && Text(parts) == reply + [NUL]
    ensures Run(Start, Replies(parts)).outcome == Resolved(Trim(reply))
  {
    assert "" + Text(parts) == Text(parts);
    FragmentsFrom(Start, parts, reply);
  }
}
