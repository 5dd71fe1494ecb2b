/** The gateway's bounded request-body reader. */
module BodyReader {
  import opened Basics
  import opened Instream

  datatype BodyEvent = Data(chunk: seq<byte>) | End | Error

  datatype Outcome = Pending | Accepted(body: seq<byte>) | TooLarge | Failed

  function Concat(chunks: seq<seq<byte>>): seq<byte> {
    if chunks == [] then [] else Concat(chunks[..|chunks| - 1]) + chunks[|chunks| - 1]
  }

  /** The bytes of a chunk list, front to back. */
  function Bytes(chunks: seq<seq<byte>>): seq<byte> {
    if chunks == [] then [] else chunks[0] + Bytes(chunks[1..])
  }

  lemma {:induction false} BytesSnoc(chunks: seq<seq<byte>>, last: seq<byte>)
    ensures Bytes(chunks + [last]) == Bytes(chunks) + last
  {
    if chunks == [] {
      assert [last][1..] == [] && last + [] == last && [] + [last] == [last];
    } else {
      assert (chunks + [last])[1..] == chunks[1..] + [last];
      BytesSnoc(chunks[1..], last);
      Regroup(chunks[0], Bytes(chunks[1..]), last);
    }
  }

  lemma {:induction false} ConcatIsBytes(chunks: seq<seq<byte>>)
    ensures Concat(chunks) == Bytes(chunks)
    decreases |chunks|
  {
    if chunks != [] {
      var n := |chunks| - 1;
      ConcatIsBytes(chunks[..n]);
      BytesSnoc(chunks[..n], chunks[n]);
      assert chunks == chunks[..n] + [chunks[n]];
    }
  }

  datatype State = State(chunks: seq<seq<byte>>, total: nat, draining: bool, outcome: Outcome)

  const Start := State([], 0, false, Pending)

  /** A promise keeps its first settlement. */
  function Settle(o: Outcome, settled: Outcome): Outcome {
    if o.Pending? then settled else o
  }

  function Step(max: nat, s: State, e: BodyEvent): State {
    match e
    case Data(chunk) =>
      if s.draining then s
      else if s.total + |chunk| > max then
        s.(total := s.total + |chunk|, draining := true, outcome := Settle(s.outcome, TooLarge))
      else s.(chunks := s.chunks + [chunk], total := s.total + |chunk|)
    case End => s.(outcome := Settle(s.outcome, Accepted(Concat(s.chunks))))
    case Error => s.(outcome := Settle(s.outcome, Failed))
  }

  function Run(max: nat, s: State, events: seq<BodyEvent>): State
    decreases |events|
  {
    if events == [] then s else Run(max, Step(max, s, events[0]), events[1..])
  }

  class Reader {
    const max: nat
    var chunks: seq<seq<byte>>
    var total: nat
    var draining: bool
    var outcome: Outcome

    function Abstract(): State
      reads this
    {
      State(chunks, total, draining, outcome)
    }

    constructor (max: nat)
      ensures this.max == max && Abstract() == Start
    {
      this.max := max;
      chunks, total, draining, outcome := [], 0, false, Pending;
    }

    method Reject(reason: Outcome)
      modifies `outcome
      ensures outcome == Settle(old(outcome), reason)
    {
      if outcome.Pending? {
        outcome := reason;
      }
    }

    method OnData(chunk: seq<byte>)
      modifies this
      ensures Abstract() == Step(max, old(Abstract()), Data(chunk))
      ensures if old(draining) then Abstract() == old(Abstract()) else total == old(total) + |chunk|
      ensures !old(draining) && total > max ==>
        && draining && chunks == old(chunks)
        && outcome == if old(outcome).Pending? then TooLarge else old(outcome)
      ensures !old(draining) && total <= max ==>
        !draining && chunks == old(chunks) + [chunk] && outcome == old(outcome)
    {
      if draining {
        return;
      }
      total := total + |chunk|;
      if total > max {
        draining := true;
        Reject(TooLarge);
        return;
      }
      chunks := chunks + [chunk];
    }

    method OnEnd()
      modifies this
      ensures Abstract() == Step(max, old(Abstract()), End)
      ensures Abstract() == old(Abstract()).(outcome :=
        if old(outcome).Pending? then Accepted(Bytes(chunks)) else old(outcome))
    {
      ConcatIsBytes(chunks);
      if outcome.Pending? {
        outcome := Accepted(Concat(chunks));
      }
    }

    method OnError()
      modifies this
      ensures Abstract() == Step(max, old(Abstract()), Error)
      ensures Abstract() == old(Abstract()).(outcome := if old(outcome).Pending? then Failed else old(outcome))
    {
      Reject(Failed);
    }
  }

  // ---------------------------------------------------------------- every run

  /** What is stored never exceeds the limit, and while nothing overflowed the counter is its size. */
  predicate Bounded(max: nat, s: State) {
    && |Concat(s.chunks)| <= max
    && (!s.draining ==> s.total == |Concat(s.chunks)|)
    && (s.draining ==> !s.outcome.Pending? && s.total > max)
  }

  lemma StepBounded(max: nat, s: State, e: BodyEvent)
    requires Bounded(max, s)
    ensures Bounded(max, Step(max, s, e))
  {
    if e.Data? && !s.draining {
      assert (s.chunks + [e.chunk])[..|s.chunks|] == s.chunks;
    }
  }

  lemma {:induction false} RunBounded(max: nat, s: State, events: seq<BodyEvent>)
    requires Bounded(max, s)
    ensures Bounded(max, Run(max, s, events))
    decreases |events|
  {
    if events != [] {
      StepBounded(max, s, events[0]);
      RunBounded(max, Step(max, s, events[0]), events[1..]);
    }
  }

  lemma {:induction false} SettledStays(max: nat, s: State, events: seq<BodyEvent>)
    requires !s.outcome.Pending?
    ensures Run(max, s, events).outcome == s.outcome
    decreases |events|
  {
    if events != [] {
      SettledStays(max, Step(max, s, events[0]), events[1..]);
    }
  }

  /** The outcome said without state: the first thing to happen among overflow, end and error decides. */
  function Verdict(max: nat, seen: seq<byte>, events: seq<BodyEvent>): Outcome
    decreases |events|
  {
    if events == [] then Pending
    else match events[0]
      case Data(chunk) => if |seen + chunk| > max then TooLarge else Verdict(max, seen + chunk, events[1..])
      case End => Accepted(seen)
      case Error => Failed
  }

  lemma {:induction false} RunVerdict(max: nat, s: State, events: seq<BodyEvent>)
    requires Bounded(max, s) && s.outcome.Pending?
    ensures Run(max, s, events).outcome == Verdict(max, Concat(s.chunks), events)
    decreases |events|
  {
    if events != [] {
      var t := Step(max, s, events[0]);
      StepBounded(max, s, events[0]);
      if t.outcome.Pending? {
        assert (s.chunks + [events[0].chunk])[..|s.chunks|] == s.chunks;
        RunVerdict(max, t, events[1..]);
      } else {
        SettledStays(max, t, events[1..]);
      }
    }
  }

  function DataOf(chunks: seq<seq<byte>>): seq<BodyEvent> {
    if chunks == [] then [] else [Data(chunks[0])] + DataOf(chunks[1..])
  }

  lemma {:induction false} VerdictOfChunks(max: nat, seen: seq<byte>, chunks: seq<seq<byte>>)
    requires |seen| <= max
    ensures Verdict(max, seen, DataOf(chunks) + [End])
      == if |seen + Bytes(chunks)| <= max then Accepted(seen + Bytes(chunks)) else TooLarge
    decreases |chunks|
  {
    var events := DataOf(chunks) + [End];
    if chunks == [] {
      assert seen + Bytes(chunks) == seen;
    } else {
      assert events[1..] == DataOf(chunks[1..]) + [End];
      assert seen + Bytes(chunks) == seen + chunks[0] + Bytes(chunks[1..]);
      if |seen + chunks[0]| <= max {
        VerdictOfChunks(max, seen + chunks[0], chunks[1..]);
      }
    }
  }

  /** However a body is cut into chunks, it is accepted whole exactly when its size is within the limit. */
  lemma BodyAcceptedIff(max: nat, chunks: seq<seq<byte>>)
    ensures Run(max, Start, DataOf(chunks) + [End]).outcome
      == if |Bytes(chunks)| <= max then Accepted(Bytes(chunks)) else TooLarge
  {
    RunVerdict(max, Start, DataOf(chunks) + [End]);
    VerdictOfChunks(max, [], chunks);
    assert [] + Bytes(chunks) == Bytes(chunks);
  }
}
