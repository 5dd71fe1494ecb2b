/** Most-recently-used lists: the recent records and the record tabs of the CRM. */
module RecencyLists {
  import opened Basics
  import opened Lists

  datatype Entry = Entry(key: string, title: string)

  function Except(list: seq<Entry>, key: string): seq<Entry> {
    if list == [] then []
    else (if list[0].key == key then [] else [list[0]]) + Except(list[1..], key)
  }

  function Take(n: nat, list: seq<Entry>): seq<Entry> {
    if |list| <= n then list else list[..n]
  }

  function Push(cap: nat, list: seq<Entry>, x: Entry): seq<Entry> {
    Take(cap, [x] + Except(list, x.key))
  }

  const MAX_RECORDS: nat := 6
  const MAX_TABS: nat := 12

  // ---------------------------------------------------------------- what the operations promise

  function Other(key: string): Entry -> bool {
    (x: Entry) => x.key != key
  }

  /** `x` and then the entries of `list` with other keys, in order, as far as there is room. */
  ghost predicate Fronted(cap: nat, list: seq<Entry>, x: Entry, r: seq<Entry>) {
    exists rest :: Kept(list, Other(x.key), rest) && r <= [x] + rest && |r| == Min(cap, |rest| + 1)
  }

  lemma {:induction false} ExceptKeeps(list: seq<Entry>, key: string)
    ensures Kept(list, Other(key), Except(list, key))
  {
    if list != [] {
      ExceptKeeps(list[1..], key);
      KeptCons(list, Other(key), Except(list[1..], key));
    }
  }

  lemma PushIsFronted(cap: nat, list: seq<Entry>, x: Entry)
    ensures Fronted(cap, list, x, Push(cap, list, x))
  {
    ExceptKeeps(list, x.key);
    hide Kept, Except;
    var rest := Except(list, x.key);
    assert Kept(list, Other(x.key), rest) && Push(cap, list, x) <= [x] + rest;
  }

  /** The recently visited records, in local storage. */
  class RecentRecords {
    var stored: seq<Entry>

    constructor ()
      ensures stored == []
    {
      stored := [];
    }

    method Remember(record: Entry)
      modifies this
      ensures stored == Push(MAX_RECORDS, old(stored), record)
      ensures Fronted(6, old(stored), record, stored)
    {
      PushIsFronted(MAX_RECORDS, stored, record);
      stored := Take(MAX_RECORDS, [record] + Except(stored, record.key));
    }
  }

  /** The list after a history of visits, oldest first, starting from `initial`. */
  function Visits(cap: nat, initial: seq<Entry>, history: seq<Entry>): seq<Entry>
    decreases |history|
  {
    if history == [] then initial
    else Push(cap, Visits(cap, initial, history[..|history| - 1]), history[|history| - 1])
  }

  /** The same without a cap. */
  function Recent(initial: seq<Entry>, history: seq<Entry>): seq<Entry>
    decreases |history|
  {
    if history == [] then initial
    else
      var last := history[|history| - 1];
      [last] + Except(Recent(initial, history[..|history| - 1]), last.key)
  }

  predicate Distinct(list: seq<Entry>) {
    forall i, j :: 0 <= i < j < |list| ==> list[i].key != list[j].key
  }

  predicate Absent(tabs: seq<Entry>, key: string) {
    forall t :: t in tabs ==> t.key != key
  }

  // ---------------------------------------------------------------- capping commutes

  lemma {:induction false} ExceptMembers(list: seq<Entry>, key: string)
    ensures |Except(list, key)| <= |list|
    ensures forall x :: x in Except(list, key) <==> x in list && x.key != key
  {
    if list != [] {
      ExceptMembers(list[1..], key);
      assert list == [list[0]] + list[1..];
    }
  }

  lemma {:induction false} ExceptAbsent(list: seq<Entry>, key: string)
    requires Absent(list, key)
    ensures Except(list, key) == list
  {
    if list != [] {
      assert list[0] in list;
      ExceptAbsent(list[1..], key);
    }
  }

  lemma {:induction false} ExceptDistinct(list: seq<Entry>, key: string)
    requires Distinct(list)
    ensures Distinct(Except(list, key)) && |Except(list, key)| >= |list| - 1
  {
    if list != [] {
      ExceptDistinct(list[1..], key);
      ExceptMembers(list[1..], key);
      if list[0].key == key {
        ExceptAbsent(list[1..], key);
      } else {
        DistinctCons(list[0], Except(list[1..], key));
      }
    }
  }

  lemma DistinctCons(x: Entry, list: seq<Entry>)
    requires Distinct(list) && Absent(list, x.key)
    ensures Distinct([x] + list)
  {
    forall j | 0 <= j < |list| ensures list[j].key != x.key {
      assert list[j] in list;
    }
  }

  lemma PushUncapped(list: seq<Entry>, x: Entry)
    requires Distinct(list)
    ensures Distinct([x] + Except(list, x.key))
  {
    ExceptDistinct(list, x.key);
    ExceptMembers(list, x.key);
    DistinctCons(x, Except(list, x.key));
  }

  lemma {:induction false} ExceptConcat(a: seq<Entry>, b: seq<Entry>, key: string)
    ensures Except(a + b, key) == Except(a, key) + Except(b, key)
  {
    if a == [] {
      assert a + b == b;
    } else {
      assert (a + b)[1..] == a[1..] + b;
      ExceptConcat(a[1..], b, key);
    }
  }

  lemma TakeOfConcat(n: nat, a: seq<Entry>, b: seq<Entry>)
    requires |a| >= n
    ensures Take(n, a) == Take(n, a + b)
  {
  }

  /** Forgetting what is beyond the cap before a visit loses nothing the cap would keep after it. */
  lemma TakeThenPush(cap: nat, list: seq<Entry>, x: Entry)
    requires Distinct(list)
    ensures Push(cap, Take(cap, list), x) == Push(cap, list, x)
  {
    if |list| > cap {
      var front, back := list[..cap], list[cap..];
      ExceptConcat(front, back, x.key);
      ExceptDistinct(front, x.key);
      hide Except, Distinct;
      assert list == front + back;
      TakeOfConcat(cap, [x] + Except(front, x.key), Except(back, x.key));
      assert [x] + Except(list, x.key) == [x] + Except(front, x.key) + Except(back, x.key);
    }
  }

  lemma {:induction false} RecentIsDistinct(initial: seq<Entry>, history: seq<Entry>)
    requires Distinct(initial)
    ensures Distinct(Recent(initial, history))
    decreases |history|
  {
    if history != [] {
      var last, init := history[|history| - 1], history[..|history| - 1];
      RecentIsDistinct(initial, init);
      PushUncapped(Recent(initial, init), last);
    }
  }

  /** The capped list is the uncapped one, cut off. */
  lemma {:induction false} CappedIsPrefix(cap: nat, initial: seq<Entry>, history: seq<Entry>)
    requires Distinct(initial)
    ensures history != [] || |initial| <= cap ==> Visits(cap, initial, history) == Take(cap, Recent(initial, history))
    decreases |history|
  {
    if history != [] {
      var last, init := history[|history| - 1], history[..|history| - 1];
      RecentIsDistinct(initial, init);
      if init != [] || |initial| <= cap {
        CappedIsPrefix(cap, initial, init);
        TakeThenPush(cap, Recent(initial, init), last);
      }
    }
  }

  /** After the same visits the recent records are the first six of the twelve newest entries. */
  lemma SmallerCapIsPrefix(small: nat, large: nat, history: seq<Entry>)
    requires small <= large
    ensures Visits(small, [], history) == Take(small, Visits(large, [], history))
  {
    CappedIsPrefix(small, [], history);
    CappedIsPrefix(large, [], history);
  }

  /** Position of the last visit to a key. */
  ghost predicate LastVisit(history: seq<Entry>, i: int) {
    0 <= i < |history| && forall j :: i < j < |history| ==> history[j].key != history[i].key
  }

  ghost predicate LastVisitOf(history: seq<Entry>, x: Entry) {
    exists i :: LastVisit(history, i) && history[i] == x
  }

  lemma LastVisitSnoc(history: seq<Entry>, last: Entry, x: Entry)
    ensures LastVisitOf(history + [last], x) <==> x == last || (LastVisitOf(history, x) && x.key != last.key)
  {
    var all, n := history + [last], |history|;
    assert forall j :: 0 <= j < n ==> all[j] == history[j];
    assert LastVisit(all, n) && all[n] == last;
    forall i | 0 <= i < n ensures LastVisit(all, i) <==> LastVisit(history, i) && history[i].key != last.key {
      if LastVisit(all, i) {
        assert all[n].key != all[i].key;
        forall j | i < j < n ensures history[j].key != history[i].key {
          assert all[j].key != all[i].key;
        }
      }
    }
    if LastVisitOf(all, x) && x != last {
      var i :| LastVisit(all, i) && all[i] == x;
      assert LastVisit(history, i);
    }
    if LastVisitOf(history, x) && x.key != last.key {
      var i :| LastVisit(history, i) && history[i] == x;
      assert LastVisit(all, i) && all[i] == x;
    }
  }

  /** Exactly the last visits are remembered. */
  lemma {:induction false} RecentMembers(history: seq<Entry>, x: Entry)
    ensures x in Recent([], history) <==> LastVisitOf(history, x)
    decreases |history|
  {
    if history != [] {
      var last, init := history[|history| - 1], history[..|history| - 1];
      RecentMembers(init, x);
      ExceptMembers(Recent([], init), last.key);
      LastVisitSnoc(init, last, x);
      assert init + [last] == history;
    }
  }

  /** Newest first: where in the history the entries of the list were last visited. */
  ghost predicate OrderedBy(history: seq<Entry>, list: seq<Entry>, at: seq<nat>) {
    && |at| == |list|
    && (forall k :: 0 <= k < |at| ==> LastVisit(history, at[k]) && history[at[k]] == list[k])
    && forall k, l :: 0 <= k < l < |at| ==> at[k] > at[l]
  }

  lemma PrependOrdered(history: seq<Entry>, p: nat, list: seq<Entry>, at: seq<nat>)
    requires OrderedBy(history, list, at) && LastVisit(history, p) && forall q :: q in at ==> p > q
    ensures OrderedBy(history, [history[p]] + list, [p] + at)
  {
    var all := [p] + at;
    assert forall k :: 0 < k < |all| ==> all[k] == at[k - 1] && all[k] in at;
  }

  lemma {:induction false} StillLast(history: seq<Entry>, last: Entry, p: nat)
    requires LastVisit(history, p) && history[p].key != last.key
    ensures LastVisit(history + [last], p) && (history + [last])[p] == history[p]
  {
  }

  lemma {:induction false} ExceptKeepsOrder(history: seq<Entry>, last: Entry, list: seq<Entry>, at: seq<nat>)
    returns (kept: seq<nat>)
    requires OrderedBy(history, list, at)
    ensures OrderedBy(history + [last], Except(list, last.key), kept)
    ensures forall p :: p in kept ==> p in at
    decreases |list|
  {
    kept := [];
    if list != [] {
      assert LastVisit(history, at[0]) && history[at[0]] == list[0];
      assert forall k :: 0 < k < |at| ==> at[0] > at[k];
      assert at == [at[0]] + at[1..];
      kept := ExceptKeepsOrder(history, last, list[1..], at[1..]);
      if list[0].key != last.key {
        hide OrderedBy, LastVisit;
        StillLast(history, last, at[0]);
        PrependOrdered(history + [last], at[0], Except(list[1..], last.key), kept);
        kept := [at[0]] + kept;
      }
    }
  }

  lemma {:induction false} RecentIsOrdered(history: seq<Entry>) returns (at: seq<nat>)
    ensures OrderedBy(history, Recent([], history), at)
    decreases |history|
  {
    if history == [] {
      at := [];
    } else {
      var n := |history| - 1;
      var last, init := history[n], history[..n];
      var before := RecentIsOrdered(init);
      var kept := ExceptKeepsOrder(init, last, Recent([], init), before);
      assert init + [last] == history;
      at := [n] + kept;
      forall l | 0 <= l < |kept| ensures n > kept[l] {
        assert kept[l] in before;
        var k :| 0 <= k < |before| && before[k] == kept[l];
        assert LastVisit(init, before[k]);
      }
    }
  }

  // ---------------------------------------------------------------- tabs

  /** A stored tab, together with whether it is of this bar's type and its link is the canonical one. */
  datatype StoredTab = StoredTab(tab: Entry, canonical: bool)

  function Readable(stored: seq<StoredTab>): seq<Entry> {
    if stored == [] then []
    else (if stored[0].canonical then [stored[0].tab] else []) + Readable(stored[1..])
  }

  function Canonical(tabs: seq<Entry>): (stored: seq<StoredTab>)
    ensures |stored| == |tabs|
  {
    if tabs == [] then [] else [StoredTab(tabs[0], true)] + Canonical(tabs[1..])
  }

  lemma {:induction false} ReadCanonical(tabs: seq<Entry>)
    ensures Readable(Canonical(tabs)) == tabs
  {
    if tabs != [] {
      ReadCanonical(tabs[1..]);
    }
  }

  function IsCanonical(): StoredTab -> bool {
    (s: StoredTab) => s.canonical
  }

  /** The tabs of the canonical entries in storage, in order. */
  ghost predicate ReadsAs(stored: seq<StoredTab>, tabs: seq<Entry>) {
    exists good: seq<StoredTab> ::
      Kept(stored, IsCanonical(), good) && |tabs| == |good| && forall i :: 0 <= i < |good| ==> tabs[i] == good[i].tab
  }

  lemma {:induction false} ReadableReads(stored: seq<StoredTab>)
    ensures ReadsAs(stored, Readable(stored))
  {
    if stored == [] {
      assert Kept(stored, IsCanonical(), []);
    } else {
      ReadableReads(stored[1..]);
      ReadsCons(stored, Readable(stored[1..]));
    }
  }

  lemma ReadsCons(stored: seq<StoredTab>, rest: seq<Entry>)
    requires stored != [] && ReadsAs(stored[1..], rest)
    ensures ReadsAs(stored, (if stored[0].canonical then [stored[0].tab] else []) + rest)
  {
    hide Kept;
    var good: seq<StoredTab> :| Kept(stored[1..], IsCanonical(), good) && |rest| == |good|
      && forall i :: 0 <= i < |good| ==> rest[i] == good[i].tab;
    KeptCons(stored, IsCanonical(), good);
    var all := (if stored[0].canonical then [stored[0]] else []) + good;
    assert Kept(stored, IsCanonical(), all);
  }

  datatype TabEvent = Open(tab: Entry) | Close(key: string) | Clear

  /** The tabs shown after an event, given what was readable in storage and what was shown. */
  function TabStep(tabs: seq<Entry>, e: TabEvent): seq<Entry> {
    match e
    case Open(tab) => Push(MAX_TABS, tabs, tab)
    case Close(key) => Except(tabs, key)
    case Clear => []
  }

  function TabRun(tabs: seq<Entry>, events: seq<TabEvent>): seq<Entry>
    decreases |events|
  {
    if events == [] then tabs else TabRun(TabStep(tabs, events[0]), events[1..])
  }

  class TabBar {
    var stored: seq<StoredTab>
    var tabs: seq<Entry>

    /** Storage holds exactly the tabs shown. */
    ghost predicate InStep()
      reads this
    {
      stored == Canonical(tabs) && |tabs| <= MAX_TABS
    }

    method WriteTabs(next: seq<Entry>)
      modifies `stored
      ensures stored == Canonical(Take(MAX_TABS, next))
    {
      stored := Canonical(Take(MAX_TABS, next));
    }

    method ReadTabs() returns (valid: seq<Entry>)
      modifies `stored
      ensures valid == Readable(old(stored))
    {
      valid := Readable(stored);
      if |valid| != |stored| {
        WriteTabs(valid);
      }
    }

    /** Opening a record; also the first thing a mounted bar does, whatever storage holds. */
    method OpenTab(tab: Entry)
      modifies this
      ensures InStep()
      ensures exists readable :: ReadsAs(old(stored), readable) && Fronted(12, readable, tab, tabs)
      ensures old(InStep()) ==> Fronted(12, old(tabs), tab, tabs) && tabs == TabStep(old(tabs), Open(tab))
    {
      ReadCanonical(tabs);
      ReadableReads(stored);
      PushIsFronted(MAX_TABS, Readable(stored), tab);
      hide Kept, Fronted, ReadsAs, Except, Readable, Canonical;
      var valid := ReadTabs();
      var next := Take(MAX_TABS, [tab] + Except(valid, tab.key));
      WriteTabs(next);
      tabs := next;
    }

    method RemoveTab(key: string)
      requires InStep()
      modifies this
      ensures InStep() && Kept(old(tabs), Other(key), tabs)
      ensures tabs == TabStep(old(tabs), Close(key))
    {
      var next := Except(tabs, key);
      ExceptMembers(tabs, key);
      ExceptKeeps(tabs, key);
      WriteTabs(next);
      tabs := next;
    }

    method ClearTabs()
      modifies this
      ensures tabs == [] && stored == [] && tabs == TabStep(old(tabs), Clear)
    {
      WriteTabs([]);
      tabs := [];
    }
  }

  lemma {:induction false} TabRunKeeps(tabs: seq<Entry>, events: seq<TabEvent>)
    requires Distinct(tabs) && |tabs| <= MAX_TABS
    ensures Distinct(TabRun(tabs, events)) && |TabRun(tabs, events)| <= MAX_TABS
    decreases |events|
  {
    if events != [] {
      var e := events[0];
      if e.Open? {
        PushUncapped(tabs, e.tab);
      } else if e.Close? {
        ExceptDistinct(tabs, e.key);
        ExceptMembers(tabs, e.key);
      }
      TabRunKeeps(TabStep(tabs, e), events[1..]);
    }
  }

  /** What an event leaves, said without the step function: opening puts the tab first and keeps the first eleven
      others in order, closing takes out one key, clearing takes out all. */
  lemma StepMeans(tabs: seq<Entry>, e: TabEvent)
    ensures var next := TabStep(tabs, e);
      match e
      case Open(tab) => Fronted(12, tabs, tab, next)
      case Close(key) => Kept(tabs, Other(key), next)
      case Clear => next == []
  {
    if e.Open? {
      PushIsFronted(MAX_TABS, tabs, e.tab);
    } else if e.Close? {
      ExceptKeeps(tabs, e.key);
    }
  }

  lemma {:induction false} AbsentStays(tabs: seq<Entry>, key: string, events: seq<TabEvent>)
    requires Absent(tabs, key)
    requires forall e :: e in events ==> e.Open? ==> e.tab.key != key
    ensures Absent(TabRun(tabs, events), key)
    decreases |events|
  {
    if events != [] {
      var e := events[0];
      assert e in events;
      if !e.Clear? {
        ExceptMembers(tabs, if e.Open? then e.tab.key else e.key);
      }
      AbsentStays(TabStep(tabs, e), key, events[1..]);
    }
  }

  /** A closed tab stays away until it is opened again; clearing closes every tab. */
  lemma ClosedStaysClosed(tabs: seq<Entry>, close: TabEvent, key: string, events: seq<TabEvent>)
    requires close == Close(key) || close == Clear
    requires forall e :: e in events ==> e.Open? ==> e.tab.key != key
    ensures Absent(TabRun(tabs, [close] + events), key)
  {
    ExceptMembers(tabs, key);
    assert ([close] + events)[1..] == events;
    AbsentStays(TabStep(tabs, close), key, events);
  }

  lemma {:induction false} ExceptMovesForward(list: seq<Entry>, key: string, p: nat) returns (q: nat)
    requires p < |list| && list[p].key != key
    ensures q <= p && q < |Except(list, key)| && Except(list, key)[q] == list[p]
  {
    if p == 0 {
      q := 0;
    } else {
      var r := ExceptMovesForward(list[1..], key, p - 1);
      q := if list[0].key == key then r else r + 1;
    }
  }

  function Opens(events: seq<TabEvent>): nat {
    if events == [] then 0 else (if events[0].Open? then 1 else 0) + Opens(events[1..])
  }

  /** A tab keeps its place while others close, and moves back by one for each that is opened. */
  lemma {:induction false} StaysShown(tabs: seq<Entry>, x: Entry, p: nat, events: seq<TabEvent>)
    requires p < |tabs| && tabs[p] == x && p + Opens(events) < 12
    requires forall e :: e in events ==>
      match e case Open(tab) => tab.key != x.key case Close(key) => key != x.key case Clear => false
    ensures x in TabRun(tabs, events)
    decreases |events|
  {
    if events != [] {
      var e := events[0];
      assert e in events && forall f :: f in events[1..] ==> f in events;
      var q := ExceptMovesForward(tabs, if e.Open? then e.tab.key else e.key, p);
      StaysShown(TabStep(tabs, e), x, if e.Open? then q + 1 else q, events[1..]);
    }
  }

  /** An opened tab is shown until it is closed, all are cleared, or twelve others are opened. */
  lemma OpenedStaysOpen(tabs: seq<Entry>, x: Entry, events: seq<TabEvent>)
    requires Opens(events) < 12
    requires forall e :: e in events ==>
      match e case Open(tab) => tab.key != x.key case Close(key) => key != x.key case Clear => false
    ensures x in TabRun(tabs, [Open(x)] + events)
  {
    assert ([Open(x)] + events)[1..] == events;
    StaysShown(TabStep(tabs, Open(x)), x, 0, events);
  }
}
