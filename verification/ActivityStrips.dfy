/** "Load more" strips: pages fetched on demand, merged by id, against the list they page through. */
module ActivityStrips {
  import opened Basics
  import opened Lists

  datatype Item = Item(id: string, text: string)

  const PAGE_SIZE: nat := 8

  function Ids(items: seq<Item>): set<string> {
    set i | i in items :: i.id
  }

  predicate Distinct(items: seq<Item>) {
    forall i, j :: 0 <= i < j < |items| ==> items[i].id != items[j].id
  }

  function Without(items: seq<Item>, seen: set<string>): seq<Item> {
    if items == [] then []
    else (if items[0].id in seen then [] else [items[0]]) + Without(items[1..], seen)
  }

  function DedupeById(base: seq<Item>, extra: seq<Item>): seq<Item> {
    base + Without(extra, Ids(base))
  }

  function Unseen(items: seq<Item>): Item -> bool {
    (x: Item) => forall i :: 0 <= i < |items| ==> items[i].id != x.id
  }

  /** The list, and then the further items whose ids it does not have, in order. */
  ghost predicate Merged(base: seq<Item>, extra: seq<Item>, r: seq<Item>) {
    exists added :: Kept(extra, Unseen(base), added) && r == base + added
  }

  lemma {:induction false} WithoutKeeps(base: seq<Item>, extra: seq<Item>)
    ensures Kept(extra, Unseen(base), Without(extra, Ids(base)))
  {
    if extra != [] {
      WithoutKeeps(base, extra[1..]);
      hide Kept;
      KeptCons(extra, Unseen(base), Without(extra[1..], Ids(base)));
      UnseenIff(base, extra[0]);
    }
  }

  lemma UnseenIff(base: seq<Item>, x: Item)
    ensures Unseen(base)(x) <==> x.id !in Ids(base)
  {
    if i :| 0 <= i < |base| && base[i].id == x.id {
      assert base[i] in base;
    }
  }

  lemma MergedIff(base: seq<Item>, extra: seq<Item>, r: seq<Item>)
    ensures DedupeById(base, extra) == r <==> Merged(base, extra, r)
  {
    WithoutKeeps(base, extra);
    hide Kept, Without;
    if added :| Kept(extra, Unseen(base), added) && r == base + added {
      KeptIsUnique(extra, Unseen(base), added, Without(extra, Ids(base)));
    }
  }

  /** Page `page` of a server list, counted from one. */
  function ServerPage(server: seq<Item>, page: nat): seq<Item>
    requires page >= 1
  {
    server[Min((page - 1) * PAGE_SIZE, |server|)..Min(page * PAGE_SIZE, |server|)]
  }

  datatype Event = Page(data: seq<Item>) | Refresh(base: seq<Item>)

  /** Page one and the part appended to it. */
  datatype Content = Content(base: seq<Item>, extra: seq<Item>)
  {
    function Visible(): seq<Item> { DedupeById(base, extra) }

    /** The page the next request asks for. */
    function Next(): (page: nat)
      ensures page >= 1
    {
      |Visible()| / PAGE_SIZE + 1
    }
  }

  /** A page is merged into the appended part; a server re-render re-seeds page one. */
  function Happened(c: Content, e: Event): Content {
    match e
    case Page(data) => c.(extra := DedupeById(c.extra, data))
    case Refresh(base) => c.(base := base)
  }

  /** The notes and appointments strips: page one comes with the record, later pages are appended. */
  class Strip {
    var base: seq<Item>
    var extra: seq<Item>
    var total: Option<nat>

    function Contents(): Content
      reads this
    {
      Content(base, extra)
    }

    constructor (base: seq<Item>, total: Option<nat>)
      ensures this.base == base && this.extra == [] && this.total == total
    {
      this.base, this.extra, this.total := base, [], total;
    }

    method NextPage() returns (page: nat)
      ensures page == Contents().Next()
      ensures exists shown :: Merged(base, extra, shown) && page == |shown| / 8 + 1
    {
      MergedIff(base, extra, DedupeById(base, extra));
      page := |DedupeById(base, extra)| / PAGE_SIZE + 1;
    }

    /** A response; None stands for a failed request. */
    method OnPage(data: Option<seq<Item>>, total: Option<nat>)
      modifies this
      ensures Contents() == if data.Some? then Happened(old(Contents()), Page(data.value)) else old(Contents())
      ensures base == old(base) && if data.Some? then Merged(old(extra), data.value, extra) else extra == old(extra)
      ensures this.total == if data.Some? && total.Some? then total else old(this.total)
    {
      if data.None? {
        return;
      }
      MergedIff(extra, data.value, DedupeById(extra, data.value));
      extra := DedupeById(extra, data.value);
      if total.Some? {
        this.total := total;
      }
    }

    /** A server re-render re-seeds page one and the total. */
    method OnRefresh(base: seq<Item>, total: Option<nat>)
      modifies this
      ensures Contents() == Happened(old(Contents()), Refresh(base))
      ensures this.base == base && extra == old(extra)
      ensures this.total == if total.Some? then total else old(this.total)
    {
      this.base := base;
      if total.Some? {
        this.total := total;
      }
    }

    /** Whether the row still offers a button. */
    method OffersMore() returns (more: bool)
      ensures exists shown :: Merged(base, extra, shown) && (more <==> total.None? || |shown| < total.value)
    {
      MergedIff(base, extra, DedupeById(base, extra));
      more := !(total.Some? && |DedupeById(base, extra)| >= total.value);
    }
  }

  // ---------------------------------------------------------------- merging

  lemma {:induction false} WithoutConcat(a: seq<Item>, b: seq<Item>, seen: set<string>)
    ensures Without(a + b, seen) == Without(a, seen) + Without(b, seen)
  {
    if a == [] {
      assert a + b == b;
    } else {
      assert (a + b)[1..] == a[1..] + b;
      WithoutConcat(a[1..], b, seen);
    }
  }

  lemma {:induction false} WithoutMembers(a: seq<Item>, seen: set<string>)
    ensures forall x :: x in Without(a, seen) <==> x in a && x.id !in seen
  {
    if a != [] {
      WithoutMembers(a[1..], seen);
      assert a == [a[0]] + a[1..];
    }
  }

  lemma {:induction false} WithoutNothing(a: seq<Item>, seen: set<string>)
    requires forall x :: x in a ==> x.id !in seen
    ensures Without(a, seen) == a
  {
    if a != [] {
      assert a[0] in a;
      WithoutNothing(a[1..], seen);
    }
  }

  lemma {:induction false} WithoutAll(a: seq<Item>, seen: set<string>)
    requires forall x :: x in a ==> x.id in seen
    ensures Without(a, seen) == []
  {
    if a != [] {
      assert a[0] in a;
      WithoutAll(a[1..], seen);
    }
  }

  lemma {:induction false} WithoutDistinct(a: seq<Item>, seen: set<string>)
    requires Distinct(a)
    ensures Distinct(Without(a, seen))
  {
    if a != [] {
      WithoutDistinct(a[1..], seen);
      WithoutMembers(a[1..], seen);
      var rest := Without(a[1..], seen);
      forall j | 0 <= j < |rest| ensures rest[j].id != a[0].id {
        assert rest[j] in a[1..];
      }
    }
  }

  /** Merging two duplicate-free lists gives a duplicate-free list. */
  lemma DedupeIsDistinct(base: seq<Item>, extra: seq<Item>)
    requires Distinct(base) && Distinct(extra)
    ensures Distinct(DedupeById(base, extra))
  {
    var kept := Without(extra, Ids(base));
    WithoutDistinct(extra, Ids(base));
    WithoutMembers(extra, Ids(base));
    forall i, j | 0 <= i < |base| && 0 <= j < |kept| ensures base[i].id != kept[j].id {
      assert kept[j] in kept && base[i].id in Ids(base);
    }
  }

  function After(c: Content, events: seq<Event>): Content
    decreases |events|
  {
    if events == [] then c
    else After(Happened(c, events[0]), events[1..])
  }

  /** Whatever pages arrive and however page one changes meanwhile, the visible list never holds an id twice. */
  lemma {:induction false} NeverTwice(c: Content, events: seq<Event>)
    requires Distinct(c.base) && Distinct(c.extra)
    requires forall e :: e in events ==> Distinct(if e.Page? then e.data else e.base)
    ensures var d := After(c, events); Distinct(d.base) && Distinct(d.extra) && Distinct(DedupeById(d.base, d.extra))
    decreases |events|
  {
    if events == [] {
      DedupeIsDistinct(c.base, c.extra);
    } else {
      var e := events[0];
      assert e in events;
      if e.Page? {
        DedupeIsDistinct(c.extra, e.data);
      }
      NeverTwice(Happened(c, e), events[1..]);
    }
  }

  // ---------------------------------------------------------------- against an unchanging list

  /** The appended part after `k` loads from a server that does not change. */
  function Loaded(server: seq<Item>, k: nat): seq<Item> {
    if k == 0 then []
    else
      var c := Content(ServerPage(server, 1), Loaded(server, k - 1));
      Happened(c, Page(ServerPage(server, c.Next()))).extra
  }

  function Shown(server: seq<Item>, k: nat): seq<Item> {
    DedupeById(ServerPage(server, 1), Loaded(server, k))
  }

  /** A page of unseen items is appended as it is. */
  lemma MergeNew(base: seq<Item>, extra: seq<Item>, page: seq<Item>)
    requires forall x :: x in page ==> x.id !in Ids(base) && x.id !in Ids(extra)
    ensures DedupeById(extra, page) == extra + page
    ensures DedupeById(base, extra + page) == DedupeById(base, extra) + page
  {
    WithoutNothing(page, Ids(extra));
    WithoutNothing(page, Ids(base));
    WithoutConcat(extra, page, Ids(base));
  }

  /** A page of items already shown changes nothing visible. */
  lemma MergeOld(base: seq<Item>, extra: seq<Item>, page: seq<Item>)
    requires forall x :: x in page ==> x.id in Ids(base) || x.id in Ids(extra)
    ensures DedupeById(base, DedupeById(extra, page)) == DedupeById(base, extra)
  {
    var added := Without(page, Ids(extra));
    WithoutMembers(page, Ids(extra));
    WithoutAll(added, Ids(base));
    WithoutConcat(extra, added, Ids(base));
    assert Without(extra, Ids(base)) + [] == Without(extra, Ids(base));
  }

  lemma PageAt(server: seq<Item>, m: nat)
    requires m % PAGE_SIZE == 0 && m <= |server|
    ensures ServerPage(server, m / PAGE_SIZE + 1) == server[m..Min(m + PAGE_SIZE, |server|)]
  {
  }

  lemma LaterIsNew(server: seq<Item>, m: nat, n: nat, items: seq<Item>)
    requires Distinct(server) && m <= n <= |server|
    requires forall x :: x in items ==> x in server[..m]
    ensures forall x :: x in server[m..n] ==> x.id !in Ids(items)
  {
  }

  lemma OneLoad(server: seq<Item>, extra: seq<Item>, m: nat)
    requires Distinct(server) && m % PAGE_SIZE == 0 && PAGE_SIZE <= m < |server|
    requires forall x :: x in extra ==> x in server[..m]
    requires DedupeById(ServerPage(server, 1), extra) == server[..m]
    ensures var m', extra' := Min(m + PAGE_SIZE, |server|), DedupeById(extra, ServerPage(server, m / PAGE_SIZE + 1));
      && DedupeById(ServerPage(server, 1), extra') == server[..m']
      && forall x :: x in extra' ==> x in server[..m']
  {
    var base, m' := ServerPage(server, 1), Min(m + PAGE_SIZE, |server|);
    PageAt(server, m);
    LaterIsNew(server, m, m', extra);
    LaterIsNew(server, m, m', base);
    MergeNew(base, extra, server[m..m']);
    assert server[..m'] == server[..m] + server[m..m'];
  }

  /** A load after the last one repeats items already shown. */
  lemma IdleLoad(server: seq<Item>, extra: seq<Item>, page: nat)
    requires page >= 1 && DedupeById(ServerPage(server, 1), extra) == server
    requires forall x :: x in extra ==> x in server
    ensures var extra' := DedupeById(extra, ServerPage(server, page));
      DedupeById(ServerPage(server, 1), extra') == server && forall x :: x in extra' ==> x in server
  {
    var base, data := ServerPage(server, 1), ServerPage(server, page);
    forall x | x in data ensures x.id in Ids(base) || x.id in Ids(extra) {
      assert x in server && x in DedupeById(base, extra);
      WithoutMembers(extra, Ids(base));
    }
    MergeOld(base, extra, data);
    WithoutMembers(data, Ids(extra));
  }

  /** The first `pages` pages of the server list. */
  function Upto(server: seq<Item>, pages: nat): seq<Item> {
    server[..Min(8 * pages, |server|)]
  }

  lemma AnyLoad(server: seq<Item>, extra: seq<Item>, k: nat)
    requires Distinct(server) && k >= 1
    requires forall x :: x in extra ==> x in Upto(server, k)
    requires DedupeById(ServerPage(server, 1), extra) == Upto(server, k)
    ensures var extra' := DedupeById(extra, ServerPage(server, |Upto(server, k)| / PAGE_SIZE + 1));
      && DedupeById(ServerPage(server, 1), extra') == Upto(server, k + 1)
      && forall x :: x in extra' ==> x in Upto(server, k + 1)
  {
    hide DedupeById, ServerPage;
    if PAGE_SIZE * k < |server| {
      assert |Upto(server, k)| == PAGE_SIZE * k;
      OneLoad(server, extra, PAGE_SIZE * k);
    } else {
      assert Upto(server, k) == server == Upto(server, k + 1);
      IdleLoad(server, extra, |server| / PAGE_SIZE + 1);
    }
  }

  lemma ShownFirst(server: seq<Item>)
    ensures Loaded(server, 0) == [] && Shown(server, 0) == Upto(server, 1)
  {
  }

  lemma LoadedNext(server: seq<Item>, k: nat)
    requires k >= 1 && Shown(server, k - 1) == Upto(server, k)
    ensures Loaded(server, k)
      == DedupeById(Loaded(server, k - 1), ServerPage(server, |Upto(server, k)| / PAGE_SIZE + 1))
  {
    hide DedupeById, ServerPage, Upto;
  }

  /** After `k` loads the strip shows the first `k + 1` pages of the server list, in server order. */
  lemma {:induction false} ShownIsPrefix(server: seq<Item>, k: nat)
    requires Distinct(server)
    ensures Shown(server, k) == Upto(server, k + 1)
    ensures forall x :: x in Loaded(server, k) ==> x in Upto(server, k + 1)
  {
    hide DedupeById, ServerPage, Upto, Loaded, Distinct;
    ShownFirst(server);
    if k > 0 {
      ShownIsPrefix(server, k - 1);
      LoadedNext(server, k);
      AnyLoad(server, Loaded(server, k - 1), k);
    }
  }

  /** The number of loads it takes to see everything. */
  function LoadsNeeded(n: nat): nat { if n == 0 then 0 else (n - 1) / 8 }

  /** The button disappears exactly from that load on. */
  lemma StopsExactly(server: seq<Item>, k: nat)
    requires Distinct(server)
    ensures |Shown(server, k)| >= |server| <==> k >= LoadsNeeded(|server|)
  {
    ShownIsPrefix(server, k);
  }

  // ---------------------------------------------------------------- against a list that changes

  /** An item that was visible and is still on the server is still visible. */
  ghost predicate Keeps(before: Content, after: Content, server: set<string>) {
    forall id :: id in Ids(before.Visible()) && id in server ==> id in Ids(after.Visible())
  }

  lemma VisibleIds(c: Content)
    ensures Ids(c.Visible()) == Ids(c.base) + Ids(c.extra)
  {
    WithoutMembers(c.extra, Ids(c.base));
    forall id | id in Ids(c.base) + Ids(c.extra) ensures id in Ids(c.Visible()) {
      if id in Ids(c.base) {
        var x :| x in c.base && x.id == id;
        assert x in c.Visible();
      } else {
        var x :| x in c.extra && x.id == id;
        assert x in c.Visible();
      }
    }
  }

  /** A refresh of page one loses nothing exactly when every item it pushes off is gone from the server or appended. */
  lemma RefreshKeepsIff(c: Content, base: seq<Item>, server: set<string>)
    ensures Keeps(c, Happened(c, Refresh(base)), server) <==>
      forall x :: x in c.base && x.id in server ==> x.id in Ids(base) || x.id in Ids(c.extra)
  {
    VisibleIds(c);
    VisibleIds(Happened(c, Refresh(base)));
    if Keeps(c, Happened(c, Refresh(base)), server) {
      forall x | x in c.base && x.id in server ensures x.id in Ids(base) || x.id in Ids(c.extra) {
        assert x.id in Ids(c.base);
      }
    }
  }

  lemma FirstLoad(server: seq<Item>)
    requires Distinct(server) && |server| == 16
    ensures ServerPage(server, 1) == server[..8] && Loaded(server, 1) == server[8..]
  {
    TwoPages(server);
    hide DedupeById, ServerPage, Upto, Loaded;
    ShownFirst(server);
    LoadedNext(server, 1);
    FirstPageAppended(server[8..]);
  }

  lemma TwoPages(server: seq<Item>)
    requires |server| == 16
    ensures ServerPage(server, 1) == server[..8] && ServerPage(server, 2) == server[8..] && |Upto(server, 1)| == 8
  {
  }

  lemma FirstPageAppended(page: seq<Item>)
    ensures DedupeById([], page) == page
  {
    WithoutNothing(page, Ids([]));
    assert [] + page == page;
  }

  lemma ThirdPage(server: seq<Item>)
    requires |server| == 17
    ensures ServerPage(server, 1) == server[..8] && ServerPage(server, 3) == [server[16]]
  {
  }

  lemma ShiftedStrip(server: seq<Item>)
    requires Distinct(server) && |server| == 17
    ensures var was := server[1..];
      var c := Happened(Content(ServerPage(was, 1), Loaded(was, 1)), Refresh(ServerPage(server, 1)));
      && |c.Visible()| == 16 && server[8] !in c.Visible()
      && Happened(c, Page(ServerPage(server, c.Next()))) == c
  {
    var was, c := server[1..], Content(server[..8], server[9..]);
    assert was[8..] == server[9..];
    hide ServerPage, Loaded, DedupeById;
    FirstLoad(was);
    ThirdPage(server);
    ShiftedView(server);
    ShiftedPage(server);
  }

  lemma ShiftedView(server: seq<Item>)
    requires Distinct(server) && |server| == 17
    ensures DedupeById(server[..8], server[9..]) == server[..8] + server[9..]
    ensures server[8] !in server[..8] + server[9..]
  {
    LaterIsNew(server, 8, 17, server[..8]);
    assert forall x :: x in server[9..] ==> x in server[8..17];
    WithoutNothing(server[9..], Ids(server[..8]));
  }

  lemma ShiftedPage(server: seq<Item>)
    requires |server| == 17
    ensures DedupeById(server[9..], [server[16]]) == server[9..]
  {
    assert server[16] == server[9..][7] && server[16] in server[9..];
    WithoutAll([server[16]], Ids(server[9..]));
    assert server[9..] + [] == server[9..];
  }

  // ---------------------------------------------------------------- tasks

  /** The tasks strip counts its pages: page one replaces, page `p` is merged. */
  function Tasks(server: seq<Item>, pages: nat): seq<Item>
    requires pages >= 1
  {
    if pages == 1 then ServerPage(server, 1) else DedupeById(Tasks(server, pages - 1), ServerPage(server, pages))
  }

  lemma NextTasks(server: seq<Item>, pages: nat)
    requires Distinct(server) && pages >= 1
    ensures DedupeById(Upto(server, pages), ServerPage(server, pages + 1)) == Upto(server, pages + 1)
  {
    var m, n := Min(PAGE_SIZE * pages, |server|), Min(PAGE_SIZE * (pages + 1), |server|);
    assert ServerPage(server, pages + 1) == server[m..n];
    assert server[..n] == server[..m] + server[m..n];
    hide ServerPage, Distinct;
    LaterIsNew(server, m, n, server[..m]);
    WithoutNothing(server[m..n], Ids(server[..m]));
  }

  /** The tasks strip shows as many pages of the server list as it has asked for. */
  lemma {:induction false} TasksArePrefix(server: seq<Item>, pages: nat)
    requires Distinct(server) && pages >= 1
    ensures Tasks(server, pages) == Upto(server, pages)
  {
    assert ServerPage(server, 1) == Upto(server, 1);
    hide DedupeById, ServerPage, Upto, Distinct;
    if pages > 1 {
      TasksArePrefix(server, pages - 1);
      NextTasks(server, pages - 1);
    }
  }
}
