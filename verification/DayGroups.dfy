/** Two ways of grouping rows by day: the timeline's adjacent runs and the notification center's first occurrence. */
module DayGroups {
  import opened Basics
  import opened Lists

  datatype Row = Row(day: string, id: string)

  datatype Group = Group(day: string, rows: seq<Row>)

  function Flatten(groups: seq<Group>): seq<Row> {
    if groups == [] then [] else groups[0].rows + Flatten(groups[1..])
  }

  /** Adding a row to the last group if it has the row's day. */
  function AddAdjacent(groups: seq<Group>, row: Row): seq<Group> {
    var n := |groups|;
    if n > 0 && groups[n - 1].day == row.day
    then groups[n - 1 := Group(row.day, groups[n - 1].rows + [row])]
    else groups + [Group(row.day, [row])]
  }

  /** Adding a row to the first group with the row's day. */
  function AddFirst(groups: seq<Group>, row: Row): seq<Group> {
    if groups == [] then [Group(row.day, [row])]
    else if groups[0].day == row.day then [Group(row.day, groups[0].rows + [row])] + groups[1..]
    else [groups[0]] + AddFirst(groups[1..], row)
  }

  function Adjacent(rows: seq<Row>): seq<Group> {
    if rows == [] then [] else AddAdjacent(Adjacent(rows[..|rows| - 1]), rows[|rows| - 1])
  }

  function ByFirst(rows: seq<Row>): seq<Group> {
    if rows == [] then [] else AddFirst(ByFirst(rows[..|rows| - 1]), rows[|rows| - 1])
  }

  method GroupTimeline(rows: seq<Row>) returns (groups: seq<Group>)
    ensures groups == Adjacent(rows)
    ensures Flatten(groups) == rows && WellGrouped(groups) && NeighboursDiffer(groups)
  {
    groups := [];
    for i := 0 to |rows|
      invariant groups == Adjacent(rows[..i])
    {
      assert rows[..i + 1][..i] == rows[..i];
      if groups != [] && groups[|groups| - 1].day == rows[i].day {
        groups := groups[|groups| - 1 := Group(rows[i].day, groups[|groups| - 1].rows + [rows[i]])];
      } else {
        groups := groups + [Group(rows[i].day, [rows[i]])];
      }
    }
    assert rows[..|rows|] == rows;
    AdjacentIff(rows, groups);
  }

  method GroupNotifications(rows: seq<Row>) returns (groups: seq<Group>)
    ensures groups == ByFirst(rows)
    ensures exists at :: IsByFirst(rows, groups, at)
  {
    groups := [];
    for i := 0 to |rows|
      invariant groups == ByFirst(rows[..i])
    {
      assert rows[..i + 1][..i] == rows[..i];
      ghost var before := groups;
      var k := 0;
      while k < |groups| && groups[k].day != rows[i].day
        invariant k <= |groups|
        invariant forall j :: 0 <= j < k ==> groups[j].day != rows[i].day
      {
        k := k + 1;
      }
      AddFirstAt(groups, rows[i], k);
      if k < |groups| {
        groups := groups[k := Group(groups[k].day, groups[k].rows + [rows[i]])];
      } else {
        groups := groups + [Group(rows[i].day, [rows[i]])];
      }
    }
    assert rows[..|rows|] == rows;
    ghost var at := ByFirstMeans(rows);
  }

  lemma {:induction false} AddFirstAt(groups: seq<Group>, row: Row, k: nat)
    requires k <= |groups| && forall j :: 0 <= j < k ==> groups[j].day != row.day
    requires k < |groups| ==> groups[k].day == row.day
    ensures AddFirst(groups, row)
      == if k < |groups| then groups[k := Group(groups[k].day, groups[k].rows + [row])]
         else groups + [Group(row.day, [row])]
  {
    if groups != [] && k > 0 {
      AddFirstAt(groups[1..], row, k - 1);
    }
  }

  // ---------------------------------------------------------------- when they agree

  /** The rows of each day are consecutive. */
  predicate Contiguous(rows: seq<Row>) {
    forall i, j, k :: 0 <= i < j < k < |rows| && rows[i].day == rows[k].day ==> rows[j].day == rows[i].day
  }

  /** Groups are non-empty and hold rows of their own day only. */
  predicate WellGrouped(groups: seq<Group>) {
    forall g :: 0 <= g < |groups| ==>
      groups[g].rows != [] && forall r :: 0 <= r < |groups[g].rows| ==> groups[g].rows[r].day == groups[g].day
  }

  predicate DistinctDays(groups: seq<Group>) {
    forall g, h :: 0 <= g < h < |groups| ==> groups[g].day != groups[h].day
  }

  lemma {:induction false} FlattenSnoc(groups: seq<Group>, g: Group)
    ensures Flatten(groups + [g]) == Flatten(groups) + g.rows
  {
    if groups == [] {
      assert groups + [g] == [g] && [g][1..] == [];
    } else {
      assert (groups + [g])[1..] == groups[1..] + [g];
      FlattenSnoc(groups[1..], g);
    }
  }

  lemma AddAdjacentFlattens(groups: seq<Group>, row: Row)
    requires WellGrouped(groups)
    ensures Flatten(AddAdjacent(groups, row)) == Flatten(groups) + [row]
    ensures WellGrouped(AddAdjacent(groups, row))
  {
    var n := |groups|;
    if n > 0 && groups[n - 1].day == row.day {
      var init, last := groups[..n - 1], groups[n - 1];
      assert groups == init + [last];
      assert AddAdjacent(groups, row) == init + [Group(row.day, last.rows + [row])];
      FlattenSnoc(init, last);
      FlattenSnoc(init, Group(row.day, last.rows + [row]));
      Regroup(Flatten(init), last.rows, [row]);
    } else {
      FlattenSnoc(groups, Group(row.day, [row]));
    }
  }

  /** The timeline's groups always flatten to their input, and their last group is the last row's day. */
  lemma {:induction false} AdjacentFlattens(rows: seq<Row>)
    ensures Flatten(Adjacent(rows)) == rows && WellGrouped(Adjacent(rows))
    ensures rows != [] ==> var a := Adjacent(rows); a != [] && a[|a| - 1].day == rows[|rows| - 1].day
  {
    if rows != [] {
      var init, last := rows[..|rows| - 1], rows[|rows| - 1];
      AdjacentFlattens(init);
      AddAdjacentFlattens(Adjacent(init), last);
      assert rows == init + [last];
    }
  }

  lemma {:induction false} DayOfGroupOccurs(groups: seq<Group>, g: nat) returns (i: nat)
    requires WellGrouped(groups) && g < |groups|
    ensures i < |Flatten(groups)| && Flatten(groups)[i].day == groups[g].day
  {
    if g == 0 {
      i := 0;
    } else {
      var j := DayOfGroupOccurs(groups[1..], g - 1);
      i := |groups[0].rows| + j;
    }
  }

  /** A row that does not continue the last day has a day not seen before. */
  lemma {:induction false} NewDayIsNew(rows: seq<Row>, row: Row, g: nat)
    requires Contiguous(rows + [row]) && g < |Adjacent(rows)|
    requires rows != [] && rows[|rows| - 1].day != row.day
    ensures Adjacent(rows)[g].day != row.day
  {
    var all := rows + [row];
    AdjacentFlattens(rows);
    var i := DayOfGroupOccurs(Adjacent(rows), g);
    assert all[i] == rows[i] && all[|rows|] == row && all[|rows| - 1] == rows[|rows| - 1];
  }

  lemma {:induction false} StepsAgreeOn(groups: seq<Group>, row: Row)
    requires DistinctDays(groups)
    requires forall g :: 0 <= g < |groups| && groups[g].day == row.day ==> g == |groups| - 1
    ensures AddFirst(groups, row) == AddAdjacent(groups, row) && DistinctDays(AddAdjacent(groups, row))
  {
    var n := |groups|;
    AddFirstAt(groups, row, if n > 0 && groups[n - 1].day == row.day then n - 1 else n);
  }

  /** On contiguous rows an adjacent-run step is a first-occurrence step. */
  lemma StepsAgree(rows: seq<Row>, row: Row)
    requires Contiguous(rows + [row]) && DistinctDays(Adjacent(rows))
    ensures AddFirst(Adjacent(rows), row) == AddAdjacent(Adjacent(rows), row)
    ensures DistinctDays(AddAdjacent(Adjacent(rows), row))
  {
    var groups := Adjacent(rows);
    AdjacentFlattens(rows);
    forall g | 0 <= g < |groups| && groups[g].day == row.day ensures g == |groups| - 1 {
      if rows[|rows| - 1].day != row.day {
        NewDayIsNew(rows, row, g);
      }
    }
    StepsAgreeOn(groups, row);
  }

  lemma {:induction false} ContiguousAgree(rows: seq<Row>)
    requires Contiguous(rows)
    ensures ByFirst(rows) == Adjacent(rows) && DistinctDays(Adjacent(rows))
  {
    if rows != [] {
      var init, last := rows[..|rows| - 1], rows[|rows| - 1];
      assert rows == init + [last];
      assert Contiguous(init);
      ContiguousAgree(init);
      StepsAgree(init, last);
    }
  }

  lemma {:induction false} AddFirstDays(groups: seq<Group>, row: Row)
    requires DistinctDays(groups) && WellGrouped(groups)
    ensures DistinctDays(AddFirst(groups, row)) && WellGrouped(AddFirst(groups, row))
    ensures forall g :: 0 <= g < |AddFirst(groups, row)| ==>
      || AddFirst(groups, row)[g].day == row.day
      || exists h :: 0 <= h < |groups| && groups[h].day == AddFirst(groups, row)[g].day
  {
    if groups != [] && groups[0].day != row.day {
      AddFirstDays(groups[1..], row);
    }
  }

  /** First-occurrence groups never share a day. */
  lemma {:induction false} ByFirstDays(rows: seq<Row>)
    ensures DistinctDays(ByFirst(rows)) && WellGrouped(ByFirst(rows))
  {
    if rows != [] {
      ByFirstDays(rows[..|rows| - 1]);
      AddFirstDays(ByFirst(rows[..|rows| - 1]), rows[|rows| - 1]);
    }
  }

  /** Where a flattened row comes from. */
  lemma {:induction false} GroupOf(groups: seq<Group>, i: nat) returns (g: nat)
    requires WellGrouped(groups) && i < |Flatten(groups)|
    ensures g < |groups| && groups[g].day == Flatten(groups)[i].day
    ensures |Flatten(groups[..g])| <= i < |Flatten(groups[..g + 1])|
  {
    if i < |groups[0].rows| {
      g := 0;
      assert groups[..0] == [] && groups[..1][1..] == [];
    } else {
      var h := GroupOf(groups[1..], i - |groups[0].rows|);
      g := h + 1;
      assert groups[..g][1..] == groups[1..][..h] && groups[..g + 1][1..] == groups[1..][..h + 1];
    }
  }

  lemma {:induction false} FlattenGrows(groups: seq<Group>, a: nat, b: nat)
    requires a <= b <= |groups|
    ensures |Flatten(groups[..a])| <= |Flatten(groups[..b])|
    decreases b
  {
    if a < b {
      assert groups[..b] == groups[..b - 1] + [groups[b - 1]];
      FlattenSnoc(groups[..b - 1], groups[b - 1]);
      FlattenGrows(groups, a, b - 1);
    }
  }

  /** Groups of distinct days flatten to contiguous rows. */
  lemma DistinctDaysAreContiguous(groups: seq<Group>)
    requires DistinctDays(groups) && WellGrouped(groups)
    ensures Contiguous(Flatten(groups))
  {
    var rows := Flatten(groups);
    forall i, j, k | 0 <= i < j < k < |rows| && rows[i].day == rows[k].day ensures rows[j].day == rows[i].day {
      var a := GroupOf(groups, i);
      var b := GroupOf(groups, j);
      var c := GroupOf(groups, k);
      assert a == c;
      if b < a {
        FlattenGrows(groups, b + 1, a);
      } else if a < b {
        FlattenGrows(groups, a + 1, b);
      }
    }
  }

  /** The two groupings coincide exactly on contiguous rows; so does flattening back for the second one. */
  lemma GroupingsAgreeIff(rows: seq<Row>)
    ensures ByFirst(rows) == Adjacent(rows) <==> Contiguous(rows)
    ensures Flatten(ByFirst(rows)) == rows <==> Contiguous(rows)
  {
    AdjacentFlattens(rows);
    ByFirstDays(rows);
    if Contiguous(rows) {
      ContiguousAgree(rows);
    } else {
      DistinctDaysAreContiguous(ByFirst(rows));
    }
  }

  // ---------------------------------------------------------------- what each grouping is

  predicate NeighboursDiffer(groups: seq<Group>) {
    forall g :: 0 < g < |groups| ==> groups[g - 1].day != groups[g].day
  }

  lemma AddAdjacentDiffers(groups: seq<Group>, row: Row)
    requires NeighboursDiffer(groups)
    ensures NeighboursDiffer(AddAdjacent(groups, row))
  {
  }

  lemma {:induction false} AdjacentDiffers(rows: seq<Row>)
    ensures NeighboursDiffer(Adjacent(rows))
  {
    if rows != [] {
      AdjacentDiffers(rows[..|rows| - 1]);
      AddAdjacentDiffers(Adjacent(rows[..|rows| - 1]), rows[|rows| - 1]);
    }
  }

  lemma RowsOfFirst(groups: seq<Group>)
    requires groups != [] && WellGrouped(groups)
    ensures Flatten(groups) != []
    ensures forall i :: 0 <= i < |groups[0].rows| ==>
      Flatten(groups)[i] == groups[0].rows[i] && Flatten(groups)[i].day == groups[0].day
  {
  }

  /** After the first group comes another day. */
  lemma {:induction false} FirstRunEnds(groups: seq<Group>)
    requires groups != [] && WellGrouped(groups) && NeighboursDiffer(groups)
    requires |groups[0].rows| < |Flatten(groups)|
    ensures Flatten(groups)[|groups[0].rows|].day != groups[0].day
  {
    assert groups[1..] != [] && Flatten(groups)[|groups[0].rows|] == Flatten(groups[1..])[0] == groups[1].rows[0];
  }

  lemma FirstGroupFits(a: seq<Group>, b: seq<Group>)
    requires a != [] && b != [] && WellGrouped(a) && WellGrouped(b) && NeighboursDiffer(a)
    requires Flatten(a) == Flatten(b)
    ensures a[0].day == b[0].day && |a[0].rows| >= |b[0].rows|
  {
    RowsOfFirst(a);
    RowsOfFirst(b);
    if |a[0].rows| < |Flatten(a)| {
      FirstRunEnds(a);
    }
    assert |b[0].rows| <= |Flatten(b)|;
    assert a[0].rows != [] && b[0].rows != [];
    assert Flatten(a)[0].day == a[0].day && Flatten(b)[0].day == b[0].day;
    hide Flatten, NeighboursDiffer, WellGrouped;
  }

  lemma {:induction false} AdjacentIsUnique(a: seq<Group>, b: seq<Group>)
    requires WellGrouped(a) && WellGrouped(b) && NeighboursDiffer(a) && NeighboursDiffer(b)
    requires Flatten(a) == Flatten(b)
    ensures a == b
  {
    if a != [] {
      RowsOfFirst(a);
    }
    if b != [] {
      RowsOfFirst(b);
    }
    if a != [] && b != [] {
      FirstGroupFits(a, b);
      FirstGroupFits(b, a);
      var n := |a[0].rows|;
      assert a[0].rows == Flatten(a)[..n] == b[0].rows;
      assert Flatten(a[1..]) == Flatten(a)[n..] == Flatten(b[1..]);
      AdjacentIsUnique(a[1..], b[1..]);
      assert a == [a[0]] + a[1..] && b == [b[0]] + b[1..];
    }
  }

  /** The timeline's groups are the runs: they flatten to the rows, hold one day each, and neighbours differ. */
  lemma AdjacentIff(rows: seq<Row>, groups: seq<Group>)
    ensures groups == Adjacent(rows) <==> Flatten(groups) == rows && WellGrouped(groups) && NeighboursDiffer(groups)
  {
    AdjacentFlattens(rows);
    AdjacentDiffers(rows);
    if Flatten(groups) == rows && WellGrouped(groups) && NeighboursDiffer(groups) {
      AdjacentIsUnique(groups, Adjacent(rows));
    }
  }

  function OnDay(day: string): Row -> bool {
    (row: Row) => row.day == day
  }

  /** Row `i` is the first of its day. */
  predicate FirstOfDay(rows: seq<Row>, i: nat, day: string) {
    i < |rows| && rows[i].day == day && forall j :: 0 <= j < i ==> rows[j].day != day
  }

  /** Every day that occurs has a group. */
  predicate Covers(rows: seq<Row>, groups: seq<Group>) {
    forall i :: 0 <= i < |rows| ==> HasDay(groups, rows[i].day)
  }

  predicate HasDay(groups: seq<Group>, day: string) {
    exists g :: 0 <= g < |groups| && groups[g].day == day
  }

  /** The group of the day that first occurs at `i`: all rows of that day, in order. */
  ghost predicate IsDayGroup(rows: seq<Row>, g: Group, i: nat) {
    FirstOfDay(rows, i, g.day) && Kept(rows, OnDay(g.day), g.rows)
  }

  /** One group for every day, in the order in which the days first occur. */
  ghost predicate IsByFirst(rows: seq<Row>, groups: seq<Group>, at: seq<nat>) {
    && |at| == |groups|
    && (forall g :: 0 <= g < |groups| ==> IsDayGroup(rows, groups[g], at[g]))
    && (forall g, h :: 0 <= g < h < |at| ==> at[g] < at[h])
    && Covers(rows, groups)
  }

  lemma {:induction false} NoneKept(rows: seq<Row>, day: string)
    requires forall i :: 0 <= i < |rows| ==> rows[i].day != day
    ensures Kept(rows, OnDay(day), [])
  {
    if rows != [] {
      NoneKept(rows[1..], day);
    }
  }

  lemma DayGroupNext(rows: seq<Row>, g: Group, i: nat, row: Row)
    requires IsDayGroup(rows, g, i)
    ensures IsDayGroup(rows + [row], if g.day == row.day then Group(row.day, g.rows + [row]) else g, i)
  {
    KeptSnoc(rows, OnDay(g.day), g.rows, row);
    assert g.rows + [] == g.rows;
    hide Kept;
  }

  lemma {:induction false} NewDayGroup(rows: seq<Row>, row: Row)
    requires forall i :: 0 <= i < |rows| ==> rows[i].day != row.day
    ensures IsDayGroup(rows + [row], Group(row.day, [row]), |rows|)
  {
    NoneKept(rows, row.day);
    KeptSnoc(rows, OnDay(row.day), [], row);
    assert [] + [row] == [row];
    hide Kept;
  }

  lemma {:induction false} CoversNext(rows: seq<Row>, groups: seq<Group>, row: Row, next: seq<Group>)
    requires Covers(rows, groups) && |groups| <= |next| && HasDay(next, row.day)
    requires forall g :: 0 <= g < |groups| ==> next[g].day == groups[g].day
    ensures Covers(rows + [row], next)
  {
    forall i | 0 <= i < |rows| ensures HasDay(next, rows[i].day) {
      var g :| 0 <= g < |groups| && groups[g].day == rows[i].day;
      assert next[g].day == rows[i].day;
    }
  }

  lemma {:induction false} JoinsGroup(rows: seq<Row>, groups: seq<Group>, at: seq<nat>, row: Row, k: nat)
    requires IsByFirst(rows, groups, at) && k < |groups|
    requires forall j :: 0 <= j < |groups| ==> (groups[j].day == row.day <==> j == k)
    ensures IsByFirst(rows + [row], groups[k := Group(groups[k].day, groups[k].rows + [row])], at)
  {
    var next := groups[k := Group(groups[k].day, groups[k].rows + [row])];
    forall g | 0 <= g < |groups| ensures IsDayGroup(rows + [row], next[g], at[g]) {
      DayGroupNext(rows, groups[g], at[g], row);
    }
    assert HasDay(next, row.day) by { assert next[k].day == row.day; }
    hide IsDayGroup, Covers, HasDay;
    CoversNext(rows, groups, row, next);
  }

  lemma {:induction false} OpensGroup(rows: seq<Row>, groups: seq<Group>, at: seq<nat>, row: Row)
    requires IsByFirst(rows, groups, at) && forall j :: 0 <= j < |groups| ==> groups[j].day != row.day
    ensures IsByFirst(rows + [row], groups + [Group(row.day, [row])], at + [|rows|])
  {
    var next := groups + [Group(row.day, [row])];
    forall i | 0 <= i < |rows| ensures rows[i].day != row.day {
      assert HasDay(groups, rows[i].day);
    }
    forall g | 0 <= g < |groups| ensures IsDayGroup(rows + [row], next[g], at[g]) && at[g] < |rows| {
      DayGroupNext(rows, groups[g], at[g], row);
    }
    NewDayGroup(rows, row);
    assert HasDay(next, row.day) by { assert next[|groups|].day == row.day; }
    hide IsDayGroup, Covers, HasDay;
    CoversNext(rows, groups, row, next);
  }

  lemma DayAt(groups: seq<Group>, day: string) returns (k: nat)
    requires DistinctDays(groups)
    ensures k <= |groups|
    ensures if k < |groups| then forall j :: 0 <= j < |groups| ==> (groups[j].day == day <==> j == k)
      else forall j :: 0 <= j < |groups| ==> groups[j].day != day
  {
    k := |groups|;
    if j: nat :| j < |groups| && groups[j].day == day {
      k := j;
    }
  }

  lemma ByFirstStep(rows: seq<Row>, groups: seq<Group>, at: seq<nat>, row: Row) returns (next: seq<nat>)
    requires IsByFirst(rows, groups, at) && DistinctDays(groups)
    ensures IsByFirst(rows + [row], AddFirst(groups, row), next)
  {
    hide IsByFirst, AddFirst;
    var k := DayAt(groups, row.day);
    hide DistinctDays;
    AddFirstAt(groups, row, k);
    if k < |groups| {
      JoinsGroup(rows, groups, at, row, k);
      next := at;
    } else {
      OpensGroup(rows, groups, at, row);
      next := at + [|rows|];
    }
  }

  /** The notification center's groups are those, for any rows. */
  lemma {:induction false} ByFirstMeans(rows: seq<Row>) returns (at: seq<nat>)
    ensures IsByFirst(rows, ByFirst(rows), at)
  {
    if rows == [] {
      at := [];
    } else {
      hide IsByFirst, DistinctDays, WellGrouped, AddFirst;
      var init, last := rows[..|rows| - 1], rows[|rows| - 1];
      assert ByFirst(rows) == AddFirst(ByFirst(init), last) && rows == init + [last];
      hide ByFirst;
      at := ByFirstMeans(init);
      ByFirstDays(init);
      at := ByFirstStep(init, ByFirst(init), at, last);
    }
  }
}
