/** The report pie: seven largest groups and the rest folded into one, drawn as arcs of a circle. */
module PieReport {
  import opened Basics
  import opened Lists

  datatype Row = Row(key: Option<string>, count: nat)

  const VISIBLE: nat := 7
  const OTHER: Option<string> := Some("__other__")

  function Total(rows: seq<Row>): nat {
    if rows == [] then 0 else rows[0].count + Total(rows[1..])
  }

  /** Stable sort, largest first. */
  function Insert(row: Row, rows: seq<Row>): seq<Row> {
    if rows == [] || row.count >= rows[0].count then [row] + rows else [rows[0]] + Insert(row, rows[1..])
  }

  function Ordered(rows: seq<Row>): seq<Row> {
    if rows == [] then [] else Insert(rows[0], Ordered(rows[1..]))
  }

  function PieRows(rows: seq<Row>): seq<Row> {
    var ordered := Ordered(rows);
    if |ordered| <= VISIBLE then ordered
    else ordered[..VISIBLE] + [Row(OTHER, Total(ordered[VISIBLE..]))]
  }

  predicate Descending(rows: seq<Row>) {
    forall i, j :: 0 <= i < j < |rows| ==> rows[i].count >= rows[j].count
  }

  lemma {:induction false} InsertKeeps(row: Row, rows: seq<Row>)
    ensures multiset(Insert(row, rows)) == multiset(rows) + multiset{row}
    ensures Total(Insert(row, rows)) == row.count + Total(rows)
  {
    if rows != [] && row.count < rows[0].count {
      InsertKeeps(row, rows[1..]);
      assert rows == [rows[0]] + rows[1..];
    }
  }

  /** Nothing in `rows` is larger than `bound`. */
  predicate AtMost(rows: seq<Row>, bound: nat) {
    forall i :: 0 <= i < |rows| ==> rows[i].count <= bound
  }

  lemma {:induction false} InsertAtMost(row: Row, rows: seq<Row>, bound: nat)
    requires AtMost(rows, bound) && row.count <= bound
    ensures AtMost(Insert(row, rows), bound)
  {
    if rows != [] && row.count < rows[0].count {
      InsertAtMost(row, rows[1..], bound);
    }
  }

  lemma {:induction false} InsertSorts(row: Row, rows: seq<Row>)
    requires Descending(rows)
    ensures Descending(Insert(row, rows))
  {
    if rows != [] && row.count < rows[0].count {
      InsertSorts(row, rows[1..]);
      InsertAtMost(row, rows[1..], rows[0].count);
    }
  }

  lemma {:induction false} OrderedFacts(rows: seq<Row>)
    ensures Descending(Ordered(rows)) && multiset(Ordered(rows)) == multiset(rows)
    ensures Total(Ordered(rows)) == Total(rows) && |Ordered(rows)| == |rows|
  {
    if rows != [] {
      OrderedFacts(rows[1..]);
      InsertSorts(rows[0], Ordered(rows[1..]));
      InsertKeeps(rows[0], Ordered(rows[1..]));
      assert rows == [rows[0]] + rows[1..];
      assert |Ordered(rows)| == |multiset(Ordered(rows))|;
    }
  }

  lemma {:induction false} TotalConcat(a: seq<Row>, b: seq<Row>)
    ensures Total(a + b) == Total(a) + Total(b)
  {
    if a == [] {
      assert a + b == b;
    } else {
      assert (a + b)[1..] == a[1..] + b;
      TotalConcat(a[1..], b);
    }
  }

  /** Folding conserves the total; what stays visible are rows, and no folded row is larger than a visible one. */
  lemma PieConserves(rows: seq<Row>)
    ensures Total(PieRows(rows)) == Total(rows)
    ensures |PieRows(rows)| == if |rows| <= VISIBLE then |rows| else VISIBLE + 1
    ensures var ordered := Ordered(rows);
      && multiset(ordered) == multiset(rows)
      && forall i, j :: 0 <= i < VISIBLE <= j < |ordered| ==>
           PieRows(rows)[i] == ordered[i] && ordered[i].count >= ordered[j].count
  {
    OrderedFacts(rows);
    var ordered := Ordered(rows);
    if |ordered| > VISIBLE {
      assert ordered == ordered[..VISIBLE] + ordered[VISIBLE..];
      TotalConcat(ordered[..VISIBLE], ordered[VISIBLE..]);
      var other := [Row(OTHER, Total(ordered[VISIBLE..]))];
      TotalConcat(ordered[..VISIBLE], other);
      assert other[1..] == [];
    }
  }

  function HasCount(n: nat): Row -> bool {
    (row: Row) => row.count == n
  }

  /** Largest first, and rows of equal count in the order they came in. */
  ghost predicate IsStableSort(rows: seq<Row>, ordered: seq<Row>) {
    Descending(ordered) && forall n, part :: Kept(rows, HasCount(n), part) ==> Kept(ordered, HasCount(n), part)
  }

  lemma {:induction false} InsertKept(row: Row, rows: seq<Row>, n: nat, part: seq<Row>)
    requires Descending(rows) && Kept(rows, HasCount(n), part)
    ensures Kept(Insert(row, rows), HasCount(n), (if row.count == n then [row] else []) + part)
  {
    var all := Insert(row, rows);
    if rows == [] || row.count >= rows[0].count {
      assert all[1..] == rows;
      KeptCons(all, HasCount(n), part);
    } else {
      assert all[1..] == Insert(row, rows[1..]);
      if rows[0].count == n {
        InsertKept(row, rows[1..], n, part[1..]);
        assert [] + part[1..] == part[1..];
        KeptCons(all, HasCount(n), part[1..]);
        assert [rows[0]] + part[1..] == part && [] + part == part;
      } else {
        InsertKept(row, rows[1..], n, part);
        KeptCons(all, HasCount(n), (if row.count == n then [row] else []) + part);
        assert [] + ((if row.count == n then [row] else []) + part) == (if row.count == n then [row] else []) + part;
      }
    }
  }

  lemma {:induction false} OrderedKept(rows: seq<Row>, n: nat, part: seq<Row>)
    requires Kept(rows, HasCount(n), part)
    ensures Kept(Ordered(rows), HasCount(n), part)
  {
    if rows != [] {
      OrderedFacts(rows[1..]);
      if rows[0].count == n {
        OrderedKept(rows[1..], n, part[1..]);
        InsertKept(rows[0], Ordered(rows[1..]), n, part[1..]);
        assert [rows[0]] + part[1..] == part;
      } else {
        OrderedKept(rows[1..], n, part);
        InsertKept(rows[0], Ordered(rows[1..]), n, part);
        assert [] + part == part;
      }
    }
  }

  /** The pie's rows: the rows sorted stably, largest first; of more than seven, the first seven and a row "__other__"
      for the total of the rest. */
  lemma PieRowsAre(rows: seq<Row>) returns (ordered: seq<Row>)
    ensures IsStableSort(rows, ordered) && multiset(ordered) == multiset(rows) && |ordered| == |rows|
    ensures PieRows(rows) == if |rows| <= 7 then ordered
                             else ordered[..7] + [Row(Some("__other__"), Total(ordered[7..]))]
  {
    ordered := Ordered(rows);
    OrderedFacts(rows);
    forall n, part | Kept(rows, HasCount(n), part) ensures Kept(ordered, HasCount(n), part) {
      OrderedKept(rows, n, part);
    }
  }

  // ---------------------------------------------------------------- arcs

  function Degrees(part: nat, total: nat): real
    requires total > 0
  {
    part as real / total as real * 360.0
  }

  /** How wide each row's arc is. */
  function Widths(rows: seq<Row>, total: nat): (w: seq<real>)
    requires total > 0
    ensures |w| == |rows|
  {
    if rows == [] then [] else [Degrees(rows[0].count, total)] + Widths(rows[1..], total)
  }

  function Sum(w: seq<real>): real {
    if w == [] then 0.0 else Sum(w[..|w| - 1]) + w[|w| - 1]
  }

  lemma {:induction false} SumCons(x: real, w: seq<real>)
    ensures Sum([x] + w) == x + Sum(w)
    decreases |w|
  {
    var all := [x] + w;
    if w == [] {
      assert all[..0] == [];
    } else {
      assert all[..|all| - 1] == [x] + w[..|w| - 1];
      SumCons(x, w[..|w| - 1]);
    }
  }

  lemma DegreesAdd(a: nat, b: nat, total: nat)
    requires total > 0
    ensures Degrees(a + b, total) == Degrees(a, total) + Degrees(b, total)
    ensures Degrees(0, total) == 0.0 && Degrees(total, total) == 360.0 && Degrees(b, total) >= 0.0
  {
    var x, y, t := a as real, b as real, total as real;
    assert (x + y) / t == x / t + y / t;
    assert t / t == 1.0;
    assert y / t >= 0.0;
  }

  /** The widths of any rows add up to the width of their total. */
  lemma {:induction false} WidthsSum(rows: seq<Row>, total: nat)
    requires total > 0
    ensures Sum(Widths(rows, total)) == Degrees(Total(rows), total)
    ensures forall i :: 0 <= i < |rows| ==>
      Widths(rows, total)[i] == Degrees(rows[i].count, total) && Widths(rows, total)[i] >= 0.0
  {
    if rows == [] {
      DegreesAdd(0, 0, total);
    } else {
      WidthsSum(rows[1..], total);
      SumCons(Degrees(rows[0].count, total), Widths(rows[1..], total));
      DegreesAdd(rows[0].count, Total(rows[1..]), total);
      DegreesAdd(0, rows[0].count, total);
    }
  }

  datatype Arc = Arc(start: real, end: real)

  function End(arcs: seq<Arc>): real {
    if arcs == [] then 0.0 else arcs[|arcs| - 1].end
  }

  /** Arcs that start at zero, follow each other without gap, and have the given widths. */
  ghost predicate Drawn(arcs: seq<Arc>, widths: seq<real>) {
    && |arcs| <= |widths|
    && (arcs != [] ==> arcs[0].start == 0.0)
    && (forall i :: 0 < i < |arcs| ==> arcs[i].start == arcs[i - 1].end)
    && forall i :: 0 <= i < |arcs| ==> arcs[i].end == arcs[i].start + widths[i]
  }

  /** `arcs` cover the first widths, and end where those end. */
  ghost predicate Reaches(arcs: seq<Arc>, widths: seq<real>) {
    Drawn(arcs, widths) && End(arcs) == Sum(widths[..|arcs|])
  }

  lemma DrawOne(arcs: seq<Arc>, widths: seq<real>)
    requires |arcs| < |widths| && Reaches(arcs, widths)
    ensures Reaches(arcs + [Arc(End(arcs), End(arcs) + widths[|arcs|])], widths)
  {
    var i := |arcs|;
    assert widths[..i + 1][..i] == widths[..i];
    assert Sum(widths[..i + 1]) == Sum(widths[..i]) + widths[i];
    hide Sum;
  }

  method DrawArcs(widths: seq<real>) returns (arcs: seq<Arc>)
    ensures |arcs| == |widths| && Drawn(arcs, widths) && End(arcs) == Sum(widths)
  {
    var cursor := 0.0;
    arcs := [];
    for i := 0 to |widths|
      invariant |arcs| == i && Reaches(arcs, widths)
      invariant cursor == End(arcs)
    {
      hide Reaches, Drawn, Sum;
      DrawOne(arcs, widths);
      var start := cursor;
      cursor := cursor + widths[i];
      arcs := arcs + [Arc(start, cursor)];
    }
    assert widths[..|widths|] == widths;
  }

  /** The gradient stops; None is the plain disc of an empty report. */
  method PieGradient(rows: seq<Row>) returns (arcs: Option<seq<Arc>>)
    ensures arcs.None? <==> Total(rows) == 0
    ensures arcs.Some? ==>
      && |arcs.value| == |PieRows(rows)|
      && Drawn(arcs.value, Widths(PieRows(rows), Total(rows)))
      && (forall i :: 0 <= i < |arcs.value| ==>
            && arcs.value[i].start <= arcs.value[i].end
            && arcs.value[i].end - arcs.value[i].start
               == PieRows(rows)[i].count as real / Total(rows) as real * 360.0)
      && End(arcs.value) == 360.0
  {
    var total, pie := Total(rows), PieRows(rows);
    PieConserves(rows);
    if total == 0 || pie == [] {
      return None;
    }
    var widths := Widths(pie, total);
    WidthsSum(pie, total);
    DegreesAdd(total, 0, total);
    var out := DrawArcs(widths);
    return Some(out);
  }
}
