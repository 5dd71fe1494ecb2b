/** The record table's own state: hidden columns and the selection across pages. */
module TableState {
  import opened Basics
  import opened Lists

  function Visible(columns: seq<string>, hidden: seq<string>): seq<string> {
    if columns == [] then []
    else (if columns[0] in hidden then [] else [columns[0]]) + Visible(columns[1..], hidden)
  }

  function Dropped(hidden: seq<string>, column: string): seq<string> {
    if hidden == [] then []
    else (if hidden[0] == column then [] else [hidden[0]]) + Dropped(hidden[1..], column)
  }

  function Known(columns: seq<string>, hidden: seq<string>): seq<string> {
    if hidden == [] then []
    else (if hidden[0] in columns then [hidden[0]] else []) + Known(columns, hidden[1..])
  }

  /** What the column menu and the restoring of a session snapshot do to the hidden columns. */
  datatype Action = Toggle(column: string) | RestoreFrom(snapshot: seq<string>)

  function Acted(columns: seq<string>, hidden: seq<string>, a: Action): seq<string> {
    match a
    case Toggle(column) =>
      if column in hidden then Dropped(hidden, column)
      else if |Visible(columns, hidden)| <= 1 then hidden
      else hidden + [column]
    case RestoreFrom(snapshot) =>
      if |Known(columns, snapshot)| < |columns| then Known(columns, snapshot) else []
  }

  // ---------------------------------------------------------------- what the lists are

  function NotAmong(names: seq<string>): string -> bool {
    (c: string) => c !in names
  }

  function Among(names: seq<string>): string -> bool {
    (c: string) => c in names
  }

  lemma {:induction false} VisibleKeeps(columns: seq<string>, hidden: seq<string>)
    ensures Kept(columns, NotAmong(hidden), Visible(columns, hidden))
  {
    if columns != [] {
      VisibleKeeps(columns[1..], hidden);
      KeptCons(columns, NotAmong(hidden), Visible(columns[1..], hidden));
    }
  }

  lemma {:induction false} DroppedKeeps(hidden: seq<string>, column: string)
    ensures Kept(hidden, NotAmong([column]), Dropped(hidden, column))
  {
    if hidden != [] {
      DroppedKeeps(hidden[1..], column);
      KeptCons(hidden, NotAmong([column]), Dropped(hidden[1..], column));
    }
  }

  lemma {:induction false} KnownKeeps(columns: seq<string>, hidden: seq<string>)
    ensures Kept(hidden, Among(columns), Known(columns, hidden))
  {
    if hidden != [] {
      KnownKeeps(columns, hidden[1..]);
      KeptCons(hidden, Among(columns), Known(columns, hidden[1..]));
    }
  }

  /** One column and no more is left to see, or none. */
  ghost predicate AtMostOneVisible(columns: seq<string>, hidden: seq<string>) {
    forall visible :: Kept(columns, NotAmong(hidden), visible) ==> |visible| <= 1
  }

  lemma AtMostOneIff(columns: seq<string>, hidden: seq<string>)
    ensures AtMostOneVisible(columns, hidden) <==> |Visible(columns, hidden)| <= 1
  {
    hide Kept, Visible;
    VisibleKeeps(columns, hidden);
    forall visible | Kept(columns, NotAmong(hidden), visible) ensures visible == Visible(columns, hidden) {
      KeptIsUnique(columns, NotAmong(hidden), visible, Visible(columns, hidden));
    }
  }

  /** A hidden column is shown again; a visible one is hidden unless it is the last. */
  ghost predicate Toggled(columns: seq<string>, before: seq<string>, column: string, after: seq<string>) {
    if column in before then Kept(before, NotAmong([column]), after)
    else after == if AtMostOneVisible(columns, before) then before else before + [column]
  }

  /** The snapshot's names of existing columns, unless they are as many as there are columns. */
  ghost predicate Restored(columns: seq<string>, snapshot: seq<string>, after: seq<string>) {
    exists known ::
      Kept(snapshot, Among(columns), known) && after == if |known| < |columns| then known else []
  }

  lemma ActedMeans(columns: seq<string>, hidden: seq<string>, a: Action)
    ensures match a
      case Toggle(column) => Toggled(columns, hidden, column, Acted(columns, hidden, a))
      case RestoreFrom(snapshot) => Restored(columns, snapshot, Acted(columns, hidden, a))
  {
    hide Kept, Visible, Known, Dropped, AtMostOneVisible;
    match a
    case Toggle(column) =>
      DroppedKeeps(hidden, column);
      AtMostOneIff(columns, hidden);
    case RestoreFrom(snapshot) =>
      KnownKeeps(columns, snapshot);
  }

  class Table {
    const columns: seq<string>
    var hidden: seq<string>
    var selected: set<string>

    constructor (columns: seq<string>)
      ensures this.columns == columns && hidden == [] && selected == {}
    {
      this.columns, hidden, selected := columns, [], {};
    }

    /** The column menu; the item of the last visible column is disabled. */
    method ToggleColumn(column: string)
      modifies `hidden
      ensures hidden == Acted(columns, old(hidden), Toggle(column)) && Toggled(columns, old(hidden), column, hidden)
    {
      ActedMeans(columns, hidden, Toggle(column));
      var checked := column !in hidden;
      if checked && |Visible(columns, hidden)| <= 1 {
        return;
      }
      hidden := if checked then hidden + [column] else Dropped(hidden, column);
    }

    /** Restoring a session snapshot; one that would hide every column is not applied. */
    method Restore(snapshot: seq<string>)
      modifies `hidden
      ensures hidden == Acted(columns, old(hidden), RestoreFrom(snapshot)) && Restored(columns, snapshot, hidden)
    {
      ActedMeans(columns, hidden, RestoreFrom(snapshot));
      var known := Known(columns, snapshot);
      hidden := if |known| < |columns| then known else [];
    }

    method ToggleRow(id: string)
      modifies `selected
      ensures selected == if id in old(selected) then old(selected) - {id} else old(selected) + {id}
    {
      selected := if id in selected then selected - {id} else selected + {id};
    }

    /** The header checkbox: this page's rows on, or off when all were on. */
    method ToggleAllOnPage(rows: seq<string>)
      modifies `selected
      ensures forall id :: id !in rows ==> (id in selected <==> id in old(selected))
      ensures forall id :: id in rows ==>
        (id in selected <==> !(forall r :: r in rows ==> r in old(selected)))
    {
      var page := set r | r in rows;
      var allSelected := rows != [] && page <= selected;
      for i := 0 to |rows|
        invariant selected == if allSelected then old(selected) - set r | r in rows[..i]
                              else old(selected) + set r | r in rows[..i]
      {
        assert rows[..i + 1] == rows[..i] + [rows[i]];
        selected := if allSelected then selected - {rows[i]} else selected + {rows[i]};
      }
      assert rows[..|rows|] == rows;
    }
  }

  // ---------------------------------------------------------------- a column stays visible

  lemma {:induction false} VisibleMembers(columns: seq<string>, hidden: seq<string>)
    ensures forall c :: c in Visible(columns, hidden) <==> c in columns && c !in hidden
  {
    if columns != [] {
      VisibleMembers(columns[1..], hidden);
      assert columns == [columns[0]] + columns[1..];
    }
  }

  lemma {:induction false} DroppedMembers(hidden: seq<string>, column: string)
    ensures forall c :: c in Dropped(hidden, column) <==> c in hidden && c != column
  {
    if hidden != [] {
      DroppedMembers(hidden[1..], column);
      assert hidden == [hidden[0]] + hidden[1..];
    }
  }

  lemma {:induction false} HidingOneMore(columns: seq<string>, hidden: seq<string>, column: string)
    requires NoRepeats(columns)
    ensures |Visible(columns, hidden + [column])| >= |Visible(columns, hidden)| - 1
    ensures column !in columns ==> Visible(columns, hidden + [column]) == Visible(columns, hidden)
  {
    if columns != [] {
      HidingOneMore(columns[1..], hidden, column);
      assert columns == [columns[0]] + columns[1..];
      if columns[0] == column {
        assert column !in columns[1..];
      }
    }
  }

  /** Fewer hidden names than columns leave a column visible. */
  lemma {:induction false} SomeColumnLeft(columns: seq<string>, hidden: seq<string>)
    requires NoRepeats(columns) && |hidden| < |columns|
    ensures Visible(columns, hidden) != []
    decreases |columns|
  {
    var c, rest := columns[0], columns[1..];
    if c in hidden {
      var k :| 0 <= k < |hidden| && hidden[k] == c;
      var fewer := hidden[..k] + hidden[k + 1..];
      SomeColumnLeft(rest, fewer);
      VisibleMembers(rest, fewer);
      VisibleMembers(rest, hidden);
      var v := Visible(rest, fewer)[0];
      assert v in Visible(rest, fewer) && v in rest && v != c;
      assert v !in hidden by {
        assert hidden == hidden[..k] + [c] + hidden[k + 1..];
      }
    }
  }

  /** What the user sees: a toggle shows a hidden column or hides a visible one, all others stay; only the last
      visible column cannot be hidden. */
  lemma ToggleFlips(columns: seq<string>, hidden: seq<string>, column: string, c: string)
    ensures var after := Visible(columns, Acted(columns, hidden, Toggle(column)));
      c in after <==>
        (c in columns && if c != column then c in Visible(columns, hidden)
                         else column in hidden || AtMostOneVisible(columns, hidden))
  {
    AtMostOneIff(columns, hidden);
    VisibleMembers(columns, hidden);
    VisibleMembers(columns, Acted(columns, hidden, Toggle(column)));
    DroppedMembers(hidden, column);
    hide Visible, Dropped, AtMostOneVisible;
  }

  function After(columns: seq<string>, hidden: seq<string>, actions: seq<Action>): seq<string>
    decreases |actions|
  {
    if actions == [] then hidden else After(columns, Acted(columns, hidden, actions[0]), actions[1..])
  }

  lemma ActionLeavesAColumn(columns: seq<string>, hidden: seq<string>, a: Action)
    requires NoRepeats(columns) && columns != [] && Visible(columns, hidden) != []
    ensures Visible(columns, Acted(columns, hidden, a)) != []
  {
    match a
    case Toggle(column) =>
      if column in hidden {
        DroppedMembers(hidden, column);
        VisibleMembers(columns, hidden);
        VisibleMembers(columns, Dropped(hidden, column));
        assert Visible(columns, hidden)[0] in Visible(columns, hidden);
        assert Visible(columns, hidden)[0] in Visible(columns, Dropped(hidden, column));
      } else {
        HidingOneMore(columns, hidden, column);
      }
    case RestoreFrom(snapshot) =>
      SomeColumnLeft(columns, Acted(columns, hidden, a));
  }

  /** In every reachable table at least one column is visible, whatever snapshots are restored. */
  lemma {:induction false} AColumnStaysVisible(columns: seq<string>, hidden: seq<string>, actions: seq<Action>)
    requires NoRepeats(columns) && columns != [] && Visible(columns, hidden) != []
    ensures Visible(columns, After(columns, hidden, actions)) != []
    decreases |actions|
  {
    if actions != [] {
      ActionLeavesAColumn(columns, hidden, actions[0]);
      AColumnStaysVisible(columns, Acted(columns, hidden, actions[0]), actions[1..]);
    }
  }
}
