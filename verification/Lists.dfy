/** What filtering a list means; the specification of the filters in these models. */
module Lists {

  /** `r` has, in order, exactly the elements of `s` that are kept. */
  ghost predicate Kept<T>(s: seq<T>, keep: T -> bool, r: seq<T>)
    decreases |s|
  {
    if s == [] then r == []
    else if keep(s[0]) then r != [] && r[0] == s[0] && Kept(s[1..], keep, r[1..])
    else Kept(s[1..], keep, r)
  }

  /** Filtering the tail, and then deciding about the head. */
  lemma KeptCons<T>(s: seq<T>, keep: T -> bool, rest: seq<T>)
    requires s != [] && Kept(s[1..], keep, rest)
    ensures Kept(s, keep, (if keep(s[0]) then [s[0]] else []) + rest)
  {
    assert ([s[0]] + rest)[1..] == rest && [] + rest == rest;
  }

  /** Deciding about one more element at the end. */
  lemma {:induction false} KeptSnoc<T>(s: seq<T>, keep: T -> bool, r: seq<T>, x: T)
    requires Kept(s, keep, r)
    ensures Kept(s + [x], keep, r + if keep(x) then [x] else [])
    decreases |s|
  {
    var all, out := s + [x], r + if keep(x) then [x] else [];
    if s == [] {
      assert all[1..] == [];
      assert out == if keep(x) then [x] else [];
    } else {
      assert all[0] == s[0] && all[1..] == s[1..] + [x];
      if keep(s[0]) {
        KeptSnoc(s[1..], keep, r[1..], x);
        assert out[0] == r[0] && out[1..] == r[1..] + if keep(x) then [x] else [];
      } else {
        KeptSnoc(s[1..], keep, r, x);
      }
    }
  }

  lemma {:induction false} KeptIsUnique<T>(s: seq<T>, keep: T -> bool, a: seq<T>, b: seq<T>)
    requires Kept(s, keep, a) && Kept(s, keep, b)
    ensures a == b
    decreases |s|
  {
    if s != [] {
      if keep(s[0]) {
        KeptIsUnique(s[1..], keep, a[1..], b[1..]);
      } else {
        KeptIsUnique(s[1..], keep, a, b);
      }
    }
  }

  /** What is kept are the elements that should be, as often as they occur. */
  lemma {:induction false} KeptMembers<T>(s: seq<T>, keep: T -> bool, r: seq<T>)
    requires Kept(s, keep, r)
    ensures forall x :: multiset(r)[x] == if keep(x) then multiset(s)[x] else 0
    ensures |r| <= |s|
    decreases |s|
  {
    if s != [] {
      assert s == [s[0]] + s[1..];
      if keep(s[0]) {
        KeptMembers(s[1..], keep, r[1..]);
        assert r == [r[0]] + r[1..];
      } else {
        KeptMembers(s[1..], keep, r);
      }
    }
  }

  function Shift(at: seq<nat>): (up: seq<nat>)
    ensures |up| == |at| && forall k :: 0 <= k < |at| ==> up[k] == at[k] + 1
  {
    if at == [] then [] else [at[0] + 1] + Shift(at[1..])
  }

  /** `at` says where the elements of `r` stand in `s`, from left to right. */
  ghost predicate StandsAt<T>(s: seq<T>, r: seq<T>, at: seq<nat>) {
    && |at| == |r|
    && (forall k :: 0 <= k < |r| ==> at[k] < |s| && r[k] == s[at[k]])
    && forall k, l :: 0 <= k < l < |at| ==> at[k] < at[l]
  }

  /** Filtering keeps the order. */
  lemma {:induction false} KeptInOrder<T>(s: seq<T>, keep: T -> bool, r: seq<T>) returns (at: seq<nat>)
    requires Kept(s, keep, r)
    ensures StandsAt(s, r, at)
    decreases |s|
  {
    at := [];
    if s != [] {
      if keep(s[0]) {
        var rest := KeptInOrder(s[1..], keep, r[1..]);
        hide Kept;
        at := [0] + Shift(rest);
        assert forall k :: 0 < k < |at| ==> at[k] == rest[k - 1] + 1 && r[k] == r[1..][k - 1];
        assert forall k :: 0 < k < |at| ==> s[at[k]] == s[1..][rest[k - 1]];
      } else {
        var rest := KeptInOrder(s[1..], keep, r);
        hide Kept;
        at := Shift(rest);
        assert forall k :: 0 <= k < |at| ==> s[at[k]] == s[1..][rest[k]];
      }
    }
  }
}
