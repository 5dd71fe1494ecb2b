/** Mapping the columns of an import file to record fields by name, first come first served. */
module ImportMapping {
  import opened Basics
  import opened Lists
  import opened Strings

  datatype Field = Field(key: string, required: bool)

  function Letters(s: string): string {
    if s == "" then "" else (if 'a' <= s[0] <= 'z' then [s[0]] else "") + Letters(s[1..])
  }

  predicate Includes(s: string, t: string) {
    t <= s || (s != "" && Includes(s[1..], t))
  }

  function FindExact(fields: seq<Field>, name: string): Option<string> {
    if fields == [] then None
    else if name == Lower(fields[0].key) then Some(fields[0].key) else FindExact(fields[1..], name)
  }

  function FindWithin(fields: seq<Field>, name: string): Option<string> {
    if fields == [] then None
    else if Includes(name, Lower(fields[0].key)) then Some(fields[0].key) else FindWithin(fields[1..], name)
  }

  /** The field a column would like: one whose key it equals, else one whose key it contains. */
  function Candidate(fields: seq<Field>, column: string): Option<string> {
    var name := Letters(Lower(column));
    var exact := FindExact(fields, name);
    if exact.Some? then exact else FindWithin(fields, name)
  }

  predicate Spells(name: string, f: Field) { Lower(f.key) == name }

  /** The key, in lower case, stands somewhere in the name. */
  ghost predicate Holds(name: string, f: Field) {
    exists i: nat :: StandsIn(name, Lower(f.key), i)
  }

  predicate StandsIn(name: string, key: string, i: nat) {
    i + |key| <= |name| && name[i..i + |key|] == key
  }

  function IsLetter(): char -> bool {
    (c: char) => 'a' <= c <= 'z'
  }

  lemma {:induction false} LettersKeeps(s: string)
    ensures Kept(s, IsLetter(), Letters(s))
  {
    if s != "" {
      LettersKeeps(s[1..]);
      KeptCons(s, IsLetter(), Letters(s[1..]));
    }
  }

  lemma {:induction false} IncludesIff(name: string, key: string)
    ensures Includes(name, key) <==> exists i: nat :: StandsIn(name, key, i)
  {
    if key <= name {
      assert StandsIn(name, key, 0);
    } else if name != "" {
      IncludesIff(name[1..], key);
      if i: nat :| StandsIn(name[1..], key, i) {
        assert name[i + 1..i + 1 + |key|] == name[1..][i..i + |key|];
        assert StandsIn(name, key, i + 1);
      }
      if i: nat :| StandsIn(name, key, i) {
        assert name[i..][..|key|] == key;
        assert name[1..][i - 1..i - 1 + |key|] == name[i..i + |key|];
        assert StandsIn(name[1..], key, i - 1);
      }
    }
  }

  /** Field `k` is the first that the name spells. */
  predicate FirstSpelled(fields: seq<Field>, name: string, k: int) {
    0 <= k < |fields| && Spells(name, fields[k]) && forall j :: 0 <= j < k ==> !Spells(name, fields[j])
  }

  /** Field `k` is the first that the name contains. */
  ghost predicate FirstHeld(fields: seq<Field>, name: string, k: int) {
    0 <= k < |fields| && Holds(name, fields[k]) && forall j :: 0 <= j < k ==> !Holds(name, fields[j])
  }

  lemma {:induction false} FindExactFirst(fields: seq<Field>, name: string) returns (k: int)
    ensures if FindExact(fields, name).Some?
      then FirstSpelled(fields, name, k) && fields[k].key == FindExact(fields, name).value
      else forall f :: f in fields ==> !Spells(name, f)
  {
    k := 0;
    if fields != [] && !Spells(name, fields[0]) {
      var rest := FindExactFirst(fields[1..], name);
      k := rest + 1;
      assert fields == [fields[0]] + fields[1..];
    }
  }

  lemma {:induction false} FindWithinFirst(fields: seq<Field>, name: string) returns (k: int)
    ensures if FindWithin(fields, name).Some?
      then FirstHeld(fields, name, k) && fields[k].key == FindWithin(fields, name).value
      else forall f :: f in fields ==> !Holds(name, f)
  {
    k := 0;
    if fields != [] {
      IncludesIff(name, Lower(fields[0].key));
    }
    hide Holds, Includes;
    if fields != [] && !Includes(name, Lower(fields[0].key)) {
      var rest := FindWithinFirst(fields[1..], name);
      k := rest + 1;
      assert fields == [fields[0]] + fields[1..];
    }
  }

  /** Field `k` is what a column with these letters wants: the first it spells; if none, the first it contains. */
  ghost predicate Chosen(fields: seq<Field>, name: string, k: int) {
    || FirstSpelled(fields, name, k)
    || ((forall f :: f in fields ==> !Spells(name, f)) && FirstHeld(fields, name, k))
  }

  /** A column wants the first field whose key its letters spell, if there is one; else the first whose key they
      contain; else none. Its letters are those of its name in lower case, in order. */
  lemma CandidateIff(fields: seq<Field>, column: string, name: string)
    requires Kept(Lower(column), IsLetter(), name)
    ensures var c := Candidate(fields, column);
      && (c.None? <==> forall f :: f in fields ==> !Spells(name, f) && !Holds(name, f))
      && (c.Some? ==> exists k :: Chosen(fields, name, k) && fields[k].key == c.value)
  {
    LettersKeeps(Lower(column));
    KeptIsUnique(Lower(column), IsLetter(), name, Letters(Lower(column)));
    hide Letters, Lower, Includes, FindExact, FindWithin, Spells, Holds, Kept;
    var a := FindExactFirst(fields, name);
    var b := FindWithinFirst(fields, name);
    if FindExact(fields, name).Some? {
      assert Chosen(fields, name, a) && Spells(name, fields[a]) && fields[a] in fields;
    } else if FindWithin(fields, name).Some? {
      assert Chosen(fields, name, b) && Holds(name, fields[b]) && fields[b] in fields;
    }
  }

  function Candidates(fields: seq<Field>, columns: seq<string>): (wishes: seq<Option<string>>)
    ensures |wishes| == |columns|
  {
    if columns == [] then [] else [Candidate(fields, columns[0])] + Candidates(fields, columns[1..])
  }

  lemma {:induction false} CandidateAt(fields: seq<Field>, columns: seq<string>, i: nat)
    requires i < |columns|
    ensures Candidates(fields, columns)[i] == Candidate(fields, columns[i])
  {
    if i > 0 {
      CandidateAt(fields, columns[1..], i - 1);
    }
  }

  /** Column `i` is the first of the first `n` that wants field `key`. */
  predicate FirstWish(wishes: seq<Option<string>>, n: nat, i: int, key: string)
    requires n <= |wishes|
  {
    0 <= i < n && wishes[i] == Some(key) && forall j :: 0 <= j < i ==> wishes[j] != Some(key)
  }

  /** The mapping of the first `n` columns: each field goes to the first column that wants it. */
  ghost predicate Maps(columns: seq<string>, wishes: seq<Option<string>>, n: nat, auto: map<string, string>)
    requires n <= |columns| == |wishes|
  {
    && (forall c :: c in auto ==> exists i :: FirstWish(wishes, n, i, auto[c]) && columns[i] == c)
    && (forall i, key :: FirstWish(wishes, n, i, key) ==> columns[i] in auto && auto[columns[i]] == key)
  }

  /** Equal names have equal wishes. */
  predicate Uniform(columns: seq<string>, wishes: seq<Option<string>>)
    requires |columns| == |wishes|
  {
    forall i, j :: 0 <= i < |columns| && 0 <= j < |columns| && columns[i] == columns[j] ==> wishes[i] == wishes[j]
  }

  predicate Taken(auto: map<string, string>, key: string) {
    exists c :: c in auto && auto[c] == key
  }

  lemma TakenIffWished(columns: seq<string>, wishes: seq<Option<string>>, n: nat, auto: map<string, string>,
                       key: string)
    requires n <= |columns| == |wishes| && Maps(columns, wishes, n, auto)
    ensures Taken(auto, key) <==> exists i :: 0 <= i < n && wishes[i] == Some(key)
  {
    if i :| 0 <= i < n && wishes[i] == Some(key) {
      var f := FirstIndex(wishes, n, i, key);
      assert FirstWish(wishes, n, f, key);
    }
    if Taken(auto, key) {
      var c :| c in auto && auto[c] == key;
      var i :| FirstWish(wishes, n, i, auto[c]) && columns[i] == c;
      assert wishes[i] == Some(key);
    }
  }

  lemma {:induction false} FirstIndex(wishes: seq<Option<string>>, n: nat, i: nat, key: string) returns (f: nat)
    requires i < n <= |wishes| && wishes[i] == Some(key)
    ensures FirstWish(wishes, n, f, key)
    decreases i
  {
    if j :| 0 <= j < i && wishes[j] == Some(key) {
      f := FirstIndex(wishes, n, j, key);
    } else {
      f := i;
    }
  }

  lemma NextColumn(columns: seq<string>, wishes: seq<Option<string>>, n: nat, auto: map<string, string>,
                   auto': map<string, string>)
    requires n < |columns| == |wishes| && Uniform(columns, wishes) && Maps(columns, wishes, n, auto)
    requires auto' ==
      if wishes[n].Some? && !Taken(auto, wishes[n].value) then auto[columns[n] := wishes[n].value] else auto
    ensures Maps(columns, wishes, n + 1, auto')
  {
    if wishes[n].Some? {
      TakenIffWished(columns, wishes, n, auto, wishes[n].value);
    }
    var m := n + 1;
    forall i, key | FirstWish(wishes, m, i, key) ensures columns[i] in auto' && auto'[columns[i]] == key {
      if i < n {
        assert FirstWish(wishes, n, i, key);
      }
    }
    forall c | c in auto' ensures exists i :: FirstWish(wishes, m, i, auto'[c]) && columns[i] == c {
      if c == columns[n] && auto' != auto {
        assert FirstWish(wishes, m, n, auto'[c]);
      } else {
        var i :| FirstWish(wishes, n, i, auto[c]) && columns[i] == c;
        assert FirstWish(wishes, m, i, auto'[c]);
      }
    }
  }

  method AutoMap(fields: seq<Field>, columns: seq<string>) returns (auto: map<string, string>)
    ensures Maps(columns, Candidates(fields, columns), |columns|, auto)
  {
    ghost var wishes := Candidates(fields, columns);
    CandidatesAreUniform(fields, columns);
    auto := map[];
    for n := 0 to |columns|
      invariant Maps(columns, wishes, n, auto)
    {
      ghost var before := auto;
      var field := Candidate(fields, columns[n]);
      CandidateAt(fields, columns, n);
      if field.Some? && field.value !in auto.Values {
        auto := auto[columns[n] := field.value];
      }
      NextColumn(columns, wishes, n, before, auto);
    }
  }

  lemma CandidatesAreUniform(fields: seq<Field>, columns: seq<string>)
    ensures Uniform(columns, Candidates(fields, columns))
  {
    forall i | 0 <= i < |columns| ensures Candidates(fields, columns)[i] == Candidate(fields, columns[i]) {
      CandidateAt(fields, columns, i);
    }
  }

  // ---------------------------------------------------------------- what a mapping means

  /** No field is given to two columns. */
  lemma MappingIsInjective(columns: seq<string>, wishes: seq<Option<string>>, auto: map<string, string>, a: string,
                           b: string)
    requires |columns| == |wishes| && Maps(columns, wishes, |columns|, auto)
    requires a in auto && b in auto && auto[a] == auto[b]
    ensures a == b
  {
    var i :| FirstWish(wishes, |columns|, i, auto[a]) && columns[i] == a;
    var j :| FirstWish(wishes, |columns|, j, auto[b]) && columns[j] == b;
    assert i == j;
  }

  /** A column stays unmapped only if it wants nothing or an earlier column of another name got what it wants. */
  lemma UnmappedIff(columns: seq<string>, wishes: seq<Option<string>>, auto: map<string, string>, i: nat)
    requires i < |columns| == |wishes| && Uniform(columns, wishes) && Maps(columns, wishes, |columns|, auto)
    ensures columns[i] !in auto <==>
      wishes[i].None? || exists j :: 0 <= j < i && columns[j] != columns[i]
                                     && FirstWish(wishes, |columns|, j, wishes[i].value)
  {
    if wishes[i].Some? {
      var f := FirstIndex(wishes, |columns|, i, wishes[i].value);
      if columns[f] == columns[i] {
        forall j | FirstWish(wishes, |columns|, j, wishes[i].value) ensures j == f {
        }
      }
      if columns[i] in auto {
        var k :| FirstWish(wishes, |columns|, k, auto[columns[i]]) && columns[k] == columns[i];
        assert wishes[k] == wishes[i];
      }
    }
  }

  function MissingRequired(fields: seq<Field>, auto: map<string, string>): seq<Field> {
    if fields == [] then []
    else (if fields[0].required && fields[0].key !in auto.Values then [fields[0]] else [])
         + MissingRequired(fields[1..], auto)
  }

  lemma {:induction false} MissingMembers(fields: seq<Field>, auto: map<string, string>, f: Field)
    ensures f in MissingRequired(fields, auto) <==> f in fields && f.required && f.key !in auto.Values
  {
    if fields != [] {
      MissingMembers(fields[1..], auto, f);
      assert fields == [fields[0]] + fields[1..];
    }
  }

  /** A required field is reported missing exactly when no column wants it: being greedy loses no field. */
  lemma MissingIff(fields: seq<Field>, columns: seq<string>, wishes: seq<Option<string>>, auto: map<string, string>,
                   f: Field)
    requires |columns| == |wishes| && Maps(columns, wishes, |columns|, auto) && f in fields && f.required
    ensures f in MissingRequired(fields, auto) <==> Some(f.key) !in wishes
  {
    MissingMembers(fields, auto, f);
    TakenIffWished(columns, wishes, |columns|, auto, f.key);
    assert f.key in auto.Values <==> Taken(auto, f.key);
  }
}
