/** Syncing role permissions from code to the database: the seed in two modes, and the grant script. */
module RoleSync {
  import opened Basics
  import opened Lists

  datatype Definition = Definition(key: string, permissions: seq<string>)

  type Rows = set<(string, string)>

  function Held(rows: Rows, role: string): set<string> {
    set r | r in rows && r.0 == role :: r.1
  }

  function Grants(role: string, permissions: seq<string>): Rows {
    set p | p in permissions :: (role, p)
  }

  datatype Outcome = Outcome(rows: Rows, ok: bool)

  /** Creating a row that exists violates the table's unique constraint. `have` is read once, before the loop. */
  function CreateMissing(rows: Rows, role: string, permissions: seq<string>, have: set<string>): Outcome
    decreases |permissions|
  {
    if permissions == [] then Outcome(rows, true)
    else if permissions[0] in have then CreateMissing(rows, role, permissions[1..], have)
    else if (role, permissions[0]) in rows then Outcome(rows, false)
    else CreateMissing(rows + {(role, permissions[0])}, role, permissions[1..], have)
  }

  /** One definition of the seed. */
  function Extra(d: Definition, have: set<string>): Rows {
    set p | p in have && p !in d.permissions :: (d.key, p)
  }

  function SyncOne(rows: Rows, d: Definition, exact: bool): Outcome {
    var have := Held(rows, d.key);
    var o := CreateMissing(rows, d.key, d.permissions, have);
    if o.ok && exact then o.(rows := o.rows - Extra(d, have)) else o
  }

  function Sync(rows: Rows, ds: seq<Definition>, exact: bool): Outcome
    decreases |ds|
  {
    if ds == [] then Outcome(rows, true)
    else
      var o := SyncOne(rows, ds[0], exact);
      if o.ok then Sync(o.rows, ds[1..], exact) else o
  }

  /** The grant script skips roles that do not exist. */
  function Grant(roles: set<string>, rows: Rows, ds: seq<Definition>): Outcome
    decreases |ds|
  {
    if ds == [] then Outcome(rows, true)
    else if ds[0].key !in roles then Grant(roles, rows, ds[1..])
    else
      var o := CreateMissing(rows, ds[0].key, ds[0].permissions, Held(rows, ds[0].key));
      if o.ok then Grant(roles, o.rows, ds[1..]) else o
  }

  // ---------------------------------------------------------------- the scripts

  class Database {
    var roles: set<string>
    var rows: Rows

    method CreateAll(role: string, permissions: seq<string>, have: set<string>) returns (ok: bool, created: nat)
      modifies `rows
      ensures Outcome(rows, ok) == CreateMissing(old(rows), role, permissions, have)
      ensures ok ==> created == |rows| - |old(rows)|
    {
      ok, created := true, 0;
      for i := 0 to |permissions|
        invariant ok && created == |rows| - |old(rows)|
        invariant CreateMissing(rows, role, permissions[i..], have) == CreateMissing(old(rows), role, permissions, have)
      {
        var permission := permissions[i];
        if permission !in have {
          if (role, permission) in rows {
            ok := false;
            return;
          }
          rows := rows + {(role, permission)};
          created := created + 1;
        }
      }
    }

    /** Deletes the held permissions the definition does not list. */
    method RemoveExtra(d: Definition, have: set<string>)
      modifies `rows
      ensures rows == old(rows) - Extra(d, have)
    {
      var todo := have;
      while todo != {}
        invariant todo <= have
        invariant rows == old(rows) - Extra(d, have - todo)
        decreases todo
      {
        var p :| p in todo;
        if p !in d.permissions {
          rows := rows - {(d.key, p)};
        }
        todo := todo - {p};
      }
    }

    method SeedRole(d: Definition, exact: bool) returns (ok: bool)
      modifies this
      ensures Outcome(rows, ok) == SyncOne(old(rows), d, exact)
      ensures roles == old(roles) + {d.key}
    {
      roles := roles + {d.key};
      var have := Held(rows, d.key);
      var created;
      ok, created := CreateAll(d.key, d.permissions, have);
      if ok && exact {
        RemoveExtra(d, have);
      }
    }

    method SeedRoles(ds: seq<Definition>, exact: bool) returns (ok: bool)
      modifies this
      ensures Outcome(rows, ok) == Sync(old(rows), ds, exact)
      ensures ok ==> roles == old(roles) + set d | d in ds :: d.key
    {
      ok := true;
      for i := 0 to |ds|
        invariant ok && Sync(rows, ds[i..], exact) == Sync(old(rows), ds, exact)
        invariant roles == old(roles) + set d | d in ds[..i] :: d.key
      {
        ok := SeedRole(ds[i], exact);
        if !ok {
          return;
        }
        assert ds[i..][1..] == ds[i + 1..];
        assert ds[..i + 1] == ds[..i] + [ds[i]];
      }
      assert ds[..|ds|] == ds;
    }

    method GrantNewPermissions(ds: seq<Definition>) returns (ok: bool, granted: nat)
      modifies `rows
      ensures Outcome(rows, ok) == Grant(roles, old(rows), ds)
      ensures ok ==> granted == |rows| - |old(rows)|
    {
      granted := 0;
      for i := 0 to |ds|
        invariant Grant(roles, rows, ds[i..]) == Grant(roles, old(rows), ds)
        invariant granted == |rows| - |old(rows)|
      {
        var d := ds[i];
        if d.key in roles {
          var created;
          ok, created := CreateAll(d.key, d.permissions, Held(rows, d.key));
          if !ok {
            return;
          }
          granted := granted + created;
        }
      }
      ok := true;
    }
  }

  // ---------------------------------------------------------------- one definition

  /** No permission the role lacks is listed twice. */
  predicate Creatable(permissions: seq<string>, have: set<string>) {
    forall i, j :: 0 <= i < j < |permissions| && permissions[i] == permissions[j] ==> permissions[i] in have
  }

  /** The create loop succeeds exactly then, and adds exactly the definition's grants. */
  lemma {:induction false} CreateMissingSpec(rows: Rows, role: string, permissions: seq<string>, have: set<string>)
    requires have <= Held(rows, role)
    ensures var o := CreateMissing(rows, role, permissions, have);
      && (o.ok <==> Creatable(permissions, have) && forall p :: p in permissions && (role, p) in rows ==> p in have)
      && (o.ok ==> o.rows == rows + Grants(role, permissions))
    decreases |permissions|
  {
    if permissions != [] {
      var p, rest := permissions[0], permissions[1..];
      assert permissions == [p] + rest;
      if p in have {
        CreateMissingSpec(rows, role, rest, have);
        assert (role, p) in rows;
        assert Creatable(permissions, have) <==> Creatable(rest, have);
      } else if (role, p) !in rows {
        CreateMissingSpec(rows + {(role, p)}, role, rest, have);
        assert Creatable(permissions, have) <==> Creatable(rest, have) && p !in rest;
      }
    }
  }

  /** A create loop that fails has added the grants before the first one that is there already. */
  lemma {:induction false} CreateMissingStops(rows: Rows, role: string, permissions: seq<string>, have: set<string>)
    returns (k: nat)
    requires have <= Held(rows, role) && !CreateMissing(rows, role, permissions, have).ok
    ensures k < |permissions| && permissions[k] !in have
    ensures var created := rows + Grants(role, permissions[..k]);
      (role, permissions[k]) in created && CreateMissing(rows, role, permissions, have).rows == created
    decreases |permissions|
  {
    var p, rest := permissions[0], permissions[1..];
    if p in have {
      k := CreateMissingStops(rows, role, rest, have);
      GrantsCons(rows, role, p, rest[..k]);
      k := k + 1;
      assert permissions[..k] == [p] + rest[..k - 1];
      assert (role, p) in rows;
    } else if (role, p) in rows {
      k := 0;
    } else {
      k := CreateMissingStops(rows + {(role, p)}, role, rest, have);
      GrantsCons(rows, role, p, rest[..k]);
      k := k + 1;
      assert permissions[..k] == [p] + rest[..k - 1];
    }
  }

  lemma GrantsCons(rows: Rows, role: string, p: string, rest: seq<string>)
    ensures rows + Grants(role, [p] + rest) == rows + {(role, p)} + Grants(role, rest)
  {
  }

  /** A definition syncs if and only if it repeats no permission its role lacks; then the role holds the union
      of old and defined permissions, or exactly the defined ones, and other roles are untouched. */
  lemma SyncOneSpec(rows: Rows, d: Definition, exact: bool)
    ensures var o := SyncOne(rows, d, exact);
      && (o.ok <==> Creatable(d.permissions, Held(rows, d.key)))
      && (o.ok ==> forall r ::
            r in o.rows <==> if r.0 == d.key then r.1 in d.permissions || (!exact && r in rows) else r in rows)
  {
    var have := Held(rows, d.key);
    CreateMissingSpec(rows, d.key, d.permissions, have);
    forall p | p in d.permissions && (d.key, p) in rows ensures p in have {
    }
  }

  // ---------------------------------------------------------------- whole scripts

  predicate DistinctKeys(ds: seq<Definition>) {
    forall i, j :: 0 <= i < j < |ds| ==> ds[i].key != ds[j].key
  }

  /** What a row set should become, row by row. */
  predicate Target(rows: Rows, ds: seq<Definition>, exact: bool, r: (string, string)) {
    if exists i :: 0 <= i < |ds| && ds[i].key == r.0
    then (exists i :: 0 <= i < |ds| && ds[i].key == r.0 && r.1 in ds[i].permissions) || (!exact && r in rows)
    else r in rows
  }

  predicate AllCreatable(rows: Rows, ds: seq<Definition>) {
    forall i :: 0 <= i < |ds| ==> Creatable(ds[i].permissions, Held(rows, ds[i].key))
  }

  /** Syncing one role leaves what the others hold. */
  lemma OthersUntouched(rows: Rows, d: Definition, exact: bool, role: string)
    requires SyncOne(rows, d, exact).ok && role != d.key
    ensures Held(SyncOne(rows, d, exact).rows, role) == Held(rows, role)
  {
    SyncOneSpec(rows, d, exact);
    var after := SyncOne(rows, d, exact).rows;
    forall p ensures p in Held(after, role) <==> p in Held(rows, role) {
      assert (role, p) in after <==> (role, p) in rows;
    }
  }

  lemma {:induction false} TargetCons(rows: Rows, mid: Rows, ds: seq<Definition>, exact: bool, r: (string, string))
    requires ds != [] && DistinctKeys(ds)
    requires r in mid <==> if r.0 == ds[0].key then r.1 in ds[0].permissions || (!exact && r in rows) else r in rows
    ensures Target(mid, ds[1..], exact, r) <==> Target(rows, ds, exact, r)
  {
    var rest := ds[1..];
    assert forall i :: 0 <= i < |rest| ==> rest[i] == ds[i + 1];
    assert forall i :: 1 <= i < |ds| ==> ds[i] == rest[i - 1];
  }

  /**
   * The seed succeeds exactly when no definition repeats a permission its role lacks, and then every row is
   * as its mode promises: the defined set for the defined roles, or the union with what was there.
   */
  lemma {:induction false} SyncSpec(rows: Rows, ds: seq<Definition>, exact: bool)
    requires DistinctKeys(ds)
    ensures var o := Sync(rows, ds, exact);
      && (o.ok <==> AllCreatable(rows, ds))
      && (o.ok ==> forall r :: r in o.rows <==> Target(rows, ds, exact, r))
    decreases |ds|
  {
    if ds != [] {
      var d, rest, one := ds[0], ds[1..], SyncOne(rows, ds[0], exact);
      SyncOneSpec(rows, d, exact);
      if one.ok {
        SyncSpec(one.rows, rest, exact);
        forall i | 0 <= i < |rest| ensures Held(one.rows, rest[i].key) == Held(rows, rest[i].key) {
          assert rest[i] == ds[i + 1];
          OthersUntouched(rows, d, exact, rest[i].key);
        }
        assert AllCreatable(rows, ds) <==> AllCreatable(one.rows, rest) by {
          assert forall i :: 1 <= i < |ds| ==> ds[i] == rest[i - 1];
        }
        forall r ensures Target(one.rows, rest, exact, r) <==> Target(rows, ds, exact, r) {
          TargetCons(rows, one.rows, ds, exact, r);
        }
      }
    }
  }

  /** A seed that fails has synced the definitions before the failing one, and left that one where it failed. */
  lemma {:induction false} SyncStops(rows: Rows, ds: seq<Definition>, exact: bool) returns (i: nat)
    requires !Sync(rows, ds, exact).ok
    ensures i < |ds| && Sync(rows, ds[..i], exact).ok
    ensures var reached := Sync(rows, ds[..i], exact).rows;
      && !Creatable(ds[i].permissions, Held(reached, ds[i].key))
      && Sync(rows, ds, exact) == CreateMissing(reached, ds[i].key, ds[i].permissions, Held(reached, ds[i].key))
    decreases |ds|
  {
    SyncOneSpec(rows, ds[0], exact);
    var one := SyncOne(rows, ds[0], exact);
    if one.ok {
      var j := SyncStops(one.rows, ds[1..], exact);
      i := j + 1;
      assert ds[..i][0] == ds[0] && ds[..i][1..] == ds[1..][..j];
    } else {
      i := 0;
    }
  }

  lemma SameRows(a: Rows, b: Rows)
    requires forall r :: r in a <==> r in b
    ensures a == b
  {
  }

  /** Once every defined permission is held, any definition list can be synced. */
  lemma SyncedIsCreatable(rows: Rows, ds: seq<Definition>, exact: bool)
    requires DistinctKeys(ds) && Sync(rows, ds, exact).ok
    ensures AllCreatable(Sync(rows, ds, exact).rows, ds)
  {
    SyncSpec(rows, ds, exact);
    var after := Sync(rows, ds, exact).rows;
    forall i, p | 0 <= i < |ds| && p in ds[i].permissions ensures p in Held(after, ds[i].key) {
      assert Target(rows, ds, exact, (ds[i].key, p));
      assert (ds[i].key, p) in after;
    }
  }

  /** Running any mode after any mode: additive then exact is exact, and each mode repeated changes nothing. */
  lemma SyncTwice(rows: Rows, ds: seq<Definition>, first: bool, second: bool)
    requires DistinctKeys(ds) && Sync(rows, ds, first).ok
    ensures var again := Sync(Sync(rows, ds, first).rows, ds, second);
      again.ok && again.rows == Sync(rows, ds, first || second).rows
  {
    var once := Sync(rows, ds, first).rows;
    SyncSpec(rows, ds, first);
    SyncSpec(rows, ds, first || second);
    SyncedIsCreatable(rows, ds, first);
    SyncSpec(once, ds, second);
    forall r ensures Target(once, ds, second, r) <==> Target(rows, ds, first || second, r) {
      assert r in once <==> Target(rows, ds, first, r);
    }
    SameRows(Sync(once, ds, second).rows, Sync(rows, ds, first || second).rows);
  }

  /** The additive mode removes nothing. */
  lemma AdditiveKeeps(rows: Rows, ds: seq<Definition>)
    requires DistinctKeys(ds) && Sync(rows, ds, false).ok
    ensures rows <= Sync(rows, ds, false).rows
  {
    SyncSpec(rows, ds, false);
    forall r | r in rows ensures r in Sync(rows, ds, false).rows {
      assert Target(rows, ds, false, r);
    }
  }

  function Existing(roles: set<string>, ds: seq<Definition>): seq<Definition> {
    if ds == [] then [] else (if ds[0].key in roles then [ds[0]] else []) + Existing(roles, ds[1..])
  }

  function HasRole(roles: set<string>): Definition -> bool {
    (d: Definition) => d.key in roles
  }

  lemma {:induction false} ExistingKeeps(roles: set<string>, ds: seq<Definition>)
    ensures Kept(ds, HasRole(roles), Existing(roles, ds))
  {
    if ds != [] {
      ExistingKeeps(roles, ds[1..]);
      KeptCons(ds, HasRole(roles), Existing(roles, ds[1..]));
    }
  }

  /** The grant script does what the additive seed does for the roles that exist; all of them, if all exist. */
  lemma GrantIsAdditive(roles: set<string>, rows: Rows, ds: seq<Definition>, existing: seq<Definition>)
    requires Kept(ds, HasRole(roles), existing)
    ensures Grant(roles, rows, ds) == Sync(rows, existing, false)
    ensures (forall d :: d in ds ==> d.key in roles) ==> Grant(roles, rows, ds) == Sync(rows, ds, false)
  {
    ExistingKeeps(roles, ds);
    KeptIsUnique(ds, HasRole(roles), existing, Existing(roles, ds));
    GrantIsSync(roles, rows, ds);
  }

  lemma {:induction false} GrantIsSync(roles: set<string>, rows: Rows, ds: seq<Definition>)
    ensures Grant(roles, rows, ds) == Sync(rows, Existing(roles, ds), false)
    ensures (forall d :: d in ds ==> d.key in roles) ==> Grant(roles, rows, ds) == Sync(rows, ds, false)
    decreases |ds|
  {
    if ds != [] {
      var rest := ds[1..];
      assert ds[0] in ds && forall d :: d in rest ==> d in ds;
      if ds[0].key in roles {
        assert Existing(roles, ds)[1..] == Existing(roles, rest);
        GrantIsSync(roles, SyncOne(rows, ds[0], false).rows, rest);
      } else {
        assert Existing(roles, ds) == Existing(roles, rest);
        GrantIsSync(roles, rows, rest);
      }
    }
  }

  // ---------------------------------------------------------------- the administrator's definition

  function But(permissions: seq<string>, dropped: string): seq<string> {
    if permissions == [] then []
    else (if permissions[0] == dropped then [] else [permissions[0]]) + But(permissions[1..], dropped)
  }

  /** ADMIN: the console permission, then the whole catalogue but one. */
  function AdminDefinition(catalogue: seq<string>): Definition {
    Definition("ADMIN", ["ADMIN_ACCESS"] + But(catalogue, "ROLES_MANAGE"))
  }

  lemma {:induction false} ButFacts(permissions: seq<string>, dropped: string)
    ensures forall p :: p in But(permissions, dropped) <==> p in permissions && p != dropped
    ensures NoRepeats(permissions) ==> NoRepeats(But(permissions, dropped))
  {
    if permissions != [] {
      var p, rest, kept := permissions[0], permissions[1..], But(permissions[1..], dropped);
      ButFacts(rest, dropped);
      assert permissions == [p] + rest;
      if NoRepeats(permissions) {
        forall j | 0 <= j < |kept| ensures kept[j] != p {
          assert kept[j] in rest;
        }
      }
    }
  }

  function NotNamed(dropped: string): string -> bool {
    (p: string) => p != dropped
  }

  lemma {:induction false} ButKeeps(permissions: seq<string>, dropped: string)
    ensures Kept(permissions, NotNamed(dropped), But(permissions, dropped))
  {
    if permissions != [] {
      ButKeeps(permissions[1..], dropped);
      KeptCons(permissions, NotNamed(dropped), But(permissions[1..], dropped));
    }
  }

  /** ADMIN lists the console permission, and then the catalogue in order without the management of roles. */
  lemma AdminDefinitionIs(catalogue: seq<string>, rest: seq<string>)
    requires Kept(catalogue, NotNamed("ROLES_MANAGE"), rest)
    ensures AdminDefinition(catalogue) == Definition("ADMIN", ["ADMIN_ACCESS"] + rest)
  {
    ButKeeps(catalogue, "ROLES_MANAGE");
    KeptIsUnique(catalogue, NotNamed("ROLES_MANAGE"), rest, But(catalogue, "ROLES_MANAGE"));
  }

  /** The catalogue already lists the console permission, so ADMIN syncs exactly on databases that hold it. */
  lemma AdminSyncsIff(rows: Rows, catalogue: seq<string>, exact: bool)
    requires NoRepeats(catalogue) && "ADMIN_ACCESS" in catalogue
    ensures SyncOne(rows, AdminDefinition(catalogue), exact).ok <==> ("ADMIN", "ADMIN_ACCESS") in rows
  {
    var tail := But(catalogue, "ROLES_MANAGE");
    var d := AdminDefinition(catalogue);
    ButFacts(catalogue, "ROLES_MANAGE");
    SyncOneSpec(rows, d, exact);
    assert "ADMIN_ACCESS" in tail;
    var k :| 0 <= k < |tail| && tail[k] == "ADMIN_ACCESS";
    assert d.permissions[0] == d.permissions[k + 1] == "ADMIN_ACCESS";
    assert ("ADMIN", "ADMIN_ACCESS") in rows <==> "ADMIN_ACCESS" in Held(rows, "ADMIN");
    assert forall i :: 0 < i < |d.permissions| ==> d.permissions[i] == tail[i - 1];
  }
}
