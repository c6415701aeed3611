/**
  The migration-branch merge, scripts/rechain_w44_migrations.py: `diff_snap` and `apply` as a
  patch algebra over table -> column maps, folded along an interleaving of branches that share
  one base, then the snapshot chain, the union check and the journal.
 */
module Rechain {
  import opened Common

  type Columns = map<string, string>

  /** A table definition: its columns and everything else about it. */
  datatype Table = Table(columns: Columns, rest: string)

  type Tables = map<string, Table>

  /** What `diff_snap` returns: added tables, and added columns of tables already there. */
  datatype Patch = Patch(tables: Tables, cols: map<string, Columns>)

  // ---------------------------------------------------------------- diff and apply

  function NewColumns(newer: Table, older: Table): Columns {
    map c | c in newer.columns && c !in older.columns :: newer.columns[c]
  }

  predicate AddsColumns(newer: Table, older: Table) {
    exists c :: c in newer.columns && c !in older.columns
  }

  function DiffSnap(newer: Tables, older: Tables): Patch {
    Patch(map t | t in newer && t !in older :: newer[t],
          map t | t in newer && t in older && AddsColumns(newer[t], older[t]) :: NewColumns(newer[t], older[t]))
  }

  /** Table t once the added tables are in. */
  function Target(base: Tables, p: Patch, t: string): Table
    requires t in base || t in p.tables
  {
    if t in p.tables then p.tables[t] else base[t]
  }

  predicate ColumnsFit(base: Tables, p: Patch, t: string)
    requires t in p.cols
  {
    (t in base || t in p.tables) && forall c :: c in p.cols[t] ==> c !in Target(base, p, t).columns
  }

  /** No assertion of `apply` fails and every column has a table to go to. */
  predicate Applicable(base: Tables, p: Patch) {
    && (forall t :: t in p.tables ==> t !in base)
    && (forall t :: t in p.cols ==> ColumnsFit(base, p, t))
  }

  function Patched(base: Tables, p: Patch, t: string): Table
    requires t in base || t in p.tables
  {
    var target := Target(base, p, t);
    if t in p.cols then target.(columns := target.columns + p.cols[t]) else target
  }

  function Apply(base: Tables, p: Patch): Tables {
    map t | t in base.Keys + p.tables.Keys :: Patched(base, p, t)
  }

  /** The two dictionary loops of `diff_snap`, in any order of the keys. */
  method DiffSnapLoop(newer: Tables, older: Tables) returns (p: Patch)
    ensures p == DiffSnap(newer, older)
  {
    var tables: Tables := map t | t in newer && t !in older :: newer[t];
    var cols: map<string, Columns> := map[];
    var todo := newer.Keys;
    while todo != {}
      invariant todo <= newer.Keys
      invariant forall t :: t in cols <==> t in newer.Keys - todo && t in older && AddsColumns(newer[t], older[t])
      invariant forall t :: t in cols ==> cols[t] == NewColumns(newer[t], older[t])
      decreases |todo|
    {
      var t :| t in todo;
      todo := todo - {t};
      if t in older && AddsColumns(newer[t], older[t]) {
        cols := cols[t := map c | c in newer[t].columns && c !in older[t].columns :: newer[t].columns[c]];
      }
    }
    p := Patch(tables, cols);
    assert cols == DiffSnap(newer, older).cols;
  }

  lemma EqualOnKeys<V>(a: map<string, V>, b: map<string, V>)
    requires (forall k :: k in a <==> k in b) && forall k :: k in a ==> a[k] == b[k]
    ensures a == b
  {
  }

  /** s is base with the entries of added outside todo, none of which was there before. */
  predicate AddedSoFar<V(==)>(base: map<string, V>, added: map<string, V>, todo: set<string>, s: map<string, V>) {
    && (forall k :: k in base ==> k in s && s[k] == base[k])
    && (forall k :: k in added && k !in todo ==> k in s && s[k] == added[k] && k !in base)
    && (forall k :: k in s ==> k in base || (k in added && k !in todo))
  }

  lemma AddOne<V>(base: map<string, V>, added: map<string, V>, todo: set<string>, s: map<string, V>, k: string)
    requires AddedSoFar(base, added, todo, s) && k in todo && k in added
    ensures k in s <==> k in base
    ensures k !in s ==> AddedSoFar(base, added, todo - {k}, s[k := added[k]])
  {
  }

  /** Adding entries one by one under `assert k not in s`; None when an assertion fails. */
  method AddAll<V(==)>(base: map<string, V>, added: map<string, V>) returns (r: Option<map<string, V>>)
    ensures r.Some? <==> forall k :: k in added ==> k !in base
    ensures r.Some? ==> r.value == base + added
  {
    var s, todo := base, added.Keys;
    while todo != {}
      invariant todo <= added.Keys && AddedSoFar(base, added, todo, s)
      decreases |todo|
    {
      var k :| k in todo;
      AddOne(base, added, todo, s, k);
      if k in s {
        return None;
      }
      s, todo := s[k := added[k]], todo - {k};
    }
    r := Some(s);
    EqualOnKeys(s, base + added);
  }

  /** `apply` on a copied snapshot; None when an assertion or a lookup fails. */
  method ApplyLoop(base: Tables, p: Patch) returns (r: Option<Tables>)
    ensures r.Some? <==> Applicable(base, p)
    ensures r.Some? ==> r.value == Apply(base, p)
  {
    r := AddAll(base, p.tables);
    if r.Some? {
      assert forall t :: t in p.tables ==> t !in base;
      r := ApplyColumns(base, p, r.value);
    }
  }

  lemma AppliedByTable(base: Tables, p: Patch, s: Tables)
    requires forall t :: t in s <==> t in base || t in p.tables
    requires forall t :: t in s ==> s[t] == Patched(base, p, t)
    ensures s == Apply(base, p)
  {
  }

  /** The second loop of `apply`: s is the copy with the added tables in. */
  method ApplyColumns(base: Tables, p: Patch, withTables: Tables) returns (r: Option<Tables>)
    requires forall t :: t in withTables <==> t in base || t in p.tables
    requires forall t :: t in withTables ==> withTables[t] == Target(base, p, t)
    ensures r.Some? <==> forall t :: t in p.cols ==> ColumnsFit(base, p, t)
    ensures r.Some? ==> r.value == Apply(base, p)
  {
    var s := withTables;
    var todo := p.cols.Keys;
    while todo != {}
      invariant todo <= p.cols.Keys
      invariant forall t :: t in s <==> t in base || t in p.tables
      invariant forall t :: t in s ==> s[t] == if t in todo then Target(base, p, t) else Patched(base, p, t)
      invariant forall t :: t in p.cols && t !in todo ==> ColumnsFit(base, p, t)
      decreases |todo|
    {
      var t :| t in todo;
      if t !in s {
        assert !ColumnsFit(base, p, t);
        return None;
      }
      var columns := AddAll(s[t].columns, p.cols[t]);
      if columns.None? {
        assert !ColumnsFit(base, p, t);
        return None;
      }
      s, todo := s[t := s[t].(columns := columns.value)], todo - {t};
    }
    r := Some(s);
    AppliedByTable(base, p, s);
  }

  // ---------------------------------------------------------------- round trips

  /** b is a with, at most, more columns. */
  predicate Grows(a: Table, b: Table) {
    b.rest == a.rest && forall c :: c in a.columns ==> c in b.columns && b.columns[c] == a.columns[c]
  }

  /** newer keeps every table and column of older as it was. */
  predicate OnlyAdds(older: Tables, newer: Tables) {
    forall t :: t in older ==> t in newer && Grows(older[t], newer[t])
  }

  /** b has at least the columns of a, however they are defined. */
  predicate KeepsColumns(a: Table, b: Table) {
    forall c :: c in a.columns ==> c in b.columns
  }

  /** newer has at least the tables and columns of older; definitions, keys and indexes may differ. */
  predicate KeepsNames(older: Tables, newer: Tables) {
    forall t :: t in older ==> t in newer && KeepsColumns(older[t], newer[t])
  }

  predicate SameNames(x: Tables, y: Tables) {
    KeepsNames(x, y) && KeepsNames(y, x)
  }

  /** Patching never fails on the snapshot the patch was taken from ... */
  lemma DiffApplies(older: Tables, newer: Tables)
    ensures Applicable(older, DiffSnap(newer, older))
  {
  }

  lemma NewColumnsRebuild(a: Table, b: Table)
    requires Grows(a, b)
    ensures a.columns + NewColumns(b, a) == b.columns
  {
  }

  /** ... and it rebuilds the newer snapshot exactly when that one only added to the older. */
  lemma ApplyDiffIffOnlyAdds(older: Tables, newer: Tables)
    ensures Apply(older, DiffSnap(newer, older)) == newer <==> OnlyAdds(older, newer)
  {
    var p := DiffSnap(newer, older);
    if OnlyAdds(older, newer) {
      forall t | t in newer ensures Patched(older, p, t) == newer[t] {
        if t in older {
          NewColumnsRebuild(older[t], newer[t]);
          assert t !in p.cols ==> older[t].columns == newer[t].columns;
        }
      }
      assert Apply(older, p) == newer;
    } else {
      var t :| t in older && !(t in newer && Grows(older[t], newer[t]));
      assert Apply(older, p)[t] == Patched(older, p, t);
      assert Grows(older[t], Patched(older, p, t));
    }
  }

  lemma PatchedRoundTrip(base: Tables, p: Patch, t: string)
    requires Applicable(base, p) && t in base
    requires t in p.cols ==> exists c :: c in p.cols[t]
    ensures AddsColumns(Patched(base, p, t), base[t]) <==> t in p.cols
    ensures t in p.cols ==> NewColumns(Patched(base, p, t), base[t]) == p.cols[t]
  {
    if t in p.cols {
      assert ColumnsFit(base, p, t);
      var c :| c in p.cols[t];
      assert c in Patched(base, p, t).columns && c !in base[t].columns;
    }
  }

  /** The other round trip: diffing after patching gives back the patch. */
  lemma DiffApplyRoundTrip(base: Tables, p: Patch)
    requires Applicable(base, p) && forall t :: t in p.cols ==> t in base && exists c :: c in p.cols[t]
    ensures DiffSnap(Apply(base, p), base) == p
  {
    forall t | t in base
      ensures AddsColumns(Patched(base, p, t), base[t]) <==> t in p.cols
      ensures t in p.cols ==> NewColumns(Patched(base, p, t), base[t]) == p.cols[t]
    {
      PatchedRoundTrip(base, p, t);
    }
    var r := Apply(base, p);
    var d := DiffSnap(r, base);
    assert forall t :: t in base ==> t in r && r[t] == Patched(base, p, t);
    assert forall t :: t in p.tables ==> t !in base && t !in p.cols && r[t] == p.tables[t];
    EqualOnKeys(d.tables, p.tables);
    EqualOnKeys(d.cols, p.cols);
  }

  // ---------------------------------------------------------------- merging branches

  predicate TableFrom(tips: seq<Tables>, t: string) {
    exists b :: 0 <= b < |tips| && t in tips[b]
  }

  predicate ColumnFrom(tips: seq<Tables>, t: string, c: string) {
    exists b :: 0 <= b < |tips| && t in tips[b] && c in tips[b][t].columns
  }

  /** snap holds every table and column of every tip, as that tip has it, and nothing else. */
  predicate IsMerge(snap: Tables, tips: seq<Tables>) {
    && (forall b :: 0 <= b < |tips| ==> OnlyAdds(tips[b], snap))
    && (forall t :: t in snap ==> TableFrom(tips, t))
    && (forall t :: t in snap ==> forall c :: c in snap[t].columns ==> ColumnFrom(tips, t, c))
  }

  /** snap has the tables and columns of the tips and no others. */
  predicate HoldsNames(snap: Tables, tips: seq<Tables>) {
    && (forall b :: 0 <= b < |tips| ==> KeepsNames(tips[b], snap))
    && (forall t :: t in snap ==> TableFrom(tips, t))
    && (forall t :: t in snap ==> forall c :: c in snap[t].columns ==> ColumnFrom(tips, t, c))
  }

  /** What x and y have in common was in base already. */
  predicate ShareOnly(base: Tables, x: Tables, y: Tables) {
    && (forall t :: t in x && t in y ==> t in base)
    && (forall t :: t in x && t in y && t in base ==>
          forall c :: c in x[t].columns && c in y[t].columns ==> c in base[t].columns)
  }

  /** No two branches add the same table, or the same column to the same table. */
  predicate Disjoint(base: Tables, tips: seq<Tables>) {
    forall a, b :: 0 <= a < |tips| && 0 <= b < |tips| && a != b ==> ShareOnly(base, tips[a], tips[b])
  }

  predicate AllFrom(base: Tables, tips: seq<Tables>) {
    forall b :: 0 <= b < |tips| ==> KeepsNames(base, tips[b])
  }

  lemma MergeUnique(x: Tables, y: Tables, tips: seq<Tables>)
    requires IsMerge(x, tips) && IsMerge(y, tips)
    ensures x == y
  {
    forall t | t in x || t in y ensures t in x && t in y && x[t] == y[t] {
      assert TableFrom(tips, t);
      var b :| 0 <= b < |tips| && t in tips[b];
      assert OnlyAdds(tips[b], x) && OnlyAdds(tips[b], y);
      forall c | c in x[t].columns || c in y[t].columns
        ensures c in x[t].columns && c in y[t].columns && x[t].columns[c] == y[t].columns[c]
      {
        assert ColumnFrom(tips, t, c);
        var a :| 0 <= a < |tips| && t in tips[a] && c in tips[a][t].columns;
        assert OnlyAdds(tips[a], x) && OnlyAdds(tips[a], y);
      }
      EqualOnKeys(x[t].columns, y[t].columns);
    }
    EqualOnKeys(x, y);
  }

  lemma OnlyAddsTransitive(x: Tables, y: Tables, z: Tables)
    requires OnlyAdds(x, y) && OnlyAdds(y, z)
    ensures OnlyAdds(x, z)
  {
    forall t | t in x ensures t in z && Grows(x[t], z[t]) {
      assert Grows(x[t], y[t]) && Grows(y[t], z[t]);
    }
  }

  lemma ApplyGrows(snap: Tables, p: Patch)
    requires Applicable(snap, p)
    ensures OnlyAdds(snap, Apply(snap, p))
  {
    forall t | t in snap ensures Grows(snap[t], Apply(snap, p)[t]) {
      assert t in p.cols ==> ColumnsFit(snap, p, t);
      assert Apply(snap, p)[t] == Patched(snap, p, t);
    }
  }

  /** Table t after one merge step of the branch that goes from older to newer. */
  lemma MergedTable(snap: Tables, older: Tables, newer: Tables, t: string)
    requires OnlyAdds(older, snap) && OnlyAdds(older, newer) && Applicable(snap, DiffSnap(newer, older))
    requires t in snap || t in newer
    ensures var r := Apply(snap, DiffSnap(newer, older));
      && t in r
      && (t in newer ==> Grows(newer[t], r[t]))
      && (forall c :: c in r[t].columns ==>
            (t in snap && c in snap[t].columns) || (t in newer && c in newer[t].columns))
  {
    var p := DiffSnap(newer, older);
    assert t in p.cols ==> ColumnsFit(snap, p, t);
    assert Apply(snap, p)[t] == Patched(snap, p, t);
    if t in newer && t in older {
      assert Grows(older[t], snap[t]) && Grows(older[t], newer[t]);
      if t !in p.cols {
        assert forall c :: c in newer[t].columns ==> c in older[t].columns;
      }
    }
  }

  /**
    A merge step passes apply's assertions exactly when it adds nothing another branch has.  Only
    names matter: the step may also change definitions, keys and indexes of what is there.
   */
  lemma StepAppliesIffNew(base: Tables, snap: Tables, tips: seq<Tables>, b: nat, newer: Tables)
    requires b < |tips| && AllFrom(base, tips) && Disjoint(base, tips) && HoldsNames(snap, tips)
    requires KeepsNames(tips[b], newer)
    ensures Applicable(snap, DiffSnap(newer, tips[b])) <==>
      forall a :: 0 <= a < |tips| && a != b ==> ShareOnly(base, tips[a], newer)
  {
    var p := DiffSnap(newer, tips[b]);
    if forall a :: 0 <= a < |tips| && a != b ==> ShareOnly(base, tips[a], newer) {
      forall t | t in p.tables ensures t !in snap {
        NewTableFits(base, snap, tips, b, newer, t);
      }
      forall t | t in p.cols ensures ColumnsFit(snap, p, t) {
        NewColumnsFit(base, snap, tips, b, newer, t);
      }
    }
    if Applicable(snap, p) {
      forall a | 0 <= a < |tips| && a != b ensures ShareOnly(base, tips[a], newer) {
        ApplicableShares(base, snap, tips, b, newer, a);
      }
    }
  }

  lemma NewTableFits(base: Tables, snap: Tables, tips: seq<Tables>, b: nat, newer: Tables, t: string)
    requires b < |tips| && AllFrom(base, tips) && HoldsNames(snap, tips) && t in newer && t !in tips[b]
    requires forall a :: 0 <= a < |tips| && a != b ==> ShareOnly(base, tips[a], newer)
    ensures t !in snap
  {
    assert KeepsNames(base, tips[b]);
    forall a | 0 <= a < |tips| ensures t !in tips[a] {
      assert a != b ==> ShareOnly(base, tips[a], newer);
    }
    assert !TableFrom(tips, t);
  }

  lemma NewColumnsFit(base: Tables, snap: Tables, tips: seq<Tables>, b: nat, newer: Tables, t: string)
    requires b < |tips| && AllFrom(base, tips) && Disjoint(base, tips) && HoldsNames(snap, tips)
    requires forall a :: 0 <= a < |tips| && a != b ==> ShareOnly(base, tips[a], newer)
    requires t in newer && t in tips[b] && AddsColumns(newer[t], tips[b][t])
    ensures ColumnsFit(snap, DiffSnap(newer, tips[b]), t)
  {
    assert KeepsNames(tips[b], snap);
    forall c | c in newer[t].columns && c !in tips[b][t].columns ensures c !in snap[t].columns {
      assert KeepsNames(base, tips[b]);
      forall a | 0 <= a < |tips| ensures !(t in tips[a] && c in tips[a][t].columns) {
        assert a != b ==> ShareOnly(base, tips[a], tips[b]) && ShareOnly(base, tips[a], newer);
      }
      assert !ColumnFrom(tips, t, c);
    }
  }

  lemma ApplicableShares(base: Tables, snap: Tables, tips: seq<Tables>, b: nat, newer: Tables, a: nat)
    requires b < |tips| && a < |tips| && a != b && AllFrom(base, tips) && Disjoint(base, tips) && HoldsNames(snap, tips)
    requires Applicable(snap, DiffSnap(newer, tips[b]))
    ensures ShareOnly(base, tips[a], newer)
  {
    var p := DiffSnap(newer, tips[b]);
    assert ShareOnly(base, tips[a], tips[b]) && KeepsNames(tips[a], snap) && KeepsNames(base, tips[b]);
    forall t | t in tips[a] && t in newer
      ensures t in base && forall c :: c in tips[a][t].columns && c in newer[t].columns ==> c in base[t].columns
    {
      assert t in snap && t !in p.tables;
      forall c | c in tips[a][t].columns && c in newer[t].columns ensures c in base[t].columns {
        assert KeepsColumns(tips[a][t], snap[t]);
        assert t in p.cols ==> ColumnsFit(snap, p, t) && c !in p.cols[t];
        assert c in tips[b][t].columns;
      }
    }
  }

  lemma StepMerges(base: Tables, snap: Tables, tips: seq<Tables>, b: nat, newer: Tables)
    requires b < |tips| && IsMerge(snap, tips) && OnlyAdds(tips[b], newer)
    requires Applicable(snap, DiffSnap(newer, tips[b]))
    ensures IsMerge(Apply(snap, DiffSnap(newer, tips[b])), tips[b := newer])
  {
    var r, tips' := Apply(snap, DiffSnap(newer, tips[b])), tips[b := newer];
    assert OnlyAdds(tips[b], snap);
    PureKeepsNames(tips[b], newer);
    ApplyGrows(snap, DiffSnap(newer, tips[b]));
    forall a | 0 <= a < |tips'| ensures OnlyAdds(tips'[a], r) {
      if a == b {
        forall t | t in newer ensures t in r && Grows(newer[t], r[t]) {
          MergedTable(snap, tips[b], newer, t);
        }
      } else {
        OnlyAddsTransitive(tips[a], snap, r);
      }
    }
    forall t | t in r ensures TableFrom(tips', t) {
      TableStillFrom(tips, b, newer, t);
    }
    forall t | t in r ensures forall c :: c in r[t].columns ==> ColumnFrom(tips', t, c) {
      MergedTable(snap, tips[b], newer, t);
      forall c | c in r[t].columns ensures ColumnFrom(tips', t, c) {
        ColumnStillFrom(tips, b, newer, t, c);
      }
    }
  }

  lemma TableStillFrom(tips: seq<Tables>, b: nat, newer: Tables, t: string)
    requires b < |tips| && KeepsNames(tips[b], newer) && (TableFrom(tips, t) || t in newer)
    ensures TableFrom(tips[b := newer], t)
  {
    if t in newer {
      assert t in tips[b := newer][b];
    } else {
      var a :| 0 <= a < |tips| && t in tips[a];
      assert t in tips[b := newer][a];
    }
  }

  lemma ColumnStillFrom(tips: seq<Tables>, b: nat, newer: Tables, t: string, c: string)
    requires b < |tips| && KeepsNames(tips[b], newer)
    requires ColumnFrom(tips, t, c) || (t in newer && c in newer[t].columns)
    ensures ColumnFrom(tips[b := newer], t, c)
  {
    var tips': seq<Tables> := tips[b := newer];
    if t in newer && c in newer[t].columns {
      assert t in tips'[b] && c in tips'[b][t].columns;
    } else {
      var a :| 0 <= a < |tips| && t in tips[a] && c in tips[a][t].columns;
      assert t in tips[b] ==> KeepsColumns(tips[b][t], newer[t]);
      assert t in tips'[a] && c in tips'[a][t].columns;
    }
  }

  // ---------------------------------------------------------------- the merge loop

  /** Applying patches one after the other; None once an assertion has failed. */
  function Fold(base: Tables, ps: seq<Patch>): Option<Tables> {
    if ps == [] then Some(base)
    else
      var before := Fold(base, ps[..|ps| - 1]);
      if before.Some? && Applicable(before.value, ps[|ps| - 1])
      then Some(Apply(before.value, ps[|ps| - 1])) else None
  }

  /** A branch is its chain of snapshots, from the shared base on, none dropping a table or column. */
  predicate Branches(base: Tables, branches: seq<seq<Tables>>) {
    forall b :: 0 <= b < |branches| ==> IsBranch(base, branches[b])
  }

  predicate IsBranch(base: Tables, branch: seq<Tables>) {
    && branch != [] && branch[0] == base
    && forall i :: 0 < i < |branch| ==> KeepsNames(branch[i - 1], branch[i])
  }

  /** Branches that moreover leave every definition as it was. */
  predicate PureBranches(base: Tables, branches: seq<seq<Tables>>) {
    forall b :: 0 <= b < |branches| ==> IsPure(base, branches[b])
  }

  predicate IsPure(base: Tables, branch: seq<Tables>) {
    && branch != [] && branch[0] == base
    && forall i :: 0 < i < |branch| ==> OnlyAdds(branch[i - 1], branch[i])
  }

  /** How far each of n branches has got after the steps of `order`. */
  function Positions(n: nat, order: seq<nat>): (r: seq<nat>)
    ensures |r| == n
  {
    if order == [] then seq(n, _ => 0)
    else
      var r := Positions(n, order[..|order| - 1]);
      var b := order[|order| - 1];
      if b < n then r[b := r[b] + 1] else r
  }

  /** An interleaving that takes each branch's steps in the branch's own order. */
  predicate Schedule(branches: seq<seq<Tables>>, order: seq<nat>) {
    && (forall k :: 0 <= k < |order| ==> order[k] < |branches|)
    && (forall b :: 0 <= b < |branches| ==> Positions(|branches|, order)[b] < |branches[b]|)
  }

  function Tips(branches: seq<seq<Tables>>, order: seq<nat>): (r: seq<Tables>)
    requires Schedule(branches, order)
  {
    seq(|branches|, b requires 0 <= b < |branches| => branches[b][Positions(|branches|, order)[b]])
  }

  lemma SchedulePrefix(branches: seq<seq<Tables>>, order: seq<nat>)
    requires Schedule(branches, order) && order != []
    ensures Schedule(branches, order[..|order| - 1])
    ensures var b := order[|order| - 1];
      Positions(|branches|, order[..|order| - 1])[b] + 1 < |branches[b]|
  {
    var before, after := Positions(|branches|, order[..|order| - 1]), Positions(|branches|, order);
    forall b | 0 <= b < |branches| ensures before[b] < |branches[b]| {
      assert before[b] <= after[b];
    }
  }

  /** A branch's snapshot for one tag, and the branch's previous one. */
  datatype Step = Step(newer: Tables, older: Tables)

  function Diffs(steps: seq<Step>): (r: seq<Patch>)
    ensures |r| == |steps| && forall k :: 0 <= k < |steps| ==> r[k] == DiffSnap(steps[k].newer, steps[k].older)
  {
    seq(|steps|, k requires 0 <= k < |steps| => DiffSnap(steps[k].newer, steps[k].older))
  }

  /** What the loop loads: each branch snapshot and the branch's previous one. */
  function BranchSteps(branches: seq<seq<Tables>>, order: seq<nat>): (r: seq<Step>)
    requires Schedule(branches, order)
    ensures |r| == |order|
    decreases |order|
  {
    if order == [] then []
    else
      SchedulePrefix(branches, order);
      var before := order[..|order| - 1];
      var b := order[|order| - 1];
      var i := Positions(|branches|, before)[b];
      BranchSteps(branches, before) + [Step(branches[b][i + 1], branches[b][i])]
  }

  /** The patches the loop computes. */
  function Steps(branches: seq<seq<Tables>>, order: seq<nat>): (r: seq<Patch>)
    requires Schedule(branches, order)
    ensures |r| == |order|
  {
    Diffs(BranchSteps(branches, order))
  }

  /** The patch of the last step. */
  function LastPatch(branches: seq<seq<Tables>>, order: seq<nat>): Patch
    requires Schedule(branches, order) && order != []
  {
    SchedulePrefix(branches, order);
    var b := order[|order| - 1];
    var i := Positions(|branches|, order[..|order| - 1])[b];
    DiffSnap(branches[b][i + 1], branches[b][i])
  }

  lemma StepsSnoc(branches: seq<seq<Tables>>, order: seq<nat>)
    requires Schedule(branches, order) && order != []
    ensures Schedule(branches, order[..|order| - 1])
    ensures Steps(branches, order) == Steps(branches, order[..|order| - 1]) + [LastPatch(branches, order)]
  {
    SchedulePrefix(branches, order);
  }

  lemma KeepsNamesTransitive(x: Tables, y: Tables, z: Tables)
    requires KeepsNames(x, y) && KeepsNames(y, z)
    ensures KeepsNames(x, z)
  {
    forall t | t in x ensures t in z && KeepsColumns(x[t], z[t]) {
      assert KeepsColumns(x[t], y[t]) && KeepsColumns(y[t], z[t]);
    }
  }

  lemma PureKeepsNames(older: Tables, newer: Tables)
    requires OnlyAdds(older, newer)
    ensures KeepsNames(older, newer)
  {
    forall t | t in older ensures t in newer && KeepsColumns(older[t], newer[t]) {
      assert Grows(older[t], newer[t]);
    }
  }

  lemma {:induction false} BranchFromBase(base: Tables, branch: seq<Tables>, i: nat)
    requires IsPure(base, branch) && i < |branch|
    ensures OnlyAdds(base, branch[i])
  {
    if i != 0 {
      BranchFromBase(base, branch, i - 1);
      OnlyAddsTransitive(base, branch[i - 1], branch[i]);
    }
  }

  lemma TipsFromBase(base: Tables, branches: seq<seq<Tables>>, order: seq<nat>)
    requires PureBranches(base, branches) && Schedule(branches, order)
    ensures AllFrom(base, Tips(branches, order))
  {
    forall b | 0 <= b < |branches| ensures KeepsNames(base, Tips(branches, order)[b]) {
      assert IsPure(base, branches[b]);
      BranchFromBase(base, branches[b], Positions(|branches|, order)[b]);
      PureKeepsNames(base, Tips(branches, order)[b]);
    }
  }

  lemma ShareOnlySmaller(base: Tables, x: Tables, y: Tables, smaller: Tables)
    requires ShareOnly(base, x, y) && KeepsNames(smaller, y)
    ensures ShareOnly(base, x, smaller) && ShareOnly(base, smaller, x)
  {
    forall t | t in x && t in smaller
      ensures t in base && forall c :: c in x[t].columns && c in smaller[t].columns ==> c in base[t].columns
    {
      assert KeepsColumns(smaller[t], y[t]);
    }
  }

  lemma DisjointStep(base: Tables, tips: seq<Tables>, b: nat, newer: Tables)
    requires b < |tips| && KeepsNames(tips[b], newer)
    ensures Disjoint(base, tips[b := newer]) <==>
      Disjoint(base, tips) && forall a :: 0 <= a < |tips| && a != b ==> ShareOnly(base, tips[a], newer)
  {
    var tips': seq<Tables> := tips[b := newer];
    if Disjoint(base, tips') {
      forall a | 0 <= a < |tips| && a != b
        ensures ShareOnly(base, tips[a], newer)
        ensures ShareOnly(base, tips[a], tips[b]) && ShareOnly(base, tips[b], tips[a])
      {
        assert ShareOnly(base, tips'[a], tips'[b]);
        ShareOnlySmaller(base, tips[a], newer, tips[b]);
      }
      forall a, c | 0 <= a < |tips| && 0 <= c < |tips| && a != c ensures ShareOnly(base, tips[a], tips[c]) {
        assert a != b && c != b ==> ShareOnly(base, tips'[a], tips'[c]);
      }
    }
  }

  lemma TipsStep(branches: seq<seq<Tables>>, order: seq<nat>)
    requires Schedule(branches, order) && order != [] && Schedule(branches, order[..|order| - 1])
    ensures var b := order[|order| - 1];
      var i := Positions(|branches|, order[..|order| - 1])[b];
      && i + 1 < |branches[b]|
      && Tips(branches, order[..|order| - 1])[b] == branches[b][i]
      && Tips(branches, order) == Tips(branches, order[..|order| - 1])[b := branches[b][i + 1]]
  {
    SchedulePrefix(branches, order);
  }

  /** The merge of branches that change no definition: its snapshot holds theirs as they are. */
  lemma {:induction false} PureMerge(base: Tables, branches: seq<seq<Tables>>, order: seq<nat>)
    requires PureBranches(base, branches) && branches != [] && Schedule(branches, order)
    ensures Fold(base, Steps(branches, order)).Some? <==> Disjoint(base, Tips(branches, order))
    ensures Fold(base, Steps(branches, order)).Some? ==>
      IsMerge(Fold(base, Steps(branches, order)).value, Tips(branches, order))
    decreases |order|
  {
    var tips := Tips(branches, order);
    if order == [] {
      forall b | 0 <= b < |branches| ensures tips[b] == base {
        assert IsPure(base, branches[b]);
      }
      NothingMerged(base, tips);
    } else {
      SchedulePrefix(branches, order);
      PureMerge(base, branches, order[..|order| - 1]);
      PureMergeStep(base, branches, order);
    }
  }

  lemma PureMergeStep(base: Tables, branches: seq<seq<Tables>>, order: seq<nat>)
    requires PureBranches(base, branches) && order != []
    requires Schedule(branches, order) && Schedule(branches, order[..|order| - 1])
    requires var before := order[..|order| - 1];
      var snap := Fold(base, Steps(branches, before));
      && (snap.Some? <==> Disjoint(base, Tips(branches, before)))
      && (snap.Some? ==> IsMerge(snap.value, Tips(branches, before)))
    ensures Fold(base, Steps(branches, order)).Some? <==> Disjoint(base, Tips(branches, order))
    ensures Fold(base, Steps(branches, order)).Some? ==>
      IsMerge(Fold(base, Steps(branches, order)).value, Tips(branches, order))
  {
    var before := order[..|order| - 1];
    var b := order[|order| - 1];
    var i := Positions(|branches|, before)[b];
    var tips := Tips(branches, before);
    TipsStep(branches, order);
    TipsFromBase(base, branches, before);
    StepsSnoc(branches, order);
    var newer := branches[b][i + 1];
    assert IsPure(base, branches[b]);
    assert OnlyAdds(branches[b][i + 1 - 1], newer);
    FoldSnoc(base, Steps(branches, before), DiffSnap(newer, tips[b]));
    MergeOne(base, Fold(base, Steps(branches, before)), tips, b, newer);
  }

  /** The snapshot after p, if there was one and p passes the assertions. */
  function Advanced(snap: Option<Tables>, p: Patch): Option<Tables> {
    if snap.Some? && Applicable(snap.value, p) then Some(Apply(snap.value, p)) else None
  }

  lemma FoldSnoc(base: Tables, ps: seq<Patch>, p: Patch)
    ensures Fold(base, ps + [p]) == Advanced(Fold(base, ps), p)
  {
    assert (ps + [p])[..|ps|] == ps;
  }

  /** One step of one branch, on a merge that stands for the tips so far. */
  lemma MergeOne(base: Tables, snap: Option<Tables>, tips: seq<Tables>, b: nat, newer: Tables)
    requires b < |tips| && AllFrom(base, tips) && OnlyAdds(tips[b], newer)
    requires snap.Some? <==> Disjoint(base, tips)
    requires snap.Some? ==> IsMerge(snap.value, tips)
    ensures var p := DiffSnap(newer, tips[b]);
      && (snap.Some? && Applicable(snap.value, p) <==> Disjoint(base, tips[b := newer]))
      && (snap.Some? && Applicable(snap.value, p) ==> IsMerge(Apply(snap.value, p), tips[b := newer]))
  {
    PureKeepsNames(tips[b], newer);
    DisjointStep(base, tips, b, newer);
    if snap.Some? {
      MergeHoldsNames(snap.value, tips);
      StepAppliesIffNew(base, snap.value, tips, b, newer);
      if Applicable(snap.value, DiffSnap(newer, tips[b])) {
        StepMerges(base, snap.value, tips, b, newer);
      }
    }
  }

  lemma MergeHoldsNames(snap: Tables, tips: seq<Tables>)
    requires IsMerge(snap, tips)
    ensures HoldsNames(snap, tips)
  {
    forall b | 0 <= b < |tips| ensures KeepsNames(tips[b], snap) {
      PureKeepsNames(tips[b], snap);
    }
  }

  lemma NothingMerged(base: Tables, tips: seq<Tables>)
    requires tips != [] && forall b :: 0 <= b < |tips| ==> tips[b] == base
    ensures Disjoint(base, tips) && IsMerge(base, tips)
  {
    forall t | t in base ensures TableFrom(tips, t) && forall c :: c in base[t].columns ==> ColumnFrom(tips, t, c) {
      assert t in tips[0];
      assert forall c :: c in base[t].columns ==> c in tips[0][t].columns;
    }
  }

  // ---------------------------------------------------------------- any branches

  /** All that every merge needs: the branches start at the base.  A step may drop and re-add things. */
  predicate StartAtBase(base: Tables, branches: seq<seq<Tables>>) {
    forall b :: 0 <= b < |branches| ==> branches[b] != [] && branches[b][0] == base
  }

  /** The patch of step i of branch b. */
  function PatchAt(branches: seq<seq<Tables>>, b: nat, i: nat): Patch
    requires b < |branches| && i + 1 < |branches[b]|
  {
    DiffSnap(branches[b][i + 1], branches[b][i])
  }

  predicate Within(branches: seq<seq<Tables>>, pos: seq<nat>) {
    |pos| == |branches| && forall b :: 0 <= b < |branches| ==> pos[b] < |branches[b]|
  }

  /** Step i of branch b is among those taken. */
  predicate Taken(branches: seq<seq<Tables>>, pos: seq<nat>, b: nat, i: nat)
    requires Within(branches, pos)
  {
    b < |branches| && i < pos[b]
  }

  /** p brings column c of table t, alone or with the table. */
  predicate BringsColumn(p: Patch, t: string, c: string) {
    (t in p.tables && c in p.tables[t].columns) || (t in p.cols && c in p.cols[t])
  }

  predicate NewToBase(base: Tables, p: Patch) {
    && (forall t :: t in p.tables ==> t !in base)
    && forall t :: t in p.cols && t in base ==> forall c :: c in p.cols[t] ==> c !in base[t].columns
  }

  ghost predicate Apart(p: Patch, q: Patch) {
    && (forall t :: t in p.tables ==> t !in q.tables)
    && forall t, c :: BringsColumn(p, t, c) ==> !BringsColumn(q, t, c)
  }

  /** No step adds a table or column of the base, and no two steps add the same one. */
  ghost predicate NothingAddedTwice(base: Tables, branches: seq<seq<Tables>>, pos: seq<nat>)
    requires Within(branches, pos)
  {
    && (forall b: nat, i: nat :: Taken(branches, pos, b, i) ==> NewToBase(base, PatchAt(branches, b, i)))
    && forall a: nat, i: nat, b: nat, j: nat ::
         Taken(branches, pos, a, i) && Taken(branches, pos, b, j) && (a != b || i != j) ==>
           Apart(PatchAt(branches, a, i), PatchAt(branches, b, j))
  }

  /** snap has everything p brings, as p has it. */
  predicate Holds(snap: Tables, p: Patch) {
    && (forall t :: t in p.tables ==> t in snap && Grows(p.tables[t], snap[t]))
    && forall t :: t in p.cols ==>
         t in snap && forall c :: c in p.cols[t] ==> c in snap[t].columns && snap[t].columns[c] == p.cols[t][c]
  }

  ghost predicate TableTaken(branches: seq<seq<Tables>>, pos: seq<nat>, t: string)
    requires Within(branches, pos)
  {
    exists b: nat, i: nat :: Taken(branches, pos, b, i) && t in PatchAt(branches, b, i).tables
  }

  ghost predicate ColumnTaken(branches: seq<seq<Tables>>, pos: seq<nat>, t: string, c: string)
    requires Within(branches, pos)
  {
    exists b: nat, i: nat :: Taken(branches, pos, b, i) && BringsColumn(PatchAt(branches, b, i), t, c)
  }

  ghost predicate OnlyTaken(snap: Tables, base: Tables, branches: seq<seq<Tables>>, pos: seq<nat>)
    requires Within(branches, pos)
  {
    && (forall t :: t in snap ==> t in base || TableTaken(branches, pos, t))
    && forall t, c :: t in snap && c in snap[t].columns ==>
         (t in base && c in base[t].columns) || ColumnTaken(branches, pos, t, c)
  }

  /** snap is the base and all that the steps taken bring, and nothing else. */
  ghost predicate IsUnion(snap: Tables, base: Tables, branches: seq<seq<Tables>>, pos: seq<nat>)
    requires Within(branches, pos)
  {
    && OnlyAdds(base, snap)
    && (forall b: nat, i: nat :: Taken(branches, pos, b, i) ==> Holds(snap, PatchAt(branches, b, i)))
    && OnlyTaken(snap, base, branches, pos)
  }

  lemma SameColumn(x: Tables, y: Tables, base: Tables, branches: seq<seq<Tables>>, pos: seq<nat>, t: string, c: string)
    requires Within(branches, pos) && IsUnion(x, base, branches, pos) && IsUnion(y, base, branches, pos)
    requires t in x && c in x[t].columns && t in y
    ensures c in y[t].columns && x[t].columns[c] == y[t].columns[c]
  {
    if t in base && c in base[t].columns {
      assert Grows(base[t], x[t]) && Grows(base[t], y[t]);
    } else {
      assert ColumnTaken(branches, pos, t, c);
      var b: nat, i: nat :| Taken(branches, pos, b, i) && BringsColumn(PatchAt(branches, b, i), t, c);
      HoldsColumn(x, PatchAt(branches, b, i), t, c);
      HoldsColumn(y, PatchAt(branches, b, i), t, c);
    }
  }

  function Brought(p: Patch, t: string, c: string): string
    requires BringsColumn(p, t, c)
  {
    if t in p.tables && c in p.tables[t].columns then p.tables[t].columns[c] else p.cols[t][c]
  }

  lemma HoldsColumn(snap: Tables, p: Patch, t: string, c: string)
    requires Holds(snap, p) && BringsColumn(p, t, c)
    ensures t in snap && c in snap[t].columns && snap[t].columns[c] == Brought(p, t, c)
  {
  }

  lemma SameTable(x: Tables, y: Tables, base: Tables, branches: seq<seq<Tables>>, pos: seq<nat>, t: string)
    requires Within(branches, pos) && IsUnion(x, base, branches, pos) && IsUnion(y, base, branches, pos)
    requires t in x
    ensures t in y && x[t].rest == y[t].rest
  {
    if t in base {
      assert Grows(base[t], x[t]) && Grows(base[t], y[t]);
    } else {
      assert TableTaken(branches, pos, t);
      var b: nat, i: nat :| Taken(branches, pos, b, i) && t in PatchAt(branches, b, i).tables;
      var p := PatchAt(branches, b, i);
      assert Holds(x, p) && Holds(y, p);
      assert Grows(p.tables[t], x[t]) && Grows(p.tables[t], y[t]);
    }
  }

  /** The steps taken determine the snapshot, whatever order they were taken in. */
  lemma UnionUnique(x: Tables, y: Tables, base: Tables, branches: seq<seq<Tables>>, pos: seq<nat>)
    requires Within(branches, pos) && IsUnion(x, base, branches, pos) && IsUnion(y, base, branches, pos)
    ensures x == y
  {
    forall t | t in x || t in y ensures t in x && t in y && x[t] == y[t] {
      if t in x {
        SameTable(x, y, base, branches, pos, t);
      } else {
        SameTable(y, x, base, branches, pos, t);
      }
      forall c | c in x[t].columns || c in y[t].columns
        ensures c in x[t].columns && c in y[t].columns && x[t].columns[c] == y[t].columns[c]
      {
        if c in x[t].columns {
          SameColumn(x, y, base, branches, pos, t, c);
        } else {
          SameColumn(y, x, base, branches, pos, t, c);
        }
      }
      EqualOnKeys(x[t].columns, y[t].columns);
    }
    EqualOnKeys(x, y);
  }

  /** What a branch has, it started with or added. */
  lemma {:induction false} HadOrAdded(base: Tables, branches: seq<seq<Tables>>, b: nat, i: nat, t: string)
    requires StartAtBase(base, branches) && b < |branches| && i < |branches[b]| && t in branches[b][i]
    ensures t in base || exists j: nat :: j < i && t in PatchAt(branches, b, j).tables
  {
    if i > 0 {
      if t in branches[b][i - 1] {
        HadOrAdded(base, branches, b, i - 1, t);
        if t !in base {
          var j: nat :| j < i - 1 && t in PatchAt(branches, b, j).tables;
          assert j < i;
        }
      } else {
        assert t in PatchAt(branches, b, i - 1).tables;
      }
    }
  }

  ghost predicate ApartFromTaken(branches: seq<seq<Tables>>, pos: seq<nat>, p: Patch)
    requires Within(branches, pos)
  {
    forall a: nat, i: nat :: Taken(branches, pos, a, i) ==> Apart(PatchAt(branches, a, i), p)
  }

  /** The next step of branch b has a table to put its new columns in. */
  lemma ColumnsHaveTables(base: Tables, snap: Tables, branches: seq<seq<Tables>>, pos: seq<nat>, b: nat, t: string)
    requires StartAtBase(base, branches) && Within(branches, pos) && IsUnion(snap, base, branches, pos)
    requires b < |branches| && pos[b] + 1 < |branches[b]| && t in PatchAt(branches, b, pos[b]).cols
    ensures t in snap && t !in PatchAt(branches, b, pos[b]).tables
  {
    HadOrAdded(base, branches, b, pos[b], t);
    if t !in base {
      var j: nat :| j < pos[b] && t in PatchAt(branches, b, j).tables;
      assert Taken(branches, pos, b, j) && Holds(snap, PatchAt(branches, b, j));
    }
  }

  lemma TableNotTaken(branches: seq<seq<Tables>>, pos: seq<nat>, p: Patch, t: string)
    requires Within(branches, pos) && ApartFromTaken(branches, pos, p) && t in p.tables
    ensures !TableTaken(branches, pos, t)
  {
    forall a: nat, i: nat | Taken(branches, pos, a, i) ensures t !in PatchAt(branches, a, i).tables {
      assert Apart(PatchAt(branches, a, i), p);
    }
  }

  lemma ColumnNotTaken(branches: seq<seq<Tables>>, pos: seq<nat>, p: Patch, t: string, c: string)
    requires Within(branches, pos) && ApartFromTaken(branches, pos, p) && BringsColumn(p, t, c)
    ensures !ColumnTaken(branches, pos, t, c)
  {
    forall a: nat, i: nat | Taken(branches, pos, a, i) ensures !BringsColumn(PatchAt(branches, a, i), t, c) {
      assert Apart(PatchAt(branches, a, i), p);
    }
  }

  lemma NextFits(base: Tables, snap: Tables, branches: seq<seq<Tables>>, pos: seq<nat>, b: nat)
    requires StartAtBase(base, branches) && Within(branches, pos) && IsUnion(snap, base, branches, pos)
    requires b < |branches| && pos[b] + 1 < |branches[b]|
    requires NewToBase(base, PatchAt(branches, b, pos[b]))
    requires ApartFromTaken(branches, pos, PatchAt(branches, b, pos[b]))
    ensures Applicable(snap, PatchAt(branches, b, pos[b]))
  {
    var p := PatchAt(branches, b, pos[b]);
    forall t | t in p.tables ensures t !in snap {
      TableNotTaken(branches, pos, p, t);
    }
    forall t | t in p.cols ensures ColumnsFit(snap, p, t) {
      ColumnsHaveTables(base, snap, branches, pos, b, t);
      forall c | c in p.cols[t] ensures c !in snap[t].columns {
        ColumnNotTaken(branches, pos, p, t, c);
      }
    }
  }

  lemma FittingIsApart(snap: Tables, p: Patch, q: Patch)
    requires Applicable(snap, p) && Holds(snap, q) && forall t :: t in p.cols ==> t !in p.tables
    ensures Apart(q, p)
  {
    forall t, c | BringsColumn(q, t, c) ensures !BringsColumn(p, t, c) {
      HoldsColumn(snap, q, t, c);
      assert t in p.cols ==> ColumnsFit(snap, p, t);
    }
  }

  lemma FittingIsNew(base: Tables, snap: Tables, p: Patch)
    requires Applicable(snap, p) && OnlyAdds(base, snap) && forall t :: t in p.cols ==> t !in p.tables
    ensures NewToBase(base, p)
  {
    forall t | t in p.cols && t in base ensures forall c :: c in p.cols[t] ==> c !in base[t].columns {
      assert ColumnsFit(snap, p, t) && Grows(base[t], snap[t]);
    }
  }

  /** A step passes the assertions exactly when it brings nothing that is there already. */
  lemma NextFitsIff(base: Tables, snap: Tables, branches: seq<seq<Tables>>, pos: seq<nat>, b: nat)
    requires StartAtBase(base, branches) && Within(branches, pos) && IsUnion(snap, base, branches, pos)
    requires b < |branches| && pos[b] + 1 < |branches[b]|
    ensures var p := PatchAt(branches, b, pos[b]);
      Applicable(snap, p) <==> NewToBase(base, p) && ApartFromTaken(branches, pos, p)
  {
    var p := PatchAt(branches, b, pos[b]);
    if Applicable(snap, p) {
      FittingIsNew(base, snap, p);
      forall a: nat, i: nat | Taken(branches, pos, a, i) ensures Apart(PatchAt(branches, a, i), p) {
        FittingIsApart(snap, p, PatchAt(branches, a, i));
      }
    }
    if NewToBase(base, p) && ApartFromTaken(branches, pos, p) {
      NextFits(base, snap, branches, pos, b);
    }
  }

  lemma ApplyHolds(snap: Tables, p: Patch)
    requires Applicable(snap, p)
    ensures Holds(Apply(snap, p), p)
  {
    var r := Apply(snap, p);
    forall t | t in p.tables ensures t in r && Grows(p.tables[t], r[t]) {
      assert r[t] == Patched(snap, p, t);
      assert t in p.cols ==> ColumnsFit(snap, p, t);
    }
    forall t | t in p.cols
      ensures t in r && forall c :: c in p.cols[t] ==> c in r[t].columns && r[t].columns[c] == p.cols[t][c]
    {
      assert ColumnsFit(snap, p, t) && r[t] == Patched(snap, p, t);
    }
  }

  lemma StillHolds(snap: Tables, more: Tables, p: Patch)
    requires Holds(snap, p) && OnlyAdds(snap, more)
    ensures Holds(more, p)
  {
    forall t | t in p.tables ensures t in more && Grows(p.tables[t], more[t]) {
      assert Grows(p.tables[t], snap[t]) && Grows(snap[t], more[t]);
    }
    forall t | t in p.cols
      ensures t in more && forall c :: c in p.cols[t] ==> c in more[t].columns && more[t].columns[c] == p.cols[t][c]
    {
      assert Grows(snap[t], more[t]);
    }
  }

  lemma AppliedColumn(snap: Tables, p: Patch, t: string, c: string)
    requires Applicable(snap, p) && t in Apply(snap, p) && c in Apply(snap, p)[t].columns
    ensures (t in snap && c in snap[t].columns) || BringsColumn(p, t, c)
  {
    assert Apply(snap, p)[t] == Patched(snap, p, t);
  }

  /** pos with one more step of branch b. */
  function Later(pos: seq<nat>, b: nat): seq<nat>
    requires b < |pos|
  {
    pos[b := pos[b] + 1]
  }

  lemma TakenLater(branches: seq<seq<Tables>>, pos: seq<nat>, b: nat, a: nat, i: nat)
    requires Within(branches, pos) && b < |branches| && pos[b] + 1 < |branches[b]|
    ensures Within(branches, Later(pos, b))
    ensures Taken(branches, Later(pos, b), a, i) <==> Taken(branches, pos, a, i) || (a == b && i == pos[b])
  {
  }

  lemma OnlyTakenLater(base: Tables, snap: Tables, branches: seq<seq<Tables>>, pos: seq<nat>, b: nat)
    requires Within(branches, pos) && b < |branches| && pos[b] + 1 < |branches[b]|
    requires OnlyTaken(snap, base, branches, pos) && Applicable(snap, PatchAt(branches, b, pos[b]))
    ensures Within(branches, Later(pos, b))
    ensures OnlyTaken(Apply(snap, PatchAt(branches, b, pos[b])), base, branches, Later(pos, b))
  {
    var p, after := PatchAt(branches, b, pos[b]), Later(pos, b);
    var r := Apply(snap, p);
    TakenLater(branches, pos, b, b, pos[b]);
    forall t | t in r ensures t in base || TableTaken(branches, after, t) {
      if t in snap && t !in base {
        var a: nat, i: nat :| Taken(branches, pos, a, i) && t in PatchAt(branches, a, i).tables;
        TakenLater(branches, pos, b, a, i);
        assert Taken(branches, after, a, i) && t in PatchAt(branches, a, i).tables;
      } else if t !in base {
        assert Taken(branches, after, b, pos[b]) && t in PatchAt(branches, b, pos[b]).tables;
      }
    }
    forall t, c | t in r && c in r[t].columns
      ensures (t in base && c in base[t].columns) || ColumnTaken(branches, after, t, c)
    {
      AppliedColumn(snap, p, t, c);
      if BringsColumn(p, t, c) {
        assert Taken(branches, after, b, pos[b]) && BringsColumn(PatchAt(branches, b, pos[b]), t, c);
      } else if ColumnTaken(branches, pos, t, c) {
        var a: nat, i: nat :| Taken(branches, pos, a, i) && BringsColumn(PatchAt(branches, a, i), t, c);
        TakenLater(branches, pos, b, a, i);
        assert Taken(branches, after, a, i) && BringsColumn(PatchAt(branches, a, i), t, c);
      }
    }
  }

  lemma UnionLater(base: Tables, snap: Tables, branches: seq<seq<Tables>>, pos: seq<nat>, b: nat)
    requires Within(branches, pos) && b < |branches| && pos[b] + 1 < |branches[b]|
    requires IsUnion(snap, base, branches, pos) && Applicable(snap, PatchAt(branches, b, pos[b]))
    ensures Within(branches, Later(pos, b))
    ensures IsUnion(Apply(snap, PatchAt(branches, b, pos[b])), base, branches, Later(pos, b))
  {
    var p := PatchAt(branches, b, pos[b]);
    var r := Apply(snap, p);
    TakenLater(branches, pos, b, b, pos[b]);
    ApplyGrows(snap, p);
    OnlyAddsTransitive(base, snap, r);
    forall a: nat, i: nat | Taken(branches, Later(pos, b), a, i) ensures Holds(r, PatchAt(branches, a, i)) {
      TakenLater(branches, pos, b, a, i);
      if Taken(branches, pos, a, i) {
        StillHolds(snap, r, PatchAt(branches, a, i));
      } else {
        ApplyHolds(snap, p);
      }
    }
    OnlyTakenLater(base, snap, branches, pos, b);
  }

  lemma ApartIsSymmetric(p: Patch, q: Patch)
    requires Apart(p, q)
    ensures Apart(q, p)
  {
  }

  lemma TwiceLater(base: Tables, branches: seq<seq<Tables>>, pos: seq<nat>, b: nat)
    requires Within(branches, pos) && b < |branches| && pos[b] + 1 < |branches[b]|
    ensures Within(branches, Later(pos, b))
    ensures var p := PatchAt(branches, b, pos[b]);
      NothingAddedTwice(base, branches, Later(pos, b)) <==>
        NothingAddedTwice(base, branches, pos) && NewToBase(base, p) && ApartFromTaken(branches, pos, p)
  {
    var p, after := PatchAt(branches, b, pos[b]), Later(pos, b);
    forall a: nat, i: nat
      ensures Taken(branches, after, a, i) <==> Taken(branches, pos, a, i) || (a == b && i == pos[b])
    {
      TakenLater(branches, pos, b, a, i);
    }
    assert Taken(branches, after, b, pos[b]) && !Taken(branches, pos, b, pos[b]);
    if NothingAddedTwice(base, branches, pos) && NewToBase(base, p) && ApartFromTaken(branches, pos, p) {
      forall a: nat, i: nat, d: nat, j: nat
        | Taken(branches, after, a, i) && Taken(branches, after, d, j) && (a != d || i != j)
        ensures Apart(PatchAt(branches, a, i), PatchAt(branches, d, j))
      {
        if !Taken(branches, pos, a, i) {
          ApartIsSymmetric(PatchAt(branches, d, j), p);
        }
      }
    }
  }

  lemma NothingTaken(base: Tables, branches: seq<seq<Tables>>, pos: seq<nat>)
    requires StartAtBase(base, branches) && |pos| == |branches| && forall b :: 0 <= b < |pos| ==> pos[b] == 0
    ensures Within(branches, pos)
    ensures NothingAddedTwice(base, branches, pos) && IsUnion(base, base, branches, pos)
  {
    assert forall b: nat, i: nat :: !Taken(branches, pos, b, i);
  }

  /** snap is what the steps taken come to: their union, or None if an assertion must have failed. */
  ghost predicate StandsFor(snap: Option<Tables>, base: Tables, branches: seq<seq<Tables>>, pos: seq<nat>)
    requires Within(branches, pos)
  {
    && (snap.Some? <==> NothingAddedTwice(base, branches, pos))
    && (snap.Some? ==> IsUnion(snap.value, base, branches, pos))
  }

  lemma MergeAny(base: Tables, snap: Option<Tables>, branches: seq<seq<Tables>>, pos: seq<nat>, b: nat)
    requires StartAtBase(base, branches) && Within(branches, pos) && StandsFor(snap, base, branches, pos)
    requires b < |branches| && pos[b] + 1 < |branches[b]|
    ensures Within(branches, Later(pos, b))
    ensures StandsFor(Advanced(snap, PatchAt(branches, b, pos[b])), base, branches, Later(pos, b))
  {
    TwiceLater(base, branches, pos, b);
    if snap.Some? {
      NextFitsIff(base, snap.value, branches, pos, b);
      if Applicable(snap.value, PatchAt(branches, b, pos[b])) {
        UnionLater(base, snap.value, branches, pos, b);
      }
    }
  }

  /** The last step of a schedule, in terms of the positions before it. */
  lemma LastStep(base: Tables, branches: seq<seq<Tables>>, order: seq<nat>)
    requires Schedule(branches, order) && order != []
    ensures var before, b := order[..|order| - 1], order[|order| - 1];
      var pos := Positions(|branches|, before);
      && Schedule(branches, before) && Within(branches, pos) && b < |branches| && pos[b] + 1 < |branches[b]|
      && Positions(|branches|, order) == Later(pos, b)
      && Fold(base, Steps(branches, order)) ==
           Advanced(Fold(base, Steps(branches, before)), PatchAt(branches, b, pos[b]))
  {
    var before, b := order[..|order| - 1], order[|order| - 1];
    SchedulePrefix(branches, order);
    StepsSnoc(branches, order);
    FoldSnoc(base, Steps(branches, before), PatchAt(branches, b, Positions(|branches|, before)[b]));
  }

  lemma {:induction false} MergeStandsFor(base: Tables, branches: seq<seq<Tables>>, order: seq<nat>)
    requires StartAtBase(base, branches) && Schedule(branches, order)
    ensures Within(branches, Positions(|branches|, order))
    ensures StandsFor(Fold(base, Steps(branches, order)), base, branches, Positions(|branches|, order))
    decreases |order|
  {
    if order == [] {
      NothingTaken(base, branches, Positions(|branches|, order));
    } else {
      var before, b := order[..|order| - 1], order[|order| - 1];
      LastStep(base, branches, order);
      MergeStandsFor(base, branches, before);
      MergeAny(base, Fold(base, Steps(branches, before)), branches, Positions(|branches|, before), b);
    }
  }

  /**
    The merge of any branches that start at the base: it passes every assertion of `apply` exactly
    when no table or column of the base is added, nor any other added twice over all steps, and the
    merged snapshot is then the base and all additions.
   */
  lemma {:induction false} MergeIffNothingAddedTwice(base: Tables, branches: seq<seq<Tables>>, order: seq<nat>)
    requires StartAtBase(base, branches) && Schedule(branches, order)
    ensures var pos := Positions(|branches|, order);
      && Within(branches, pos)
      && (Fold(base, Steps(branches, order)).Some? <==> NothingAddedTwice(base, branches, pos))
      && (Fold(base, Steps(branches, order)).Some? ==>
            IsUnion(Fold(base, Steps(branches, order)).value, base, branches, pos))
  {
    MergeStandsFor(base, branches, order);
  }

  /** Confluence: the outcome depends on how far each branch got, never on the interleaving. */
  lemma MergeConfluent(base: Tables, branches: seq<seq<Tables>>, x: seq<nat>, y: seq<nat>)
    requires StartAtBase(base, branches) && Schedule(branches, x) && Schedule(branches, y)
    requires Positions(|branches|, x) == Positions(|branches|, y)
    ensures Fold(base, Steps(branches, x)) == Fold(base, Steps(branches, y))
  {
    MergeIffNothingAddedTwice(base, branches, x);
    MergeIffNothingAddedTwice(base, branches, y);
    if Fold(base, Steps(branches, x)).Some? {
      UnionUnique(Fold(base, Steps(branches, x)).value, Fold(base, Steps(branches, y)).value,
                  base, branches, Positions(|branches|, x));
    }
  }

  // ---------------------------------------------------------------- branches that change definitions

  /** Snapshot i of a branch with everything defined as when it first appeared. */
  function FirstSeen(base: Tables, branch: seq<Tables>, i: nat): Tables
    requires i < |branch|
  {
    if i == 0 then base else Apply(FirstSeen(base, branch, i - 1), DiffSnap(branch[i], branch[i - 1]))
  }

  function Frozen(base: Tables, branch: seq<Tables>): (r: seq<Tables>)
    ensures |r| == |branch| && forall i :: 0 <= i < |branch| ==> r[i] == FirstSeen(base, branch, i)
  {
    seq(|branch|, i requires 0 <= i < |branch| => FirstSeen(base, branch, i))
  }

  function AllFrozen(base: Tables, branches: seq<seq<Tables>>): (r: seq<seq<Tables>>)
    ensures |r| == |branches| && forall b :: 0 <= b < |branches| ==> r[b] == Frozen(base, branches[b])
  {
    seq(|branches|, b requires 0 <= b < |branches| => Frozen(base, branches[b]))
  }

  lemma PatchFits(x: Tables, older: Tables, newer: Tables)
    requires SameNames(x, older) && KeepsNames(older, newer)
    ensures Applicable(x, DiffSnap(newer, older))
    ensures forall t :: t in DiffSnap(newer, older).cols ==> t in x && exists c :: c in DiffSnap(newer, older).cols[t]
  {
    var p := DiffSnap(newer, older);
    forall t | t in p.cols ensures ColumnsFit(x, p, t) && exists c :: c in p.cols[t] {
      assert KeepsColumns(x[t], older[t]);
      var c :| c in newer[t].columns && c !in older[t].columns;
      assert c in p.cols[t];
    }
  }

  lemma PatchedNames(x: Tables, older: Tables, newer: Tables, t: string)
    requires SameNames(x, older) && KeepsNames(older, newer) && t in newer
    ensures var r := Patched(x, DiffSnap(newer, older), t); KeepsColumns(r, newer[t]) && KeepsColumns(newer[t], r)
  {
    if t in older {
      assert KeepsColumns(x[t], older[t]) && KeepsColumns(older[t], x[t]) && KeepsColumns(older[t], newer[t]);
      assert t !in DiffSnap(newer, older).cols ==> KeepsColumns(newer[t], older[t]);
    }
  }

  /** A patch does to any snapshot with the same names what it does to its own. */
  lemma PatchNames(x: Tables, older: Tables, newer: Tables)
    requires SameNames(x, older) && KeepsNames(older, newer)
    ensures Applicable(x, DiffSnap(newer, older))
    ensures SameNames(Apply(x, DiffSnap(newer, older)), newer)
    ensures DiffSnap(Apply(x, DiffSnap(newer, older)), x) == DiffSnap(newer, older)
  {
    var p := DiffSnap(newer, older);
    var r := Apply(x, p);
    PatchFits(x, older, newer);
    DiffApplyRoundTrip(x, p);
    forall t | t in newer ensures t in r && KeepsColumns(r[t], newer[t]) && KeepsColumns(newer[t], r[t]) {
      PatchedNames(x, older, newer, t);
      assert r[t] == Patched(x, p, t);
    }
  }

  lemma {:induction false} FirstSeenNames(base: Tables, branch: seq<Tables>, i: nat)
    requires IsBranch(base, branch) && i < |branch|
    ensures SameNames(FirstSeen(base, branch, i), branch[i])
    ensures i > 0 ==> Applicable(FirstSeen(base, branch, i - 1), DiffSnap(branch[i], branch[i - 1]))
    ensures i > 0 ==>
      DiffSnap(FirstSeen(base, branch, i), FirstSeen(base, branch, i - 1)) == DiffSnap(branch[i], branch[i - 1])
  {
    if i > 0 {
      FirstSeenNames(base, branch, i - 1);
      PatchNames(FirstSeen(base, branch, i - 1), branch[i - 1], branch[i]);
    }
  }

  lemma FrozenIsPure(base: Tables, branches: seq<seq<Tables>>)
    requires Branches(base, branches)
    ensures PureBranches(base, AllFrozen(base, branches))
  {
    forall b | 0 <= b < |branches| ensures IsPure(base, AllFrozen(base, branches)[b]) {
      var branch, frozen := branches[b], Frozen(base, branches[b]);
      assert IsBranch(base, branch);
      forall i | 0 < i < |frozen| ensures OnlyAdds(frozen[i - 1], frozen[i]) {
        FirstSeenNames(base, branch, i);
        ApplyGrows(FirstSeen(base, branch, i - 1), DiffSnap(branch[i], branch[i - 1]));
      }
    }
  }

  lemma FrozenSchedule(base: Tables, branches: seq<seq<Tables>>, order: seq<nat>)
    requires Schedule(branches, order)
    ensures Schedule(AllFrozen(base, branches), order)
  {
  }

  lemma FrozenStep(base: Tables, branches: seq<seq<Tables>>, order: seq<nat>)
    requires Branches(base, branches) && Schedule(branches, order) && Schedule(AllFrozen(base, branches), order)
    requires order != []
    ensures LastPatch(AllFrozen(base, branches), order) == LastPatch(branches, order)
  {
    SchedulePrefix(branches, order);
    var b := order[|order| - 1];
    assert IsBranch(base, branches[b]);
    FirstSeenNames(base, branches[b], Positions(|branches|, order[..|order| - 1])[b] + 1);
  }

  /** The loop cannot tell a branch from its frozen form: the patches are the same. */
  lemma {:induction false} FrozenSteps(base: Tables, branches: seq<seq<Tables>>, order: seq<nat>)
    requires Branches(base, branches) && Schedule(branches, order) && Schedule(AllFrozen(base, branches), order)
    ensures Steps(AllFrozen(base, branches), order) == Steps(branches, order)
    decreases |order|
  {
    if order == [] {
      assert Steps(branches, order) == [];
    } else {
      StepsSnoc(branches, order);
      StepsSnoc(AllFrozen(base, branches), order);
      FrozenSteps(base, branches, order[..|order| - 1]);
      FrozenStep(base, branches, order);
    }
  }

  lemma FrozenTips(base: Tables, branches: seq<seq<Tables>>, order: seq<nat>, b: nat)
    requires Branches(base, branches) && Schedule(branches, order) && Schedule(AllFrozen(base, branches), order)
    requires b < |branches|
    ensures SameNames(Tips(AllFrozen(base, branches), order)[b], Tips(branches, order)[b])
  {
    assert IsBranch(base, branches[b]);
    FirstSeenNames(base, branches[b], Positions(|branches|, order)[b]);
  }

  lemma ShareOnlyNames(base: Tables, x: Tables, y: Tables, x': Tables, y': Tables)
    requires SameNames(x, x') && SameNames(y, y') && ShareOnly(base, x, y)
    ensures ShareOnly(base, x', y')
  {
    forall t | t in x' && t in y'
      ensures t in base && forall c :: c in x'[t].columns && c in y'[t].columns ==> c in base[t].columns
    {
      assert KeepsColumns(x'[t], x[t]) && KeepsColumns(y'[t], y[t]);
    }
  }

  predicate SameTipNames(tips: seq<Tables>, others: seq<Tables>) {
    |tips| == |others| && forall b :: 0 <= b < |tips| ==> SameNames(tips[b], others[b])
  }

  lemma DisjointNames(base: Tables, tips: seq<Tables>, others: seq<Tables>)
    requires SameTipNames(tips, others) && Disjoint(base, tips)
    ensures Disjoint(base, others)
  {
    forall a, b | 0 <= a < |tips| && 0 <= b < |tips| && a != b ensures ShareOnly(base, others[a], others[b]) {
      ShareOnlyNames(base, tips[a], tips[b], others[a], others[b]);
    }
  }

  lemma TableFromOthers(tips: seq<Tables>, others: seq<Tables>, t: string)
    requires SameTipNames(tips, others) && TableFrom(tips, t)
    ensures TableFrom(others, t)
  {
    var b :| 0 <= b < |tips| && t in tips[b];
    assert SameNames(tips[b], others[b]) && t in others[b];
  }

  lemma ColumnFromOthers(tips: seq<Tables>, others: seq<Tables>, t: string, c: string)
    requires SameTipNames(tips, others) && ColumnFrom(tips, t, c)
    ensures ColumnFrom(others, t, c)
  {
    var b :| 0 <= b < |tips| && t in tips[b] && c in tips[b][t].columns;
    assert SameNames(tips[b], others[b]) && KeepsColumns(tips[b][t], others[b][t]);
    assert t in others[b] && c in others[b][t].columns;
  }

  lemma HoldsOtherNames(snap: Tables, tips: seq<Tables>, others: seq<Tables>)
    requires SameTipNames(tips, others) && HoldsNames(snap, tips)
    ensures HoldsNames(snap, others)
  {
    forall b | 0 <= b < |others| ensures KeepsNames(others[b], snap) {
      assert SameNames(tips[b], others[b]);
      KeepsNamesTransitive(others[b], tips[b], snap);
    }
    forall t | t in snap ensures TableFrom(others, t) {
      TableFromOthers(tips, others, t);
    }
    forall t, c | t in snap && c in snap[t].columns ensures ColumnFrom(others, t, c) {
      ColumnFromOthers(tips, others, t, c);
    }
  }

  /**
    The merge passes every assertion of `apply` exactly when no two branches added the same table
    or column.  The merged snapshot then has the tables and columns of the branches' own snapshots
    so far and no others, each defined as when it first appeared in its branch or in the base.
   */
  lemma MergeIffDisjoint(base: Tables, branches: seq<seq<Tables>>, order: seq<nat>)
    requires Branches(base, branches) && branches != [] && Schedule(branches, order)
    ensures Fold(base, Steps(branches, order)).Some? <==> Disjoint(base, Tips(branches, order))
    ensures Schedule(AllFrozen(base, branches), order)
    ensures Fold(base, Steps(branches, order)).Some? ==>
      var snap := Fold(base, Steps(branches, order)).value;
      HoldsNames(snap, Tips(branches, order)) && IsMerge(snap, Tips(AllFrozen(base, branches), order))
  {
    var frozen := AllFrozen(base, branches);
    FrozenIsPure(base, branches);
    FrozenSchedule(base, branches, order);
    FrozenSteps(base, branches, order);
    PureMerge(base, frozen, order);
    var tips, others := Tips(branches, order), Tips(frozen, order);
    forall b | 0 <= b < |branches| ensures SameNames(tips[b], others[b]) {
      FrozenTips(base, branches, order, b);
    }
    if Disjoint(base, tips) {
      DisjointNames(base, tips, others);
    }
    if Disjoint(base, others) {
      DisjointNames(base, others, tips);
      MergeHoldsNames(Fold(base, Steps(branches, order)).value, others);
      HoldsOtherNames(Fold(base, Steps(branches, order)).value, others, tips);
    }
  }

  lemma SameDefinitions(x: Tables, y: Tables, z: Tables)
    requires OnlyAdds(x, z) && OnlyAdds(y, z) && SameNames(x, y)
    ensures x == y
  {
    forall t | t in x || t in y ensures t in x && t in y && x[t] == y[t] {
      assert Grows(x[t], z[t]) && Grows(y[t], z[t]);
      assert KeepsColumns(x[t], y[t]) && KeepsColumns(y[t], x[t]);
      assert x[t].columns == y[t].columns;
    }
    EqualOnKeys(x, y);
  }

  /**
    A changed definition, key or index of what is already there is dropped by the merge.  So the
    merged snapshot holds the branches' own snapshots as they are exactly when every tip is what
    its branch first made of each table and column.
   */
  lemma HoldsTipsIffNothingRedefined(base: Tables, branches: seq<seq<Tables>>, order: seq<nat>)
    requires Branches(base, branches) && branches != [] && Schedule(branches, order)
    requires Fold(base, Steps(branches, order)).Some?
    ensures Schedule(AllFrozen(base, branches), order)
    ensures IsMerge(Fold(base, Steps(branches, order)).value, Tips(branches, order))
      <==> Tips(branches, order) == Tips(AllFrozen(base, branches), order)
    ensures OnlyAdds(base, Fold(base, Steps(branches, order)).value)
  {
    MergeIffDisjoint(base, branches, order);
    var snap := Fold(base, Steps(branches, order)).value;
    var tips, others := Tips(branches, order), Tips(AllFrozen(base, branches), order);
    if IsMerge(snap, tips) {
      forall b | 0 <= b < |branches| ensures tips[b] == others[b] {
        FrozenTips(base, branches, order, b);
        assert OnlyAdds(tips[b], snap) && OnlyAdds(others[b], snap);
        SameDefinitions(tips[b], others[b], snap);
      }
    }
    FoldGrows(base, Steps(branches, order));
  }

  /** Same names: the patch is empty and applying it changes nothing. */
  lemma NothingToAdd(base: Tables, tip: Tables)
    requires SameNames(base, tip)
    ensures Applicable(base, DiffSnap(tip, base)) && Apply(base, DiffSnap(tip, base)) == base
  {
    var p := DiffSnap(tip, base);
    forall t | t in base ensures t !in p.cols {
      assert KeepsColumns(tip[t], base[t]);
    }
    EqualOnKeys(Apply(base, p), base);
  }

  lemma OneStep(base: Tables, tip: Tables)
    ensures var branches := [[base, tip]];
      Schedule(branches, [0]) && Tips(branches, [0]) == [tip] && Steps(branches, [0]) == [DiffSnap(tip, base)]
  {
    var branches := [[base, tip]];
    PositionsSnoc(1, [], 0);
    assert [] + [0] == [0] && [0][..0] == [];
    assert Positions(1, [0]) == [1];
    StepsSnoc(branches, [0]);
    assert Steps(branches, []) == [];
  }

  /** A branch whose one step adds nothing: the merge passes and is the base, whatever the step redefines. */
  lemma OneIdleStep(base: Tables, tip: Tables)
    requires SameNames(base, tip)
    ensures var branches := [[base, tip]];
      && Branches(base, branches) && Schedule(branches, [0])
      && Fold(base, Steps(branches, [0])) == Some(base) && Tips(branches, [0]) == [tip]
  {
    var p := DiffSnap(tip, base);
    OneStep(base, tip);
    assert IsBranch(base, [base, tip]);
    NothingToAdd(base, tip);
    assert Fold(base, []) == Some(base) && [] + [p] == [p];
    FoldSnoc(base, [], p);
  }

  /** For instance a branch that only changes the type of a column: the merge passes without the change. */
  lemma RedefinedColumnIsLost()
    ensures var base: Tables := map["t" := Table(map["c" := "int"], "")];
      var branches := [[base, map["t" := Table(map["c" := "text"], "")]]];
      && Branches(base, branches) && Schedule(branches, [0])
      && Fold(base, Steps(branches, [0])) == Some(base)
      && !IsMerge(base, Tips(branches, [0]))
  {
    var base: Tables := map["t" := Table(map["c" := "int"], "")];
    var tip: Tables := map["t" := Table(map["c" := "text"], "")];
    assert SameNames(base, tip);
    OneIdleStep(base, tip);
    assert tip["t"].columns["c"][0] != base["t"].columns["c"][0];
    assert Tips([[base, tip]], [0])[0] == tip && !Grows(tip["t"], base["t"]);
  }

  lemma {:induction false} FoldGrows(base: Tables, ps: seq<Patch>)
    requires Fold(base, ps).Some?
    ensures OnlyAdds(base, Fold(base, ps).value)
  {
    if ps != [] {
      var before := ps[..|ps| - 1];
      FoldGrows(base, before);
      ApplyGrows(Fold(base, before).value, ps[|ps| - 1]);
      OnlyAddsTransitive(base, Fold(base, before).value, Fold(base, ps).value);
    }
  }

  // ---------------------------------------------------------------- ORDER

  const BASE_TAG := "0135_address_change_requests"

  const ORDER: seq<string> := [
    "0136_gift_cards", "0137_referrals", "0138_w44_preorders", "0139_w44_custom_offers",
    "0140_service_appointments", "0141_subscriptions", "0142_digital_pins"]

  /** BRANCH_REFS: the branch each tag of ORDER comes from. */
  const ORDER_BRANCHES: seq<nat> := [0, 0, 1, 1, 2, 2, 2]

  /** BRANCH_PREV, in ORDER's order. */
  const ORDER_PREV: seq<string> := [
    BASE_TAG, "0136_gift_cards", BASE_TAG, "0138_w44_preorders",
    BASE_TAG, "0140_service_appointments", "0141_subscriptions"]

  /** The tags of each branch's own chain, from the base on. */
  const BRANCH_TAGS: seq<seq<string>> := [
    [BASE_TAG, "0136_gift_cards", "0137_referrals"],
    [BASE_TAG, "0138_w44_preorders", "0139_w44_custom_offers"],
    [BASE_TAG, "0140_service_appointments", "0141_subscriptions", "0142_digital_pins"]]

  /** How far the branches have got before each step of ORDER, and at the end. */
  const ORDER_POSITIONS: seq<seq<nat>> := [
    [0, 0, 0], [1, 0, 0], [2, 0, 0], [2, 1, 0], [2, 2, 0], [2, 2, 1], [2, 2, 2], [2, 2, 3]]

  lemma PositionsSnoc(n: nat, order: seq<nat>, b: nat)
    requires b < n
    ensures Positions(n, order + [b]) == Positions(n, order)[b := Positions(n, order)[b] + 1]
  {
    assert (order + [b])[..|order|] == order;
  }

  lemma PositionsTable(k: nat)
    requires 0 < k <= |ORDER|
    ensures var before, b := ORDER_POSITIONS[k - 1], ORDER_BRANCHES[k - 1];
      b < 3 == |before| && ORDER_POSITIONS[k] == before[b := before[b] + 1]
  {
  }

  lemma {:induction false} OrderPositions(k: nat)
    requires k <= |ORDER|
    ensures Positions(3, ORDER_BRANCHES[..k]) == ORDER_POSITIONS[k]
  {
    if k == 0 {
      assert ORDER_BRANCHES[..0] == [];
    } else {
      OrderPositions(k - 1);
      PositionsTable(k);
      PositionsSnoc(3, ORDER_BRANCHES[..k - 1], ORDER_BRANCHES[k - 1]);
      assert ORDER_BRANCHES[..k] == ORDER_BRANCHES[..k - 1] + [ORDER_BRANCHES[k - 1]];
    }
  }

  /** At step k the loop loads the branch's next snapshot, and BRANCH_PREV names the one before it. */
  lemma OrderChainsBranches(k: nat)
    requires k < |ORDER|
    ensures var b := ORDER_BRANCHES[k];
      var i := Positions(3, ORDER_BRANCHES[..k])[b];
      && i + 1 < |BRANCH_TAGS[b]|
      && BRANCH_TAGS[b][i + 1] == ORDER[k] && BRANCH_TAGS[b][i] == ORDER_PREV[k]
  {
    OrderPositions(k);
  }

  /** ORDER takes all the steps of the three branches, each branch's in its own order. */
  lemma OrderIsSchedule(branches: seq<seq<Tables>>)
    requires |branches| == 3 && |branches[0]| == 3 && |branches[1]| == 3 && |branches[2]| == 4
    ensures Schedule(branches, ORDER_BRANCHES)
    ensures Positions(3, ORDER_BRANCHES) == [2, 2, 3]
  {
    OrderPositions(|ORDER|);
    assert ORDER_BRANCHES[..|ORDER|] == ORDER_BRANCHES;
  }

  // ---------------------------------------------------------------- the snapshot chain

  datatype Snapshot = Snapshot(id: string, prevId: string, tables: Tables)

  /** Snapshot k carries its own new id, points at the one before, and holds the merge so far. */
  predicate Linked(files: seq<Snapshot>, base: Snapshot, ids: seq<string>)
    requires |files| <= |ids|
  {
    forall k {:trigger files[k]} :: 0 <= k < |files| ==>
      files[k].id == ids[k] && files[k].prevId == IdBefore(base, ids, k)
  }

  function IdBefore(base: Snapshot, ids: seq<string>, k: nat): string
    requires k <= |ids|
  {
    if k == 0 then base.id else ids[k - 1]
  }

  function Merged(snap: Tables, step: Step): Option<Tables> {
    var p := DiffSnap(step.newer, step.older);
    if Applicable(snap, p) then Some(Apply(snap, p)) else None
  }

  method MergeStep(snap: Tables, step: Step) returns (r: Option<Tables>)
    ensures r == Merged(snap, step)
  {
    var patch := DiffSnapLoop(step.newer, step.older);
    r := ApplyLoop(snap, patch);
  }

  /** The merge after k steps; None once an assertion has failed. */
  function After(base: Tables, steps: seq<Step>, k: nat): Option<Tables>
    requires k <= |steps|
  {
    if k == 0 then Some(base)
    else
      var before := After(base, steps, k - 1);
      if before.Some? then Merged(before.value, steps[k - 1]) else None
  }

  lemma {:induction false} AfterIsFold(base: Tables, steps: seq<Step>, k: nat)
    requires k <= |steps|
    ensures After(base, steps, k) == Fold(base, Diffs(steps)[..k])
  {
    if k != 0 {
      AfterIsFold(base, steps, k - 1);
      assert Diffs(steps)[..k][..k - 1] == Diffs(steps)[..k - 1];
    }
  }

  lemma AfterAllIsFold(base: Tables, steps: seq<Step>)
    ensures After(base, steps, |steps|) == Fold(base, Diffs(steps))
  {
    AfterIsFold(base, steps, |steps|);
    assert Diffs(steps)[..|steps|] == Diffs(steps);
  }

  lemma {:induction false} StaysFailed(base: Tables, steps: seq<Step>, k: nat, n: nat)
    requires k <= n <= |steps| && After(base, steps, k).None?
    ensures After(base, steps, n).None?
  {
    if k < n {
      StaysFailed(base, steps, k, n - 1);
    }
  }

  /** Snapshot k as written: linked to the one before, and the merge so far. */
  predicate FileOk(f: Snapshot, base: Snapshot, steps: seq<Step>, ids: seq<string>, k: nat)
    requires k < |ids| == |steps|
  {
    f.id == ids[k] && f.prevId == IdBefore(base, ids, k) && After(base.tables, steps, k + 1) == Some(f.tables)
  }

  predicate Written(files: seq<Snapshot>, base: Snapshot, steps: seq<Step>, ids: seq<string>)
    requires |files| <= |ids| == |steps|
  {
    forall k :: 0 <= k < |files| ==> FileOk(files[k], base, steps, ids, k)
  }

  lemma WrittenSnoc(files: seq<Snapshot>, base: Snapshot, steps: seq<Step>, ids: seq<string>, f: Snapshot)
    requires |files| < |ids| == |steps| && Written(files, base, steps, ids)
    requires FileOk(f, base, steps, ids, |files|)
    ensures Written(files + [f], base, steps, ids)
  {
    var more := files + [f];
    forall k | 0 <= k < |more| ensures FileOk(more[k], base, steps, ids, k) {
      assert k < |files| ==> more[k] == files[k] && FileOk(files[k], base, steps, ids, k);
    }
  }

  lemma WrittenIsLinked(files: seq<Snapshot>, base: Snapshot, steps: seq<Step>, ids: seq<string>)
    requires |files| <= |ids| == |steps| && Written(files, base, steps, ids)
    ensures Linked(files, base, ids)
  {
    forall k {:trigger files[k]} | 0 <= k < |files|
      ensures files[k].id == ids[k] && files[k].prevId == IdBefore(base, ids, k)
    {
      assert FileOk(files[k], base, steps, ids, k);
    }
  }

  /** snap is the merge after k steps. */
  predicate MergedSoFar(base: Tables, steps: seq<Step>, k: nat, snap: Tables)
    requires k <= |steps|
  {
    After(base, steps, k) == Some(snap)
  }

  /** One round of the loop: the file it writes, or None when an assertion of `apply` fails. */
  method WriteStep(base: Snapshot, steps: seq<Step>, ids: seq<string>, ghost files: seq<Snapshot>, k: nat,
                   snap: Tables, prevId: string) returns (file: Option<Snapshot>)
    requires k == |files| < |ids| == |steps| && Written(files, base, steps, ids)
    requires MergedSoFar(base.tables, steps, k, snap) && prevId == IdBefore(base, ids, k)
    ensures file.Some? ==> Written(files + [file.value], base, steps, ids)
    ensures file.Some? ==> MergedSoFar(base.tables, steps, k + 1, file.value.tables)
    ensures file.None? ==> After(base.tables, steps, |steps|).None?
  {
    var next := MergeStep(snap, steps[k]);
    AfterNext(base.tables, steps, k);
    if next.None? {
      StaysFailed(base.tables, steps, k + 1, |steps|);
      return None;
    }
    WriteNext(files, base, steps, ids, snap, next.value);
    file := Some(Snapshot(ids[k], prevId, next.value));
  }

  /** The main loop: one file per step, or None when an assertion of `apply` fails. */
  method RechainLoop(base: Snapshot, steps: seq<Step>, ids: seq<string>) returns (r: Option<seq<Snapshot>>)
    requires |ids| == |steps|
    ensures r.Some? <==> After(base.tables, steps, |steps|).Some?
    ensures r.Some? ==> |r.value| == |steps| && Written(r.value, base, steps, ids)
  {
    var snap, prevId := base.tables, base.id;
    var files: seq<Snapshot> := [];
    for k := 0 to |steps|
      invariant |files| == k && Written(files, base, steps, ids)
      invariant prevId == IdBefore(base, ids, k)
      invariant MergedSoFar(base.tables, steps, k, snap)
    {
      var file := WriteStep(base, steps, ids, files, k, snap, prevId);
      if file.None? {
        return None;
      }
      files := files + [file.value];
      snap, prevId := file.value.tables, ids[k];
    }
    r := Some(files);
  }

  lemma WriteNext(files: seq<Snapshot>, base: Snapshot, steps: seq<Step>, ids: seq<string>, snap: Tables, next: Tables)
    requires |files| < |ids| == |steps| && Written(files, base, steps, ids)
    requires After(base.tables, steps, |files|) == Some(snap) && Merged(snap, steps[|files|]) == Some(next)
    ensures var f := Snapshot(ids[|files|], IdBefore(base, ids, |files|), next);
      Written(files + [f], base, steps, ids)
  {
    AfterNext(base.tables, steps, |files|);
    WrittenSnoc(files, base, steps, ids, Snapshot(ids[|files|], IdBefore(base, ids, |files|), next));
  }

  lemma AfterNext(base: Tables, steps: seq<Step>, k: nat)
    requires k < |steps| && After(base, steps, k).Some?
    ensures After(base, steps, k + 1) == Merged(After(base, steps, k).value, steps[k])
  {
  }

  /** Some written snapshot with id x has prevId y. */
  predicate Links(files: seq<Snapshot>, x: string, y: string) {
    exists k :: 0 <= k < |files| && files[k].id == x && files[k].prevId == y
  }

  /** A walk that follows prevId links. */
  predicate Walk(files: seq<Snapshot>, path: seq<string>) {
    path != [] && forall i :: 0 <= i < |path| - 1 ==> Links(files, path[i], path[i + 1])
  }

  predicate FreshIds(base: Snapshot, ids: seq<string>) {
    && (forall a, b :: 0 <= a < b < |ids| ==> ids[a] != ids[b])
    && forall a :: 0 <= a < |ids| ==> ids[a] != base.id
  }

  lemma OnlyLink(files: seq<Snapshot>, base: Snapshot, ids: seq<string>, k: nat, y: string)
    requires |files| == |ids| && Linked(files, base, ids) && FreshIds(base, ids) && k <= |files|
    ensures Links(files, IdBefore(base, ids, k), y) <==> k > 0 && y == IdBefore(base, ids, k - 1)
  {
    if k > 0 {
      assert files[k - 1].id == ids[k - 1] && files[k - 1].prevId == IdBefore(base, ids, k - 1);
    }
    if Links(files, IdBefore(base, ids, k), y) {
      var m :| 0 <= m < |files| && files[m].id == IdBefore(base, ids, k) && files[m].prevId == y;
      assert files[m].id == ids[m];
    }
  }

  /**
    With fresh ids (uuid4), following prevId from the last snapshot can only visit the snapshots
    newest first; it never gets further than |files| links, and after exactly that many it is at
    the base (IdBefore(base, ids, 0)).
   */
  lemma {:induction false} WalksEndAtBase(files: seq<Snapshot>, base: Snapshot, ids: seq<string>, path: seq<string>)
    requires |files| == |ids| && Linked(files, base, ids) && FreshIds(base, ids)
    requires Walk(files, path) && path[0] == IdBefore(base, ids, |files|)
    ensures |path| <= |files| + 1
    ensures path[|path| - 1] == IdBefore(base, ids, |files| + 1 - |path|)
  {
    if |path| > 1 {
      var shorter := path[..|path| - 1];
      WalksEndAtBase(files, base, ids, shorter);
      assert Links(files, path[|path| - 2], path[|path| - 1]);
      OnlyLink(files, base, ids, |files| + 1 - |shorter|, path[|path| - 1]);
    }
  }

  /** And the walk of all |files| links exists. */
  lemma BaseIsReached(files: seq<Snapshot>, base: Snapshot, ids: seq<string>) returns (path: seq<string>)
    requires |files| == |ids| && Linked(files, base, ids) && FreshIds(base, ids)
    ensures Walk(files, path) && path[0] == IdBefore(base, ids, |files|)
    ensures |path| == |files| + 1 && path[|files|] == base.id
  {
    path := seq(|files| + 1, i requires 0 <= i <= |files| => IdBefore(base, ids, |files| - i));
    forall i | 0 <= i < |path| - 1 ensures Links(files, path[i], path[i + 1]) {
      OnlyLink(files, base, ids, |files| - i, path[i + 1]);
    }
  }

  // ---------------------------------------------------------------- the union check

  datatype Missing = MissingTable(t: string) | MissingColumn(t: string, c: string)

  /** all_added after one more patch: whole tables replace, columns are merged in. */
  function Accumulate(acc: map<string, Columns>, p: Patch): map<string, Columns> {
    var withTables := acc + map t | t in p.tables :: p.tables[t].columns;
    withTables + map t | t in p.cols :: (if t in withTables then withTables[t] else map[]) + p.cols[t]
  }

  function AllAdded(ps: seq<Patch>): map<string, Columns> {
    if ps == [] then map[] else Accumulate(AllAdded(ps[..|ps| - 1]), ps[|ps| - 1])
  }

  function UnionMissing(final: Tables, added: map<string, Columns>): set<Missing> {
    (set t | t in added && t !in final :: MissingTable(t))
    + set t, c | t in added && t in final && c in added[t] && c !in final[t].columns :: MissingColumn(t, c)
  }

  /** Patch i adds the table, or columns to it. */
  predicate AddsTo(ps: seq<Patch>, i: nat, t: string) {
    i < |ps| && (t in ps[i].tables || t in ps[i].cols)
  }

  /** Patch i brings the column, and no later one adds the table anew. */
  ghost predicate BringsLast(ps: seq<Patch>, i: nat, t: string, c: string) {
    i < |ps| && BringsColumn(ps[i], t, c) && forall j :: i < j < |ps| ==> t !in ps[j].tables
  }

  lemma AccumulateAdds(acc: map<string, Columns>, p: Patch, t: string, c: string)
    ensures var after := Accumulate(acc, p);
      && (t in after <==> t in acc || t in p.tables || t in p.cols)
      && (t in after ==>
            (c in after[t] <==> BringsColumn(p, t, c) || (t in acc && c in acc[t] && t !in p.tables)))
  {
  }

  /** What the union check looks for is all that any patch added, the last addition of a table counting. */
  lemma {:induction false} AllAddedIs(ps: seq<Patch>, t: string, c: string)
    ensures t in AllAdded(ps) <==> exists i: nat :: AddsTo(ps, i, t)
    ensures t in AllAdded(ps) ==> (c in AllAdded(ps)[t] <==> exists i: nat :: BringsLast(ps, i, t, c))
  {
    if ps != [] {
      var init, n := ps[..|ps| - 1], |ps| - 1;
      hide Accumulate, AddsTo, BringsLast;
      AllAddedIs(init, t, c);
      BringsIsAdds(init, t, c);
      AccumulateAdds(AllAdded(init), ps[n], t, c);
      AddsToSnoc(ps, t);
      BringsLastSnoc(ps, t, c);
    }
  }

  lemma BringsIsAdds(ps: seq<Patch>, t: string, c: string)
    ensures (exists i: nat :: BringsLast(ps, i, t, c)) ==> exists i: nat :: AddsTo(ps, i, t)
  {
    if exists i: nat :: BringsLast(ps, i, t, c) {
      var i: nat :| BringsLast(ps, i, t, c);
      assert AddsTo(ps, i, t);
    }
  }

  lemma AddsToSnoc(ps: seq<Patch>, t: string)
    requires ps != []
    ensures var init, n := ps[..|ps| - 1], |ps| - 1;
      (exists i: nat :: AddsTo(ps, i, t)) <==>
        t in ps[n].tables || t in ps[n].cols || exists i: nat :: AddsTo(init, i, t)
  {
    var init, n := ps[..|ps| - 1], |ps| - 1;
    if exists i: nat :: AddsTo(init, i, t) {
      var i: nat :| AddsTo(init, i, t);
      assert AddsTo(ps, i, t);
    }
    if exists i: nat :: AddsTo(ps, i, t) {
      var i: nat :| AddsTo(ps, i, t);
      assert i < n ==> AddsTo(init, i, t);
    }
    assert t in ps[n].tables || t in ps[n].cols ==> AddsTo(ps, n, t);
  }

  lemma BringsLastSnoc(ps: seq<Patch>, t: string, c: string)
    requires ps != []
    ensures var init, n := ps[..|ps| - 1], |ps| - 1;
      (exists i: nat :: BringsLast(ps, i, t, c)) <==>
        BringsColumn(ps[n], t, c) || (t !in ps[n].tables && exists i: nat :: BringsLast(init, i, t, c))
  {
    var init, n := ps[..|ps| - 1], |ps| - 1;
    if t !in ps[n].tables && exists i: nat :: BringsLast(init, i, t, c) {
      var i: nat :| BringsLast(init, i, t, c);
      assert BringsLast(ps, i, t, c);
    }
    if exists i: nat :: BringsLast(ps, i, t, c) {
      var i: nat :| BringsLast(ps, i, t, c);
      assert i < n ==> BringsLast(init, i, t, c);
    }
    assert BringsColumn(ps[n], t, c) ==> BringsLast(ps, n, t, c);
  }

  /** The check reports exactly the additions that a snapshot lacks, whatever the snapshot is. */
  lemma UnionCheckIsExact(final: Tables, ps: seq<Patch>, t: string, c: string)
    ensures MissingTable(t) in UnionMissing(final, AllAdded(ps)) <==> t !in final && exists i: nat :: AddsTo(ps, i, t)
    ensures MissingColumn(t, c) in UnionMissing(final, AllAdded(ps)) <==>
      t in final && c !in final[t].columns && exists i: nat :: BringsLast(ps, i, t, c)
  {
    hide AllAdded, AddsTo, BringsLast;
    AllAddedIs(ps, t, c);
    BringsIsAdds(ps, t, c);
    MissingIs(final, AllAdded(ps), t, c);
  }

  lemma MissingIs(final: Tables, added: map<string, Columns>, t: string, c: string)
    ensures MissingTable(t) in UnionMissing(final, added) <==> t in added && t !in final
    ensures MissingColumn(t, c) in UnionMissing(final, added) <==>
      t in added && t in final && c in added[t] && c !in final[t].columns
  {
  }

  predicate HoldsAll(snap: Tables, added: map<string, Columns>) {
    forall t :: t in added ==> t in snap && forall c :: c in added[t] ==> c in snap[t].columns
  }

  lemma ApplyHoldsAll(snap: Tables, added: map<string, Columns>, p: Patch)
    requires HoldsAll(snap, added) && Applicable(snap, p)
    ensures HoldsAll(Apply(snap, p), Accumulate(added, p))
  {
    var r, after := Apply(snap, p), Accumulate(added, p);
    forall t | t in after ensures t in r && forall c :: c in after[t] ==> c in r[t].columns {
      assert t in p.cols ==> ColumnsFit(snap, p, t);
      assert t in r && r[t] == Patched(snap, p, t);
    }
  }

  /**
    The union check can never report anything once the merge loop has got through, whatever the
    branch snapshots were: no assumption about the branches is needed.
   */
  lemma {:induction false} UnionCheckFindsNothing(base: Tables, ps: seq<Patch>)
    requires Fold(base, ps).Some?
    ensures UnionMissing(Fold(base, ps).value, AllAdded(ps)) == {}
    ensures HoldsAll(Fold(base, ps).value, AllAdded(ps))
  {
    if ps != [] {
      var before := ps[..|ps| - 1];
      UnionCheckFindsNothing(base, before);
      ApplyHoldsAll(Fold(base, before).value, AllAdded(before), ps[|ps| - 1]);
    }
  }

  // ---------------------------------------------------------------- the whole script

  predicate ThreeBranches(branches: seq<seq<Tables>>) {
    |branches| == 3 && |branches[0]| == 3 && |branches[1]| == 3 && |branches[2]| == 4
  }

  /** What the loop loads for ORDER. */
  function ScriptSteps(branches: seq<seq<Tables>>): (r: seq<Step>)
    requires ThreeBranches(branches)
    ensures |r| == |ORDER|
  {
    OrderIsSchedule(branches);
    BranchSteps(branches, ORDER_BRANCHES)
  }

  lemma {:induction false} BranchStepsPrefix(branches: seq<seq<Tables>>, order: seq<nat>, k: nat)
    requires Schedule(branches, order) && k <= |order|
    ensures Schedule(branches, order[..k])
    ensures BranchSteps(branches, order)[..k] == BranchSteps(branches, order[..k])
    decreases |order|
  {
    if k == |order| {
      assert order[..k] == order;
    } else {
      SchedulePrefix(branches, order);
      var before := order[..|order| - 1];
      BranchStepsPrefix(branches, before, k);
      assert before[..k] == order[..k];
    }
  }

  /** Each branch's own snapshot after the first k steps of ORDER. */
  function TipsAfter(branches: seq<seq<Tables>>, k: nat): seq<Tables>
    requires ThreeBranches(branches) && k <= |ORDER|
  {
    OrderIsSchedule(branches);
    BranchStepsPrefix(branches, ORDER_BRANCHES, k);
    Tips(branches, ORDER_BRANCHES[..k])
  }

  lemma AfterPrefix(base: Tables, branches: seq<seq<Tables>>, order: seq<nat>, k: nat)
    requires Schedule(branches, order) && k <= |order|
    ensures Schedule(branches, order[..k])
    ensures After(base, BranchSteps(branches, order), k) == Fold(base, Steps(branches, order[..k]))
  {
    var steps := BranchSteps(branches, order);
    BranchStepsPrefix(branches, order, k);
    AfterIsFold(base, steps, k);
    assert Diffs(steps)[..k] == Diffs(steps[..k]);
  }

  /** File k has the tables and columns of each branch's own snapshot so far and no others ... */
  ghost predicate FilesHoldBranches(branches: seq<seq<Tables>>, files: seq<Snapshot>)
    requires ThreeBranches(branches) && |files| <= |ORDER|
  {
    forall k {:trigger files[k]} :: 0 <= k < |files| ==> HoldsNames(files[k].tables, TipsAfter(branches, k + 1))
  }

  /** ... and holds those snapshots as they are, if no branch changes a definition. */
  ghost predicate FilesAreMerges(branches: seq<seq<Tables>>, files: seq<Snapshot>)
    requires ThreeBranches(branches) && |files| <= |ORDER|
  {
    forall k {:trigger files[k]} :: 0 <= k < |files| ==> IsMerge(files[k].tables, TipsAfter(branches, k + 1))
  }

  lemma FileHoldsBranches(base: Snapshot, branches: seq<seq<Tables>>, ids: seq<string>, files: seq<Snapshot>, k: nat)
    requires ThreeBranches(branches) && Branches(base.tables, branches)
    requires |files| == |ids| == |ORDER| && Written(files, base, ScriptSteps(branches), ids) && k < |files|
    ensures HoldsNames(files[k].tables, TipsAfter(branches, k + 1))
    ensures ThreeBranches(AllFrozen(base.tables, branches))
    ensures IsMerge(files[k].tables, TipsAfter(AllFrozen(base.tables, branches), k + 1))
    ensures PureBranches(base.tables, branches) ==> IsMerge(files[k].tables, TipsAfter(branches, k + 1))
  {
    OrderIsSchedule(branches);
    AfterPrefix(base.tables, branches, ORDER_BRANCHES, k + 1);
    assert FileOk(files[k], base, ScriptSteps(branches), ids, k);
    MergeIffDisjoint(base.tables, branches, ORDER_BRANCHES[..k + 1]);
    if PureBranches(base.tables, branches) {
      PureMerge(base.tables, branches, ORDER_BRANCHES[..k + 1]);
    }
  }

  /** Following prevId from the last file: one link per file and then the base, never further. */
  ghost predicate ChainEndsAtBase(base: Snapshot, files: seq<Snapshot>)
    requires files != []
  {
    var last := files[|files| - 1].id;
    && (exists path :: Walk(files, path) && path[0] == last && |path| == |files| + 1 && path[|files|] == base.id)
    && (forall path :: Walk(files, path) && path[0] == last ==>
          |path| <= |files| + 1 && (|path| == |files| + 1 ==> path[|files|] == base.id))
  }

  lemma ChainHolds(base: Snapshot, files: seq<Snapshot>, ids: seq<string>)
    requires files != [] && |files| == |ids| && Linked(files, base, ids) && FreshIds(base, ids)
    ensures ChainEndsAtBase(base, files)
  {
    var last := files[|files| - 1].id;
    assert last == IdBefore(base, ids, |files|);
    var path := BaseIsReached(files, base, ids);
    forall other | Walk(files, other) && other[0] == last
      ensures |other| <= |files| + 1 && (|other| == |files| + 1 ==> other[|files|] == base.id)
    {
      WalksEndAtBase(files, base, ids, other);
    }
  }

  /** The last snapshot of each of the three branches. */
  function LastTips(branches: seq<seq<Tables>>): seq<Tables>
    requires ThreeBranches(branches)
  {
    [branches[0][2], branches[1][2], branches[2][3]]
  }

  lemma ScriptTips(branches: seq<seq<Tables>>)
    requires ThreeBranches(branches)
    ensures TipsAfter(branches, |ORDER|) == LastTips(branches)
  {
    OrderIsSchedule(branches);
    assert ORDER_BRANCHES[..|ORDER|] == ORDER_BRANCHES;
  }

  /**
    The script from the three branches to its checks.  It writes its seven files exactly when no two
    branches added the same table or column.  Then file k holds each branch's own snapshot so far,
    everything defined as when it first appeared; the last one is base plus all additions; the union
    check reports nothing; and prevId leads from the last file to the base in exactly seven links.
   */
  method RunScript(base: Snapshot, branches: seq<seq<Tables>>, ids: seq<string>) returns (r: Option<seq<Snapshot>>)
    requires ThreeBranches(branches) && Branches(base.tables, branches)
    requires |ids| == |ORDER| && FreshIds(base, ids)
    ensures r.Some? <==> Disjoint(base.tables, LastTips(branches))
    ensures r.Some? ==> |r.value| == |ORDER| == 7
    ensures r.Some? ==> FilesHoldBranches(branches, r.value)
    ensures ThreeBranches(AllFrozen(base.tables, branches))
    ensures r.Some? ==> FilesAreMerges(AllFrozen(base.tables, branches), r.value)
    ensures r.Some? && PureBranches(base.tables, branches) ==> FilesAreMerges(branches, r.value)
    ensures r.Some? ==> HoldsNames(r.value[6].tables, LastTips(branches)) && OnlyAdds(base.tables, r.value[6].tables)
    ensures r.Some? ==> UnionMissing(r.value[6].tables, AllAdded(Diffs(ScriptSteps(branches)))) == {}
    ensures r.Some? ==> ChainEndsAtBase(base, r.value)
  {
    r := RechainLoop(base, ScriptSteps(branches), ids);
    AfterAllIsFold(base.tables, ScriptSteps(branches));
    ScriptPasses(base.tables, branches);
    if r.Some? {
      ScriptHolds(base, branches, ids, r.value);
      WrittenIsLinked(r.value, base, ScriptSteps(branches), ids);
      ChainHolds(base, r.value, ids);
    }
  }

  lemma ScriptPasses(base: Tables, branches: seq<seq<Tables>>)
    requires ThreeBranches(branches) && Branches(base, branches)
    ensures Fold(base, Diffs(ScriptSteps(branches))).Some? <==> Disjoint(base, LastTips(branches))
  {
    OrderIsSchedule(branches);
    ScriptTips(branches);
    assert ORDER_BRANCHES[..|ORDER|] == ORDER_BRANCHES;
    MergeIffDisjoint(base, branches, ORDER_BRANCHES);
  }

  lemma ScriptHolds(base: Snapshot, branches: seq<seq<Tables>>, ids: seq<string>, files: seq<Snapshot>)
    requires ThreeBranches(branches) && Branches(base.tables, branches)
    requires |files| == |ids| == |ORDER| && Written(files, base, ScriptSteps(branches), ids)
    ensures FilesHoldBranches(branches, files)
    ensures ThreeBranches(AllFrozen(base.tables, branches))
    ensures FilesAreMerges(AllFrozen(base.tables, branches), files)
    ensures PureBranches(base.tables, branches) ==> FilesAreMerges(branches, files)
    ensures HoldsNames(files[6].tables, LastTips(branches)) && OnlyAdds(base.tables, files[6].tables)
    ensures UnionMissing(files[6].tables, AllAdded(Diffs(ScriptSteps(branches)))) == {}
  {
    forall k | 0 <= k < |files|
      ensures HoldsNames(files[k].tables, TipsAfter(branches, k + 1))
      ensures IsMerge(files[k].tables, TipsAfter(AllFrozen(base.tables, branches), k + 1))
      ensures PureBranches(base.tables, branches) ==> IsMerge(files[k].tables, TipsAfter(branches, k + 1))
    {
      FileHoldsBranches(base, branches, ids, files, k);
    }
    ScriptTips(branches);
    AfterAllIsFold(base.tables, ScriptSteps(branches));
    assert FileOk(files[6], base, ScriptSteps(branches), ids, 6);
    assert Fold(base.tables, Diffs(ScriptSteps(branches))) == Some(files[6].tables);
    FoldGrows(base.tables, Diffs(ScriptSteps(branches)));
    UnionCheckFindsNothing(base.tables, Diffs(ScriptSteps(branches)));
  }

  // ---------------------------------------------------------------- the journal

  datatype Entry = Entry(idx: int, when: int, tag: string)

  function UpTo135(j: seq<Entry>): seq<Entry> {
    if j == [] then [] else (if j[0].idx <= 135 then [j[0]] else []) + UpTo135(j[1..])
  }

  /** The tags the final check compares with ORDER. */
  function TagsFrom136(j: seq<Entry>): seq<string> {
    if j == [] then [] else (if j[0].idx >= 136 then [j[0].tag] else []) + TagsFrom136(j[1..])
  }

  /** The two keep, in sequence, the entries with an index up to 135 and the tags of the others. */
  lemma JournalIsCut(j: seq<Entry>, e: Entry)
    ensures UpTo135(j + [e]) == UpTo135(j) + if e.idx <= 135 then [e] else []
    ensures TagsFrom136(j + [e]) == TagsFrom136(j) + if e.idx <= 135 then [] else [e.tag]
  {
    OldSnoc(j, e);
    if e.idx >= 136 {
      TagsSnoc(j, e);
    } else {
      OldTagsSnoc(j, e);
    }
  }

  lemma {:induction false} OldSnoc(j: seq<Entry>, e: Entry)
    ensures UpTo135(j + [e]) == UpTo135(j) + if e.idx <= 135 then [e] else []
  {
    if j == [] {
      assert [e][1..] == [] && j + [e] == [e];
    } else {
      var first := if j[0].idx <= 135 then [j[0]] else [];
      var more := if e.idx <= 135 then [e] else [];
      assert (j + [e])[0] == j[0] && (j + [e])[1..] == j[1..] + [e];
      OldSnoc(j[1..], e);
      assert first + (UpTo135(j[1..]) + more) == (first + UpTo135(j[1..])) + more;
    }
  }

  lemma {:induction false} OldTagsSnoc(j: seq<Entry>, e: Entry)
    requires e.idx <= 135
    ensures TagsFrom136(j + [e]) == TagsFrom136(j)
  {
    if j == [] {
      assert [e][1..] == [] && j + [e] == [e];
    } else {
      assert (j + [e])[0] == j[0] && (j + [e])[1..] == j[1..] + [e];
      OldTagsSnoc(j[1..], e);
    }
  }

  /** Index and time go on from the last entry up to 135. */
  function NewEntry(j: seq<Entry>, order: seq<string>, k: nat): Entry
    requires UpTo135(j) != [] && k < |order|
  {
    Entry(136 + k, UpTo135(j)[|UpTo135(j)| - 1].when + (k + 1) * 100000, order[k])
  }

  /** entries is the old list up to 135 and then one new entry per tag so far. */
  predicate Rebuilt(j: seq<Entry>, order: seq<string>, entries: seq<Entry>) {
    var old135 := UpTo135(j);
    && |old135| <= |entries| <= |old135| + |order| && entries[..|old135|] == old135
    && TagsFrom136(entries) == order[..|entries| - |old135|]
    && (old135 != [] ==>
          forall k :: 0 <= k < |entries| - |old135| ==> entries[|old135| + k] == NewEntry(j, order, k))
  }

  /** After the old entries, indices from 136 on and times 100 s apart. */
  predicate GoesOn(old135: seq<Entry>, order: seq<string>, entries: seq<Entry>) {
    && old135 != [] && old135 <= entries && |entries| == |old135| + |order|
    && forall k {:trigger entries[k]} :: |old135| <= k < |entries| ==>
         && Follows(entries[k], old135[|old135| - 1], k - |old135| + 1)
         && entries[k].tag == order[k - |old135|]
  }

  /** e is the n-th entry after last. */
  predicate Follows(e: Entry, last: Entry, n: int) {
    e.idx == 135 + n && e.when - last.when == 100000 * n
  }

  lemma RebuiltGoesOn(j: seq<Entry>, order: seq<string>, entries: seq<Entry>)
    requires UpTo135(j) != [] && Rebuilt(j, order, entries) && |entries| == |UpTo135(j)| + |order|
    ensures GoesOn(UpTo135(j), order, entries)
  {
    var old135 := UpTo135(j);
    assert entries[..|old135|] == old135;
    forall k {:trigger entries[k]} | |old135| <= k < |entries|
      ensures Follows(entries[k], old135[|old135| - 1], k - |old135| + 1) && entries[k].tag == order[k - |old135|]
    {
      assert entries[|old135| + (k - |old135|)] == NewEntry(j, order, k - |old135|);
    }
  }

  lemma RebuiltSnoc(j: seq<Entry>, order: seq<string>, entries: seq<Entry>, e: Entry)
    requires Rebuilt(j, order, entries) && |entries| < |UpTo135(j)| + |order| && UpTo135(j) != []
    requires e == NewEntry(j, order, |entries| - |UpTo135(j)|)
    ensures Rebuilt(j, order, entries + [e])
  {
    TagsSnoc(entries, e);
  }

  /**
    The rebuild: `rebuilt` is the list the code appends to, `written` what it dumps.  The code
    never stores the list back, so it dumps the journal it read.  None: no entry up to 135.
   */
  method RebuildJournal(j: seq<Entry>, order: seq<string>) returns (rebuilt: Option<seq<Entry>>, written: seq<Entry>)
    ensures written == j
    ensures rebuilt.None? <==> UpTo135(j) == []
    ensures rebuilt.Some? ==>
      && |rebuilt.value| == |UpTo135(j)| + |order| && Rebuilt(j, order, rebuilt.value)
      && TagsFrom136(rebuilt.value) == order
    ensures rebuilt.Some? ==> GoesOn(UpTo135(j), order, rebuilt.value)
  {
    written := j;
    var entries := UpTo135(j);
    if entries == [] {
      return None, j;
    }
    var baseWhen := entries[|entries| - 1].when;
    NoTagsUpTo135(j);
    for i := 0 to |order|
      invariant |entries| == |UpTo135(j)| + i && Rebuilt(j, order, entries)
    {
      var e := Entry(136 + i, baseWhen + (i + 1) * 100000, order[i]);
      RebuiltSnoc(j, order, entries, e);
      entries := entries + [e];
    }
    assert order[..|order|] == order;
    RebuiltGoesOn(j, order, entries);
    rebuilt := Some(entries);
  }

  lemma {:induction false} NoTagsUpTo135(j: seq<Entry>)
    ensures TagsFrom136(UpTo135(j)) == []
  {
    if j != [] {
      NoTagsUpTo135(j[1..]);
      if j[0].idx <= 135 {
        assert UpTo135(j)[1..] == UpTo135(j[1..]);
      } else {
        assert UpTo135(j) == UpTo135(j[1..]);
      }
    }
  }

  lemma {:induction false} TagsSnoc(j: seq<Entry>, e: Entry)
    requires e.idx >= 136
    ensures TagsFrom136(j + [e]) == TagsFrom136(j) + [e.tag]
  {
    if j == [] {
      assert [e][1..] == [];
    } else {
      var first := if j[0].idx >= 136 then [j[0].tag] else [];
      assert (j + [e])[0] == j[0] && (j + [e])[1..] == j[1..] + [e];
      TagsSnoc(j[1..], e);
      assert first + (TagsFrom136(j[1..]) + [e.tag]) == (first + TagsFrom136(j[1..])) + [e.tag];
    }
  }

  /**
    So the final assertion `tags == ORDER` holds exactly when the journal on disk ended with
    ORDER before the script ran; a journal without those entries, which the rebuild is for, fails it.
   */
  method CheckJournalAfterRebuild(j: seq<Entry>) returns (passes: bool)
    ensures passes <==> UpTo135(j) != [] && TagsFrom136(j) == ORDER
    ensures (forall k :: 0 <= k < |j| ==> j[k].idx <= 135) ==> !passes
  {
    var rebuilt, written := RebuildJournal(j, ORDER);
    passes := rebuilt.Some? && TagsFrom136(written) == ORDER;
    if forall k :: 0 <= k < |j| ==> j[k].idx <= 135 {
      OnlyOldEntries(j);
    }
  }

  lemma {:induction false} OnlyOldEntries(j: seq<Entry>)
    requires forall k :: 0 <= k < |j| ==> j[k].idx <= 135
    ensures TagsFrom136(j) == []
  {
    if j != [] {
      assert forall k :: 0 <= k < |j[1..]| ==> j[1..][k] == j[k + 1];
      OnlyOldEntries(j[1..]);
    }
  }
}
