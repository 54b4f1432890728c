/**
  The statements of a prune: which they are, table by table, and what is left of
  a table and of a schema when they have executed. What a prune as a whole comes
  to, and how often it has to be repeated, is the subject of `SchemaPrune`.
 */
module SchemaDrops {
  import opened Wrappers
  import opened SchemaModel
  import opened SchemaPlan
  import opened SchemaSync
  import opened SortedNames

  // ----- The statements

  function DropConstraints(table: string, names: seq<string>): seq<Op> {
    seq(|names|, i requires 0 <= i < |names| => DropConstraint(table, names[i]))
  }

  function DropIndexes(table: string, names: seq<string>): seq<Op> {
    seq(|names|, i requires 0 <= i < |names| => DropIndex(table, names[i]))
  }

  function DropColumns(table: string, names: seq<string>): seq<Op> {
    seq(|names|, i requires 0 <= i < |names| => DropColumn(table, names[i]))
  }

  function DropTables(names: seq<string>): seq<Op> {
    seq(|names|, i requires 0 <= i < |names| => DropTable(names[i]))
  }

  /** The desired tables, by name. */
  function Ordered(desired: seq<DesiredTable>): (r: seq<DesiredTable>)
    ensures forall d :: d in r ==> d in desired
    ensures |r| == |TableNames(desired)|
    ensures forall i :: 0 <= i < |r| ==> r[i].name == Sorted(TableNames(desired))[i]
  {
    var names := Sorted(TableNames(desired));
    seq(|names|, i requires 0 <= i < |names| => assert names[i] in TableNames(desired); Lookup(desired, names[i]))
  }

  function Lookup(desired: seq<DesiredTable>, name: string): (d: DesiredTable)
    requires name in TableNames(desired)
    ensures d in desired && d.name == name
  {
    if desired[|desired| - 1].name == name then desired[|desired| - 1]
    else
      assert name in TableNames(desired[..|desired| - 1]) by {
        var i :| 0 <= i < |desired| && desired[i].name == name;
        assert desired[..|desired| - 1][i] == desired[i];
      }
      Lookup(desired[..|desired| - 1], name)
  }

  datatype PrunePhase = PruneConstraints | PruneIndexes | PruneColumns

  function PruneOps(p: PrunePhase, live: Schema, d: DesiredTable): seq<Op> {
    if d.name !in live then []
    else match p
      case PruneConstraints => DropConstraints(d.name, Sorted(ExtraConstraintSet(d, live[d.name])))
      case PruneIndexes => DropIndexes(d.name, Sorted(ExtraIndexSet(d, live[d.name])))
      case PruneColumns => DropColumns(d.name, Sorted(ExtraColumnSet(d, live[d.name])))
  }

  function PrunePhaseOps(p: PrunePhase, live: Schema, ds: seq<DesiredTable>): seq<Op> {
    if ds == [] then [] else PrunePhaseOps(p, live, ds[..|ds| - 1]) + PruneOps(p, live, ds[|ds| - 1])
  }

  lemma PruneOneMore(p: PrunePhase, live: Schema, ds: seq<DesiredTable>, i: nat)
    requires i < |ds|
    ensures PrunePhaseOps(p, live, ds[..i + 1]) == PrunePhaseOps(p, live, ds[..i]) + PruneOps(p, live, ds[i])
  {
    assert ds[..i + 1][..i] == ds[..i];
  }

  // ----- What they do to one table

  function Members(names: seq<string>): set<string> {
    set i | 0 <= i < |names| :: names[i]
  }

  lemma MembersOfSorted(s: set<string>)
    ensures Members(Sorted(s)) == s
  {
    forall n | n in s ensures n in Members(Sorted(s)) {
      assert n in Sorted(s);
    }
    forall n | n in Members(Sorted(s)) ensures n in s {
      var i :| 0 <= i < |Sorted(s)| && Sorted(s)[i] == n;
      assert Sorted(s)[i] in Sorted(s);
    }
  }

  lemma MembersGrow(front: seq<string>, n: string)
    ensures Members(front + [n]) == Members(front) + {n}
  {
    forall m | m in Members(front) ensures m in Members(front + [n]) {
      var i :| 0 <= i < |front| && front[i] == m;
      assert (front + [n])[i] == m;
    }
    assert (front + [n])[|front|] == n;
  }

  function WithoutConstraints(t: Table, gone: set<string>): Table {
    t.(constraints := t.constraints - gone,
       indexes := t.indexes - set n | n in gone && n in t.constraints && OwnsIndex(t.constraints[n].kind))
  }

  function WithoutIndexes(t: Table, gone: set<string>): Table {
    t.(indexes := t.indexes - gone)
  }

  predicate Touches(columns: seq<string>, gone: set<string>) {
    exists c :: c in columns && c in gone
  }

  function WithoutColumns(t: Table, gone: set<string>): Table {
    t.(columns := t.columns - gone,
       indexes := map n | n in t.indexes && !Touches(t.indexes[n].columns, gone) :: t.indexes[n],
       constraints := map n | n in t.constraints && !Touches(t.constraints[n].columns, gone) :: t.constraints[n])
  }

  lemma {:induction false} ConstraintsDropped(table: string, names: seq<string>, t: Table, tables: set<string>)
    requires ExecTable(DropConstraints(table, names), t, tables).Some?
    ensures ExecTable(DropConstraints(table, names), t, tables) == Some(WithoutConstraints(t, Members(names)))
  {
    if names == [] {
      assert Members(names) == {} && DropConstraints(table, names) == [];
      assert WithoutConstraints(t, {}).indexes == t.indexes && WithoutConstraints(t, {}).constraints == t.constraints;
    } else {
      var front, last := names[..|names| - 1], names[|names| - 1];
      assert DropConstraints(table, names)[..|names| - 1] == DropConstraints(table, front);
      assert names == front + [last];
      MembersGrow(front, last);
      ConstraintsDropped(table, front, t, tables);
      var m, after := WithoutConstraints(t, Members(front)), WithoutConstraints(t, Members(names));
      var got := Changed(DropConstraint(table, last), m);
      assert last in m.constraints && m.constraints[last] == t.constraints[last];
      assert got.constraints == after.constraints;
      assert got.indexes == after.indexes;
    }
  }

  lemma {:induction false} IndexesDropped(table: string, names: seq<string>, t: Table, tables: set<string>)
    requires ExecTable(DropIndexes(table, names), t, tables).Some?
    ensures ExecTable(DropIndexes(table, names), t, tables) == Some(WithoutIndexes(t, Members(names)))
  {
    if names == [] {
      assert Members(names) == {} && DropIndexes(table, names) == [];
      assert WithoutIndexes(t, {}).indexes == t.indexes;
    } else {
      var front, last := names[..|names| - 1], names[|names| - 1];
      assert DropIndexes(table, names)[..|names| - 1] == DropIndexes(table, front);
      assert names == front + [last];
      MembersGrow(front, last);
      IndexesDropped(table, front, t, tables);
      var m := WithoutIndexes(t, Members(front));
      assert Changed(DropIndex(table, last), m).indexes == WithoutIndexes(t, Members(names)).indexes;
    }
  }

  lemma {:induction false} ColumnsDropped(table: string, names: seq<string>, t: Table, tables: set<string>)
    requires ExecTable(DropColumns(table, names), t, tables).Some?
    ensures ExecTable(DropColumns(table, names), t, tables) == Some(WithoutColumns(t, Members(names)))
  {
    if names == [] {
      assert Members(names) == {} && DropColumns(table, names) == [];
      ColumnsUntouched(t);
    } else {
      var front, last := names[..|names| - 1], names[|names| - 1];
      assert DropColumns(table, names)[..|names| - 1] == DropColumns(table, front);
      assert names == front + [last];
      MembersGrow(front, last);
      ColumnsDropped(table, front, t, tables);
      OneColumnMore(table, t, Members(front), last);
    }
  }

  lemma ColumnsUntouched(t: Table)
    ensures WithoutColumns(t, {}) == t
  {
    assert forall s: seq<string> :: !Touches(s, {});
    var u := WithoutColumns(t, {});
    assert u.columns == t.columns && u.indexes == t.indexes && u.constraints == t.constraints;
  }

  lemma OneColumnMore(table: string, t: Table, gone: set<string>, last: string)
    ensures Changed(DropColumn(table, last), WithoutColumns(t, gone)) == WithoutColumns(t, gone + {last})
  {
    forall s: seq<string> ensures Touches(s, gone + {last}) <==> Touches(s, gone) || last in s {
      if last in s { assert last in gone + {last}; }
    }
    var a, b := Changed(DropColumn(table, last), WithoutColumns(t, gone)), WithoutColumns(t, gone + {last});
    assert a.columns == b.columns;
    assert a.indexes == b.indexes;
    assert a.constraints == b.constraints;
  }

  /** A desired table after all its prune statements. */
  function Pruned(d: DesiredTable, t: Table): Table {
    WithoutColumns(WithoutIndexes(WithoutConstraints(t, ExtraConstraintSet(d, t)), ExtraIndexSet(d, t)),
                   ExtraColumnSet(d, t))
  }

  // ----- What they do to the schema

  function PruneParts(p: PrunePhase, live: Schema, ds: seq<DesiredTable>): seq<Part> {
    if ds == [] then []
    else
      var d := ds[|ds| - 1];
      PruneParts(p, live, ds[..|ds| - 1]) + if d.name in live then [Part(d.name, PruneOps(p, live, d))] else []
  }

  predicate IsPartOf(part: Part, p: PrunePhase, live: Schema, ds: seq<DesiredTable>) {
    exists d :: d in ds && d.name in live && part == Part(d.name, PruneOps(p, live, d))
  }

  lemma {:induction false} PruneIsItsParts(p: PrunePhase, live: Schema, ds: seq<DesiredTable>)
    ensures PrunePhaseOps(p, live, ds) == Join(PruneParts(p, live, ds))
  {
    if ds != [] {
      var front, d := ds[..|ds| - 1], ds[|ds| - 1];
      PruneIsItsParts(p, live, front);
      var parts, before := PruneParts(p, live, ds), PruneParts(p, live, front);
      if d.name in live {
        assert parts[..|parts| - 1] == before;
      } else {
        assert parts == before;
      }
    }
  }

  lemma {:induction false} PrunePartsExact(p: PrunePhase, live: Schema, ds: seq<DesiredTable>)
    ensures forall part :: part in PruneParts(p, live, ds) <==> IsPartOf(part, p, live, ds)
  {
    if ds != [] {
      var front, d := ds[..|ds| - 1], ds[|ds| - 1];
      PrunePartsExact(p, live, front);
      assert ds == front + [d];
      forall part ensures IsPartOf(part, p, live, ds)
        <==> IsPartOf(part, p, live, front) || (d.name in live && part == Part(d.name, PruneOps(p, live, d))) {
      }
    }
  }

  lemma {:induction false} PrunePartsDistinct(p: PrunePhase, live: Schema, ds: seq<DesiredTable>)
    requires DistinctTables(ds)
    ensures DistinctParts(PruneParts(p, live, ds))
  {
    if ds != [] {
      var front, d := ds[..|ds| - 1], ds[|ds| - 1];
      PrunePartsDistinct(p, live, front);
      PrunePartsExact(p, live, front);
      var before := PruneParts(p, live, front);
      if d.name in live {
        forall part | part in before ensures part.table != d.name { }
      }
    }
  }

  lemma {:induction false} TablesDropped(names: seq<string>, s: Schema)
    requires ExecAll(DropTables(names), s).Some?
    ensures ExecAll(DropTables(names), s) == Some(s - Members(names))
  {
    if names == [] {
      assert Members(names) == {} && DropTables(names) == [];
      assert s - {} == s;
    } else {
      var front, last := names[..|names| - 1], names[|names| - 1];
      assert DropTables(names)[..|names| - 1] == DropTables(front);
      assert names == front + [last];
      MembersGrow(front, last);
      TablesDropped(front, s);
      assert s - Members(names) == (s - Members(front)) - {last};
    }
  }

  lemma OrderedHas(desired: seq<DesiredTable>, d: DesiredTable)
    requires DistinctTables(desired) && d in desired
    ensures d in Ordered(desired)
  {
    var names := Sorted(TableNames(desired));
    assert d.name in TableNames(desired);
    var i :| 0 <= i < |names| && names[i] == d.name;
    var e := Ordered(desired)[i];
    assert e.name == d.name && e in desired;
    var a :| 0 <= a < |desired| && desired[a] == d;
    var b :| 0 <= b < |desired| && desired[b] == e;
  }

  lemma OrderedDistinct(desired: seq<DesiredTable>)
    ensures DistinctTables(Ordered(desired))
  {
    forall i, j | 0 <= i < j < |Ordered(desired)| ensures Ordered(desired)[i].name != Ordered(desired)[j].name {
      LessTrichotomy(Sorted(TableNames(desired))[i], Sorted(TableNames(desired))[j]);
    }
  }

  /** One phase over all tables: each desired live table ends where its own statements take it. */
  lemma PhasePruned(p: PrunePhase, live: Schema, ds: seq<DesiredTable>, s: Schema, s': Schema)
    requires DistinctTables(ds) && s.Keys == live.Keys
    requires ExecAll(PrunePhaseOps(p, live, ds), s) == Some(s')
    ensures s'.Keys == live.Keys
    ensures forall d :: d in ds && d.name in live ==> ExecTable(PruneOps(p, live, d), s[d.name], s.Keys) == Some(s'[d.name])
  {
    PruneIsItsParts(p, live, ds);
    PrunePartsExact(p, live, ds);
    PrunePartsDistinct(p, live, ds);
    var parts := PruneParts(p, live, ds);
    forall i | 0 <= i < |parts| ensures OnTable(parts[i].ops, parts[i].table) && parts[i].table in live {
      assert parts[i] in parts;
    }
    PartsRan(parts, s, s');
    forall d | d in ds && d.name in live
      ensures ExecTable(PruneOps(p, live, d), s[d.name], s.Keys) == Some(s'[d.name])
    {
      var part := Part(d.name, PruneOps(p, live, d));
      assert IsPartOf(part, p, live, ds);
      PartRan(parts, part, s, s');
    }
  }

  lemma PartRan(parts: seq<Part>, part: Part, s: Schema, s': Schema)
    requires part in parts && AllRan(parts, s, s')
    ensures Ran(part, s, s')
  {
    var i :| 0 <= i < |parts| && parts[i] == part;
    assert Ran(parts[i], s, s');
  }

  lemma TablePruned(d: DesiredTable, live: Schema, s1: Schema, s2: Schema, s3: Schema)
    requires d.name in live && live.Keys == s1.Keys == s2.Keys == s3.Keys
    requires ExecTable(PruneOps(PruneConstraints, live, d), live[d.name], live.Keys) == Some(s1[d.name])
    requires ExecTable(PruneOps(PruneIndexes, live, d), s1[d.name], s1.Keys) == Some(s2[d.name])
    requires ExecTable(PruneOps(PruneColumns, live, d), s2[d.name], s2.Keys) == Some(s3[d.name])
    ensures s3[d.name] == Pruned(d, live[d.name])
  {
    PruneOpsOf(d, live);
    TableDrops(d, live[d.name], s1[d.name], s2[d.name], s3[d.name], live.Keys);
  }

  lemma PruneOpsOf(d: DesiredTable, live: Schema)
    requires d.name in live
    ensures PruneOps(PruneConstraints, live, d) == DropConstraints(d.name, Sorted(ExtraConstraintSet(d, live[d.name])))
    ensures PruneOps(PruneIndexes, live, d) == DropIndexes(d.name, Sorted(ExtraIndexSet(d, live[d.name])))
    ensures PruneOps(PruneColumns, live, d) == DropColumns(d.name, Sorted(ExtraColumnSet(d, live[d.name])))
  {
  }

  lemma TableDrops(d: DesiredTable, t: Table, t1: Table, t2: Table, t3: Table, tables: set<string>)
    requires ExecTable(DropConstraints(d.name, Sorted(ExtraConstraintSet(d, t))), t, tables) == Some(t1)
    requires ExecTable(DropIndexes(d.name, Sorted(ExtraIndexSet(d, t))), t1, tables) == Some(t2)
    requires ExecTable(DropColumns(d.name, Sorted(ExtraColumnSet(d, t))), t2, tables) == Some(t3)
    ensures t3 == Pruned(d, t)
  {
    var constraints, indexes, columns := Sorted(ExtraConstraintSet(d, t)), Sorted(ExtraIndexSet(d, t)),
      Sorted(ExtraColumnSet(d, t));
    MembersOfSorted(ExtraConstraintSet(d, t));
    MembersOfSorted(ExtraIndexSet(d, t));
    MembersOfSorted(ExtraColumnSet(d, t));
    ConstraintsDropped(d.name, constraints, t, tables);
    IndexesDropped(d.name, indexes, t1, tables);
    ColumnsDropped(d.name, columns, t2, tables);
  }

  lemma TablesPruned(ds: seq<DesiredTable>, live: Schema, s1: Schema, s2: Schema, s3: Schema)
    requires DistinctTables(ds)
    requires ExecAll(PrunePhaseOps(PruneConstraints, live, ds), live) == Some(s1)
    requires ExecAll(PrunePhaseOps(PruneIndexes, live, ds), s1) == Some(s2)
    requires ExecAll(PrunePhaseOps(PruneColumns, live, ds), s2) == Some(s3)
    ensures s3.Keys == live.Keys
    ensures forall d :: d in ds && d.name in live ==> s3[d.name] == Pruned(d, live[d.name])
  {
    PhasePruned(PruneConstraints, live, ds, live, s1);
    PhasePruned(PruneIndexes, live, ds, s1, s2);
    PhasePruned(PruneColumns, live, ds, s2, s3);
    forall d | d in ds && d.name in live ensures s3[d.name] == Pruned(d, live[d.name]) {
      TablePruned(d, live, s1, s2, s3);
    }
  }

  lemma DesiredTablesStay(desired: seq<DesiredTable>, live: Schema, s3: Schema, s: Schema)
    requires DistinctTables(desired) && s3.Keys == live.Keys && s == s3 - ExtraTableSet(desired, live)
    requires forall d :: d in Ordered(desired) && d.name in live ==> s3[d.name] == Pruned(d, live[d.name])
    ensures s.Keys == live.Keys * TableNames(desired)
    ensures forall d :: d in desired && d.name in live ==> d.name in s && s[d.name] == Pruned(d, live[d.name])
  {
    forall d | d in desired && d.name in live ensures d.name in s && s[d.name] == Pruned(d, live[d.name]) {
      OrderedHas(desired, d);
      var i :| 0 <= i < |desired| && desired[i] == d;
      assert d.name in TableNames(desired);
    }
  }

  lemma DropsEnd(desired: seq<DesiredTable>, live: Schema, s3: Schema, s: Schema)
    requires s3.Keys == live.Keys
    requires ExecAll(DropTables(Sorted(ExtraTableSet(desired, live))), s3) == Some(s)
    ensures s == s3 - ExtraTableSet(desired, live)
  {
    var gone := ExtraTableSet(desired, live);
    MembersOfSorted(gone);
    TablesDropped(Sorted(gone), s3);
  }

  // ----- Drops that execute

  lemma {:induction false} IndexDropsRun(table: string, names: seq<string>, t: Table, tables: set<string>)
    requires forall i :: 0 <= i < |names| ==> names[i] in t.indexes && names[i] !in t.constraints
    requires forall i, j :: 0 <= i < j < |names| ==> names[i] != names[j]
    ensures ExecTable(DropIndexes(table, names), t, tables).Some?
  {
    if names != [] {
      var front, last := names[..|names| - 1], names[|names| - 1];
      assert DropIndexes(table, names)[..|names| - 1] == DropIndexes(table, front);
      IndexDropsRun(table, front, t, tables);
      IndexesDropped(table, front, t, tables);
      assert last in t.indexes && last !in Members(front);
    }
  }

  lemma NoStatements(p: PrunePhase, live: Schema, ds: seq<DesiredTable>)
    requires forall d :: d in ds ==> PruneOps(p, live, d) == []
    ensures PrunePhaseOps(p, live, ds) == []
  {
    if ds != [] { NoStatements(p, live, ds[..|ds| - 1]); }
  }

  lemma {:induction false} ConstraintDropsRun(table: string, names: seq<string>, t: Table, tables: set<string>)
    requires forall i :: 0 <= i < |names| ==> names[i] in t.constraints
    requires forall i, j :: 0 <= i < j < |names| ==> names[i] != names[j]
    ensures ExecTable(DropConstraints(table, names), t, tables).Some?
  {
    if names != [] {
      var front, last := names[..|names| - 1], names[|names| - 1];
      assert DropConstraints(table, names)[..|names| - 1] == DropConstraints(table, front);
      ConstraintDropsRun(table, front, t, tables);
      ConstraintsDropped(table, front, t, tables);
      assert last in t.constraints && last !in Members(front);
    }
  }

  lemma {:induction false} ColumnDropsRun(table: string, names: seq<string>, t: Table, tables: set<string>)
    requires forall i :: 0 <= i < |names| ==> names[i] in t.columns
    requires forall i, j :: 0 <= i < j < |names| ==> names[i] != names[j]
    ensures ExecTable(DropColumns(table, names), t, tables).Some?
  {
    if names != [] {
      var front, last := names[..|names| - 1], names[|names| - 1];
      assert DropColumns(table, names)[..|names| - 1] == DropColumns(table, front);
      ColumnDropsRun(table, front, t, tables);
      ColumnsDropped(table, front, t, tables);
      assert last in t.columns && last !in Members(front);
    }
  }

  lemma SortedDistinct(s: set<string>)
    ensures forall i, j :: 0 <= i < j < |Sorted(s)| ==> Sorted(s)[i] != Sorted(s)[j]
    ensures forall i :: 0 <= i < |Sorted(s)| ==> Sorted(s)[i] in s
  {
    forall i, j | 0 <= i < j < |Sorted(s)| ensures Sorted(s)[i] != Sorted(s)[j] {
      LessTrichotomy(Sorted(s)[i], Sorted(s)[j]);
    }
    forall i | 0 <= i < |Sorted(s)| ensures Sorted(s)[i] in s { assert Sorted(s)[i] in Sorted(s); }
  }

  /** A table's own prune statements always execute, phase by phase. */
  lemma TableDropsRun(d: DesiredTable, live: Schema)
    requires d.name in live
    ensures var t := live[d.name];
      var t1 := WithoutConstraints(t, ExtraConstraintSet(d, t));
      && ExecTable(PruneOps(PruneConstraints, live, d), t, live.Keys).Some?
      && ExecTable(PruneOps(PruneIndexes, live, d), t1, live.Keys).Some?
      && ExecTable(PruneOps(PruneColumns, live, d), WithoutIndexes(t1, ExtraIndexSet(d, t)), live.Keys).Some?
  {
    var t := live[d.name];
    var t1 := WithoutConstraints(t, ExtraConstraintSet(d, t));
    PruneOpsOf(d, live);
    SortedDistinct(ExtraConstraintSet(d, t));
    SortedDistinct(ExtraIndexSet(d, t));
    SortedDistinct(ExtraColumnSet(d, t));
    ConstraintDropsRun(d.name, Sorted(ExtraConstraintSet(d, t)), t, live.Keys);
    IndexDropsRun(d.name, Sorted(ExtraIndexSet(d, t)), t1, live.Keys);
    ColumnDropsRun(d.name, Sorted(ExtraColumnSet(d, t)), WithoutIndexes(t1, ExtraIndexSet(d, t)), live.Keys);
  }

  ghost predicate PhaseCanRun(p: PrunePhase, live: Schema, ds: seq<DesiredTable>, s: Schema) {
    s.Keys == live.Keys && forall d :: d in ds && d.name in live ==> ExecTable(PruneOps(p, live, d), s[d.name], s.Keys).Some?
  }

  /** Tables that are not among the desired ones are as before. */
  ghost predicate OthersStay(ds: seq<DesiredTable>, s: Schema, s': Schema) {
    forall n :: n in s && (forall d :: d in ds ==> d.name != n) ==> n in s' && s'[n] == s[n]
  }

  lemma PruneOpsOnTable(p: PrunePhase, live: Schema, d: DesiredTable)
    ensures OnTable(PruneOps(p, live, d), d.name)
  {
  }

  lemma PhaseRuns(p: PrunePhase, live: Schema, ds: seq<DesiredTable>, s: Schema) returns (s': Schema)
    requires DistinctTables(ds) && PhaseCanRun(p, live, ds, s)
    ensures ExecAll(PrunePhaseOps(p, live, ds), s) == Some(s')
    ensures OthersStay(ds, s, s')
  {
    PruneIsItsParts(p, live, ds);
    PrunePartsExact(p, live, ds);
    PrunePartsDistinct(p, live, ds);
    var parts := PruneParts(p, live, ds);
    forall i | 0 <= i < |parts| ensures Runs(parts[i], s) {
      assert IsPartOf(parts[i], p, live, ds) by { assert parts[i] in parts; }
      var d :| d in ds && d.name in live && parts[i] == Part(d.name, PruneOps(p, live, d));
      PruneOpsOnTable(p, live, d);
    }
    s' := RunParts(parts, s);
    forall n | n in s && (forall d :: d in ds ==> d.name != n) ensures n in s' && s'[n] == s[n] {
      forall i | 0 <= i < |parts| ensures parts[i].table != n {
        assert IsPartOf(parts[i], p, live, ds) by { assert parts[i] in parts; }
      }
    }
  }

  /** All prune statements on desired tables execute, up to the drops of whole tables. */
  lemma DesiredDropsRun(ds: seq<DesiredTable>, live: Schema) returns (s: Schema)
    requires DistinctTables(ds)
    ensures ExecAll(PrunePhaseOps(PruneConstraints, live, ds) + PrunePhaseOps(PruneIndexes, live, ds)
                    + PrunePhaseOps(PruneColumns, live, ds), live) == Some(s)
    ensures s.Keys == live.Keys
    ensures forall d :: d in ds && d.name in live ==> s[d.name] == Pruned(d, live[d.name])
    ensures OthersStay(ds, live, s)
  {
    var a, b, c := PrunePhaseOps(PruneConstraints, live, ds), PrunePhaseOps(PruneIndexes, live, ds),
      PrunePhaseOps(PruneColumns, live, ds);
    forall d | d in ds && d.name in live
      ensures ExecTable(PruneOps(PruneConstraints, live, d), live[d.name], live.Keys).Some? { TableDropsRun(d, live); }
    var s1 := PhaseRuns(PruneConstraints, live, ds, live);
    PhasePruned(PruneConstraints, live, ds, live, s1);
    forall d | d in ds && d.name in live
      ensures ExecTable(PruneOps(PruneIndexes, live, d), s1[d.name], s1.Keys).Some?
    {
      TableDropsRun(d, live);
      AfterConstraints(d, live, s1);
    }
    var s2 := PhaseRuns(PruneIndexes, live, ds, s1);
    PhasePruned(PruneIndexes, live, ds, s1, s2);
    forall d | d in ds && d.name in live
      ensures ExecTable(PruneOps(PruneColumns, live, d), s2[d.name], s2.Keys).Some?
    {
      TableDropsRun(d, live);
      AfterConstraints(d, live, s1);
      AfterIndexes(d, live, s1, s2);
    }
    s := PhaseRuns(PruneColumns, live, ds, s2);
    TablesPruned(ds, live, s1, s2, s);
    ExecSplits(a, b, live);
    ExecSplits(a + b, c, live);
  }

  lemma AfterConstraints(d: DesiredTable, live: Schema, s1: Schema)
    requires d.name in live && d.name in s1
    requires ExecTable(PruneOps(PruneConstraints, live, d), live[d.name], live.Keys) == Some(s1[d.name])
    ensures s1[d.name] == WithoutConstraints(live[d.name], ExtraConstraintSet(d, live[d.name]))
  {
    PruneOpsOf(d, live);
    MembersOfSorted(ExtraConstraintSet(d, live[d.name]));
    ConstraintsDropped(d.name, Sorted(ExtraConstraintSet(d, live[d.name])), live[d.name], live.Keys);
  }

  lemma AfterIndexes(d: DesiredTable, live: Schema, s1: Schema, s2: Schema)
    requires d.name in live && d.name in s1 && d.name in s2
    requires ExecTable(PruneOps(PruneIndexes, live, d), s1[d.name], s1.Keys) == Some(s2[d.name])
    ensures s2[d.name] == WithoutIndexes(s1[d.name], ExtraIndexSet(d, live[d.name]))
  {
    PruneOpsOf(d, live);
    MembersOfSorted(ExtraIndexSet(d, live[d.name]));
    IndexesDropped(d.name, Sorted(ExtraIndexSet(d, live[d.name])), s1[d.name], s1.Keys);
  }

  /** Whatever refers to the k-th table that is dropped has been dropped before. */
  ghost predicate FreeByThen(names: seq<string>, s: Schema, k: nat)
    requires k < |names|
  {
    forall m :: m in s && m != names[k] && RefersTo(s[m], names[k]) ==> m in names[..k]
  }

  lemma {:induction false} TableDropsRunIff(names: seq<string>, s: Schema)
    requires forall i :: 0 <= i < |names| ==> names[i] in s
    requires forall i, j :: 0 <= i < j < |names| ==> names[i] != names[j]
    ensures ExecAll(DropTables(names), s).Some? <==> forall k :: 0 <= k < |names| ==> FreeByThen(names, s, k)
  {
    if names != [] {
      var front, n := names[..|names| - 1], |names| - 1;
      assert DropTables(names)[..n] == DropTables(front);
      TableDropsRunIff(front, s);
      assert forall k :: 0 <= k < n ==> names[..k] == front[..k];
      assert forall k :: 0 <= k < n ==> (FreeByThen(names, s, k) <==> FreeByThen(front, s, k));
      if ExecAll(DropTables(front), s).Some? {
        TablesDropped(front, s);
        LastDropRuns(names, s);
      }
    }
  }

  lemma LastDropRuns(names: seq<string>, s: Schema)
    requires names != [] && names[|names| - 1] in s && names[|names| - 1] !in names[..|names| - 1]
    ensures var n := |names| - 1;
      Exec(DropTable(names[n]), s - Members(names[..n])).Some? <==> FreeByThen(names, s, n)
  {
    var n := |names| - 1;
    var left := s - Members(names[..n]);
    assert forall m :: m in Members(names[..n]) <==> m in names[..n];
    assert forall m :: m in left ==> left[m] == s[m];
    if Referenced(left, names[n]) {
      var m :| m in left && m != names[n] && RefersTo(left[m], names[n]);
      assert m in s && m !in names[..n];
    }
    if !FreeByThen(names, s, n) {
      var m :| m in s && m != names[n] && RefersTo(s[m], names[n]) && m !in names[..n];
      assert m in left;
    }
  }

  lemma IndexPhaseRuns(live: Schema, ds: seq<DesiredTable>) returns (s: Schema)
    requires DistinctTables(ds)
    ensures ExecAll(PrunePhaseOps(PruneIndexes, live, ds), live) == Some(s)
  {
    forall d | d in ds && d.name in live
      ensures ExecTable(PruneOps(PruneIndexes, live, d), live[d.name], live.Keys).Some?
    {
      PruneOpsOf(d, live);
      SortedDistinct(ExtraIndexSet(d, live[d.name]));
      IndexDropsRun(d.name, Sorted(ExtraIndexSet(d, live[d.name])), live[d.name], live.Keys);
    }
    s := PhaseRuns(PruneIndexes, live, ds, live);
  }

  // ----- One table

  lemma OnePhase(p: PrunePhase, live: Schema, d: DesiredTable)
    ensures PrunePhaseOps(p, live, [d]) == PruneOps(p, live, d)
  {
    assert [d][..0] == [] && PrunePhaseOps(p, live, []) == [];
  }

  lemma OneDrop(table: string, n: string)
    ensures DropConstraints(table, [n]) + DropIndexes(table, []) + DropColumns(table, []) + DropTables([])
         == [DropConstraint(table, n)]
  {
    assert DropConstraints(table, [n]) == [DropConstraint(table, n)];
    assert DropIndexes(table, []) == [] && DropColumns(table, []) == [] && DropTables([]) == [];
  }

  lemma OneOrdered(d: DesiredTable)
    ensures Ordered([d]) == [d]
  {
    assert [d][0].name in TableNames([d]) && TableNames([d]) == {d.name};
    var ds := Ordered([d]);
    assert |ds| == 1 && ds[0] in [d];
  }

  lemma OneName(n: string)
    ensures Sorted({n}) == [n] && Sorted({}) == []
  {
    var r := Sorted({n});
    assert |r| == 1 && r[0] in r && r[0] in {n};
  }

  lemma OneStatement(op: Op, s: Schema)
    ensures ExecAll([op], s) == Exec(op, s)
  {
    assert [op][..0] == [] && ExecAll([], s) == Some(s);
  }
}
