/**
  The phases of a plan over all tables: missing tables first, then the columns,
  defaults, indexes and constraints of every table. A phase that runs on each
  table taken alone runs on the schema, and after all of them every table is
  synced. What follows from that is the subject of `SchemaConverge`.
 */
module SchemaPhases {
  import opened Wrappers
  import opened SchemaModel
  import opened SchemaPlan
  import opened SchemaSync
  import opened SortedNames

  // ----- Missing tables

  /** The schema once all missing tables exist. */
  function WithTables(live: Schema, ds: seq<DesiredTable>): Schema {
    if ds == [] then live
    else
      var m, d := WithTables(live, ds[..|ds| - 1]), ds[|ds| - 1];
      if d.name in live then m else m[d.name := NewTable(d.name, d.system)]
  }

  lemma {:induction false} WithTablesKeys(live: Schema, ds: seq<DesiredTable>)
    ensures WithTables(live, ds).Keys == live.Keys + TableNames(ds)
    ensures forall n :: n in live ==> WithTables(live, ds)[n] == live[n]
  {
    if ds != [] {
      WithTablesKeys(live, ds[..|ds| - 1]);
      assert ds == ds[..|ds| - 1] + [ds[|ds| - 1]];
      TableNamesGrow(ds[..|ds| - 1], ds[|ds| - 1]);
    }
  }

  lemma {:induction false} WithTablesExact(live: Schema, ds: seq<DesiredTable>)
    requires DistinctTables(ds)
    ensures WithTables(live, ds).Keys == live.Keys + TableNames(ds)
    ensures forall n :: n in live ==> WithTables(live, ds)[n] == live[n]
    ensures forall i :: 0 <= i < |ds| && ds[i].name !in live ==>
      ds[i].name in WithTables(live, ds) && WithTables(live, ds)[ds[i].name] == NewTable(ds[i].name, ds[i].system)
  {
    WithTablesKeys(live, ds);
    if ds != [] {
      var front := ds[..|ds| - 1];
      WithTablesExact(live, front);
      assert forall i :: 0 <= i < |front| ==> ds[i] == front[i];
      LastTableExact(live, ds, WithTables(live, front), WithTables(live, ds));
    }
  }

  lemma LastTableExact(live: Schema, ds: seq<DesiredTable>, m: Schema, all: Schema)
    requires DistinctTables(ds) && ds != []
    requires var d := ds[|ds| - 1]; all == if d.name in live then m else m[d.name := NewTable(d.name, d.system)]
    requires live.Keys <= m.Keys
    requires forall i :: 0 <= i < |ds| - 1 && ds[i].name !in live ==>
      ds[i].name in m && m[ds[i].name] == NewTable(ds[i].name, ds[i].system)
    ensures forall i :: 0 <= i < |ds| && ds[i].name !in live ==>
      ds[i].name in all && all[ds[i].name] == NewTable(ds[i].name, ds[i].system)
  {
  }

  lemma {:induction false} CreatePhase(live: Schema, ds: seq<DesiredTable>)
    requires DistinctTables(ds)
    ensures ExecAll(PhaseOps(Creates, live, ds), live) == Some(WithTables(live, ds))
  {
    if ds != [] {
      var front, d := ds[..|ds| - 1], ds[|ds| - 1];
      CreatePhase(live, front);
      CreateOneMore(live, front, d, ds);
    }
  }

  lemma CreateOneMore(live: Schema, front: seq<DesiredTable>, d: DesiredTable, ds: seq<DesiredTable>)
    requires DistinctTables(ds) && ds != [] && front == ds[..|ds| - 1] && d == ds[|ds| - 1]
    requires ExecAll(PhaseOps(Creates, live, front), live) == Some(WithTables(live, front))
    ensures ExecAll(PhaseOps(Creates, live, ds), live) == Some(WithTables(live, ds))
  {
    var m := WithTables(live, front);
    assert ds == front + [d];
    LastTableNew(live, front, d);
    ExecOneMore(Creates, live, front, d, m);
    ExecCreates(live, d, m);
  }

  lemma LastTableNew(live: Schema, front: seq<DesiredTable>, d: DesiredTable)
    requires DistinctTables(front + [d])
    ensures var m := WithTables(live, front); live.Keys <= m.Keys && (d.name in m ==> d.name in live)
  {
    var ds := front + [d];
    assert forall i :: 0 <= i < |front| ==> front[i] == ds[i];
    assert forall i :: 0 <= i < |front| ==> ds[i].name != ds[|front|].name;
    WithTablesExact(live, front);
  }

  lemma ExecOneMore(p: Phase, live: Schema, front: seq<DesiredTable>, d: DesiredTable, m: Schema)
    requires ExecAll(PhaseOps(p, live, front), live) == Some(m)
    ensures ExecAll(PhaseOps(p, live, front + [d]), live) == ExecAll(TableOps(p, live, d), m)
  {
    PhaseOneMore(p, live, front, d);
    ExecSplits(PhaseOps(p, live, front), TableOps(p, live, d), live);
  }

  lemma ExecCreates(live: Schema, d: DesiredTable, m: Schema)
    requires live.Keys <= m.Keys && (d.name in m ==> d.name in live)
    ensures ExecAll(TableOps(Creates, live, d), m)
         == Some(if d.name in live then m else m[d.name := NewTable(d.name, d.system)])
  {
    if d.name !in live {
      assert TableOps(Creates, live, d)[..0] == [];
    }
  }

  lemma TableNamesGrow(front: seq<DesiredTable>, d: DesiredTable)
    ensures TableNames(front + [d]) == TableNames(front) + {d.name}
  {
    forall n | n in TableNames(front) ensures n in TableNames(front + [d]) {
      var i :| 0 <= i < |front| && front[i].name == n;
      assert (front + [d])[i].name == n;
    }
    assert (front + [d])[|front|].name == d.name;
  }

  // ----- The other phases

  lemma RunPhase(p: Phase, live: Schema, ds: seq<DesiredTable>, s: Schema) returns (s': Schema)
    requires DistinctTables(ds)
    requires forall i :: 0 <= i < |ds| ==> Runs(PartOf(p, live, ds[i]), s)
    ensures ExecAll(PhaseOps(p, live, ds), s) == Some(s') && s'.Keys == s.Keys
    ensures forall i :: 0 <= i < |ds| ==> Ran(PartOf(p, live, ds[i]), s, s')
  {
    var parts := Parts(p, live, ds);
    s' := RunParts(parts, s);
    forall i | 0 <= i < |ds| ensures Ran(PartOf(p, live, ds[i]), s, s') { assert Ran(parts[i], s, s'); }
  }

  function Known(d: DesiredTable): set<string> {
    SchemaModel.Names(d.system) + SchemaModel.Names(d.columns)
  }

  /** A table as sync leaves it, given what it was before. */
  ghost predicate TableDone(live: Schema, d: DesiredTable, s: Schema) {
    && d.name in s && Synced(d, Known(d), s[d.name])
    && Extends(Start(ContextOf(live, d), d), s[d.name])
    && s[d.name].columns.Keys == Start(ContextOf(live, d), d).columns.Keys + Known(d)
    && forall i :: 0 <= i < |d.system| ==> SystemColumnKept(Start(ContextOf(live, d), d), d.system[i], s[d.name])
  }

  /** A table before its statements run: nothing about it blocks, and it is in place. */
  ghost predicate Ready(live: Schema, d: DesiredTable, s0: Schema) {
    && Clean(ContextOf(live, d), d) && WellNamed(d, s0.Keys)
    && d.name in s0 && s0[d.name] == Start(ContextOf(live, d), d)
  }

  ghost predicate FourPhases(live: Schema, d: DesiredTable, s0: Schema, s1: Schema, s2: Schema, s3: Schema, s: Schema) {
    && Ran(PartOf(Columns, live, d), s0, s1) && Ran(PartOf(Defaults, live, d), s1, s2)
    && Ran(PartOf(Indexes, live, d), s2, s3) && Ran(PartOf(Constraints, live, d), s3, s)
  }

  /** On one table, four phases that ran one after the other leave it synced. */
  lemma TableEndsSynced(live: Schema, d: DesiredTable, s0: Schema, s1: Schema, s2: Schema, s3: Schema, s: Schema)
    requires Ready(live, d, s0) && FourPhases(live, d, s0, s1, s2, s3, s)
    requires s0.Keys == s1.Keys == s2.Keys == s3.Keys
    ensures TableDone(live, d, s)
  {
    var x := ContextOf(live, d);
    var t1, t2, t3, t := TableSync(x, d, s0.Keys);
    CleanAvailable(x, d);
  }

  lemma TableRuns(live: Schema, d: DesiredTable, s0: Schema)
    requires Ready(live, d, s0)
    ensures Runs(PartOf(Columns, live, d), s0)
    ensures forall s1: Schema :: s1.Keys == s0.Keys && Ran(PartOf(Columns, live, d), s0, s1) ==>
      Runs(PartOf(Defaults, live, d), s1)
    ensures forall s1: Schema, s2: Schema ::
      s1.Keys == s2.Keys == s0.Keys && Ran(PartOf(Columns, live, d), s0, s1) && Ran(PartOf(Defaults, live, d), s1, s2) ==>
      Runs(PartOf(Indexes, live, d), s2)
    ensures forall s1: Schema, s2: Schema, s3: Schema ::
      s1.Keys == s2.Keys == s3.Keys == s0.Keys && Ran(PartOf(Columns, live, d), s0, s1) &&
      Ran(PartOf(Defaults, live, d), s1, s2) && Ran(PartOf(Indexes, live, d), s2, s3) ==>
      Runs(PartOf(Constraints, live, d), s3)
  {
    var x := ContextOf(live, d);
    var t1, t2, t3, t := TableSync(x, d, s0.Keys);
    ItemOpsOnTable(x, Items(Columns, d));
    ItemOpsOnTable(x, Items(Defaults, d));
    ItemOpsOnTable(x, Items(Indexes, d));
    ItemOpsOnTable(x, Items(Constraints, d));
  }

  lemma InPlace(desired: seq<DesiredTable>, live: Schema, i: nat)
    requires DistinctTables(desired) && i < |desired|
    ensures var d, s0 := desired[i], WithTables(live, desired);
      d.name in s0 && s0[d.name] == Start(ContextOf(live, d), d)
  {
    WithTablesExact(live, desired);
    assert desired[i].name in TableNames(desired);
  }

  lemma ReadyAt(desired: seq<DesiredTable>, live: Schema, i: nat)
    requires DistinctTables(desired) && live.Keys <= TableNames(desired) && i < |desired|
    requires WellNamed(desired[i], TableNames(desired)) && Clean(ContextOf(live, desired[i]), desired[i])
    ensures Ready(live, desired[i], WithTables(live, desired))
  {
    assert WithTables(live, desired).Keys == TableNames(desired) by { WithTablesExact(live, desired); }
    InPlace(desired, live, i);
  }

  lemma AllReady(desired: seq<DesiredTable>, live: Schema)
    requires WellFormed(desired) && live.Keys <= TableNames(desired)
    requires forall d :: d in desired ==> Clean(ContextOf(live, d), d)
    ensures WithTables(live, desired).Keys == TableNames(desired)
    ensures forall i :: 0 <= i < |desired| ==> Ready(live, desired[i], WithTables(live, desired))
  {
    assert WithTables(live, desired).Keys == TableNames(desired) by { WithTablesExact(live, desired); }
    forall i | 0 <= i < |desired| ensures Ready(live, desired[i], WithTables(live, desired)) {
      assert desired[i] in desired;
      ReadyAt(desired, live, i);
    }
  }

  lemma RunPhases(desired: seq<DesiredTable>, live: Schema, s0: Schema)
      returns (s1: Schema, s2: Schema, s3: Schema, s: Schema)
    requires DistinctTables(desired)
    requires forall i :: 0 <= i < |desired| ==> Ready(live, desired[i], s0)
    ensures s0.Keys == s1.Keys == s2.Keys == s3.Keys == s.Keys
    ensures ExecAll(PhaseOps(Columns, live, desired), s0) == Some(s1)
    ensures ExecAll(PhaseOps(Defaults, live, desired), s1) == Some(s2)
    ensures ExecAll(PhaseOps(Indexes, live, desired), s2) == Some(s3)
    ensures ExecAll(PhaseOps(Constraints, live, desired), s3) == Some(s)
    ensures forall i :: 0 <= i < |desired| ==> FourPhases(live, desired[i], s0, s1, s2, s3, s)
  {
    forall i | 0 <= i < |desired| ensures Runs(PartOf(Columns, live, desired[i]), s0) {
      TableRuns(live, desired[i], s0);
    }
    s1 := RunPhase(Columns, live, desired, s0);
    forall i | 0 <= i < |desired| ensures Runs(PartOf(Defaults, live, desired[i]), s1) {
      TableRuns(live, desired[i], s0);
    }
    s2 := RunPhase(Defaults, live, desired, s1);
    forall i | 0 <= i < |desired| ensures Runs(PartOf(Indexes, live, desired[i]), s2) {
      TableRuns(live, desired[i], s0);
    }
    s3 := RunPhase(Indexes, live, desired, s2);
    forall i | 0 <= i < |desired| ensures Runs(PartOf(Constraints, live, desired[i]), s3) {
      TableRuns(live, desired[i], s0);
    }
    s := RunPhase(Constraints, live, desired, s3);
  }

  lemma JoinPhases(desired: seq<DesiredTable>, live: Schema, s0: Schema, s1: Schema, s2: Schema, s3: Schema, s: Schema)
    requires ExecAll(PhaseOps(Creates, live, desired), live) == Some(s0)
    requires ExecAll(PhaseOps(Columns, live, desired), s0) == Some(s1)
    requires ExecAll(PhaseOps(Defaults, live, desired), s1) == Some(s2)
    requires ExecAll(PhaseOps(Indexes, live, desired), s2) == Some(s3)
    requires ExecAll(PhaseOps(Constraints, live, desired), s3) == Some(s)
    ensures ExecAll(PlanFor(desired, live).operations, live) == Some(s)
  {
    var a, b, c, e, f := PhaseOps(Creates, live, desired), PhaseOps(Columns, live, desired),
      PhaseOps(Defaults, live, desired), PhaseOps(Indexes, live, desired), PhaseOps(Constraints, live, desired);
    ExecSplits(a, b, live);
    ExecSplits(a + b, c, live);
    ExecSplits(a + b + c, e, live);
    ExecSplits(a + b + c + e, f, live);
  }
}
