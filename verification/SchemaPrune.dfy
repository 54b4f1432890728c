/**
  Pruning: destructive statements for what the database has and metadata does
  not, how far one prune goes, and that a second one always goes the rest of the
  way.
 */
module SchemaPrune {
  import opened Wrappers
  import opened SchemaModel
  import opened SchemaPlan
  import opened SchemaSync
  import opened SchemaDrops
  import opened SortedNames

  // ----- The plan

  predicate Prunable(k: DiagnosticKind) {
    k.ExtraTable? || k.ExtraConstraint? || k.ExtraIndex? || k.ExtraColumn?
  }

  function Blockers(ds: seq<Diagnostic>): seq<Diagnostic> {
    if ds == [] then []
    else Blockers(ds[..|ds| - 1]) + if Prunable(ds[|ds| - 1].kind) then [] else [ds[|ds| - 1]]
  }

  function PruneFor(desired: seq<DesiredTable>, live: Schema): Plan {
    var ds := Ordered(desired);
    Plan(PrunePhaseOps(PruneConstraints, live, ds) + PrunePhaseOps(PruneIndexes, live, ds) +
         PrunePhaseOps(PruneColumns, live, ds) + DropTables(Sorted(ExtraTableSet(desired, live))),
         Blockers(PlanFor(desired, live).diagnostics))
  }

  method KeepBlockers(found: seq<Diagnostic>) returns (blockers: seq<Diagnostic>)
    ensures blockers == Blockers(found)
  {
    blockers := [];
    for i := 0 to |found|
      invariant blockers == Blockers(found[..i])
    {
      assert found[..i + 1][..i] == found[..i];
      if !Prunable(found[i].kind) { blockers := blockers + [found[i]]; }
    }
    assert found[..|found|] == found;
  }

  method GatherDrops(live: Schema, ds: seq<DesiredTable>)
      returns (constraints: seq<Op>, indexes: seq<Op>, columns: seq<Op>)
    ensures constraints == PrunePhaseOps(PruneConstraints, live, ds)
    ensures indexes == PrunePhaseOps(PruneIndexes, live, ds)
    ensures columns == PrunePhaseOps(PruneColumns, live, ds)
  {
    constraints, indexes, columns := [], [], [];
    for i := 0 to |ds|
      invariant constraints == PrunePhaseOps(PruneConstraints, live, ds[..i])
      invariant indexes == PrunePhaseOps(PruneIndexes, live, ds[..i])
      invariant columns == PrunePhaseOps(PruneColumns, live, ds[..i])
    {
      PruneOneMore(PruneConstraints, live, ds, i);
      PruneOneMore(PruneIndexes, live, ds, i);
      PruneOneMore(PruneColumns, live, ds, i);
      var c, x, k := PruneOps(PruneConstraints, live, ds[i]), PruneOps(PruneIndexes, live, ds[i]),
        PruneOps(PruneColumns, live, ds[i]);
      constraints, indexes, columns := constraints + c, indexes + x, columns + k;
    }
    assert ds[..|ds|] == ds;
  }

  method BuildSchemaPrunePlan(desired: seq<DesiredTable>, live: Schema) returns (plan: Plan)
    ensures plan == PruneFor(desired, live)
  {
    var metadata := BuildMetadataSchemaPlan(desired, live);
    var blockers := KeepBlockers(metadata.diagnostics);
    var constraints, indexes, columns := GatherDrops(live, Ordered(desired));
    plan := Plan(constraints + indexes + columns + DropTables(Sorted(ExtraTableSet(desired, live))), blockers);
  }

  // ----- What a prune ends with

  lemma PruneSteps(desired: seq<DesiredTable>, live: Schema, s: Schema) returns (s1: Schema, s2: Schema, s3: Schema)
    requires ExecAll(PruneFor(desired, live).operations, live) == Some(s)
    ensures var ds := Ordered(desired);
      && ExecAll(PrunePhaseOps(PruneConstraints, live, ds), live) == Some(s1)
      && ExecAll(PrunePhaseOps(PruneIndexes, live, ds), s1) == Some(s2)
      && ExecAll(PrunePhaseOps(PruneColumns, live, ds), s2) == Some(s3)
    ensures ExecAll(DropTables(Sorted(ExtraTableSet(desired, live))), s3) == Some(s)
  {
    var ds := Ordered(desired);
    var a, b, c := PrunePhaseOps(PruneConstraints, live, ds), PrunePhaseOps(PruneIndexes, live, ds),
      PrunePhaseOps(PruneColumns, live, ds);
    var e := DropTables(Sorted(ExtraTableSet(desired, live)));
    ExecSplits(a, b, live);
    ExecSplits(a + b, c, live);
    ExecSplits(a + b + c, e, live);
    s1 := ExecAll(a, live).value;
    s2 := ExecAll(b, s1).value;
    s3 := ExecAll(c, s2).value;
  }

  /** When all statements execute, undesired tables are gone and desired ones are pruned. */
  lemma PruneEnds(desired: seq<DesiredTable>, live: Schema, s: Schema)
    requires DistinctTables(desired) && ExecAll(PruneFor(desired, live).operations, live) == Some(s)
    ensures s.Keys == live.Keys * TableNames(desired)
    ensures forall d :: d in desired && d.name in live ==> d.name in s && s[d.name] == Pruned(d, live[d.name])
  {
    OrderedDistinct(desired);
    var s1, s2, s3 := PruneSteps(desired, live, s);
    TablesPruned(Ordered(desired), live, s1, s2, s3);
    DropsEnd(desired, live, s3, s);
    DesiredTablesStay(desired, live, s3, s);
  }

  // ----- When a prune executes

  /** What the prune has left of a table when it comes to drop whole tables. */
  function BeforeTables(desired: seq<DesiredTable>, live: Schema, m: string): Table
    requires m in live
  {
    if m in TableNames(desired) then Pruned(Lookup(desired, m), live[m]) else live[m]
  }

  /** A foreign key of m that the prune has not dropped refers to n. */
  predicate StillRefers(desired: seq<DesiredTable>, live: Schema, m: string, n: string) {
    m in live && m != n && RefersTo(BeforeTables(desired, live, m), n)
  }

  /** What still refers to n is an extra table whose name comes earlier. */
  ghost predicate FreeToGo(desired: seq<DesiredTable>, live: Schema, n: string) {
    forall m :: StillRefers(desired, live, m, n) ==> m !in TableNames(desired) && Less(m, n)
  }

  lemma BeforeTablesExact(desired: seq<DesiredTable>, live: Schema, s: Schema)
    requires DistinctTables(desired) && s.Keys == live.Keys && OthersStay(Ordered(desired), live, s)
    requires forall d :: d in Ordered(desired) && d.name in live ==> s[d.name] == Pruned(d, live[d.name])
    ensures forall m :: m in live ==> s[m] == BeforeTables(desired, live, m)
  {
    forall m | m in live ensures s[m] == BeforeTables(desired, live, m) {
      if m in TableNames(desired) {
        OrderedHas(desired, Lookup(desired, m));
      } else {
        forall d | d in Ordered(desired) ensures d.name != m {
          var i :| 0 <= i < |desired| && desired[i] == d;
          assert d.name in TableNames(desired);
        }
      }
    }
  }

  lemma EarlierInOrder(names: seq<string>, gone: set<string>, k: nat, m: string)
    requires names == Sorted(gone) && k < |names|
    ensures m in names[..k] <==> m in gone && Less(m, names[k])
  {
    if m in names[..k] {
      var i :| 0 <= i < k && names[i] == m;
      assert names[i] in names;
    }
    if m in gone && Less(m, names[k]) {
      assert m in names;
      var i :| 0 <= i < |names| && names[i] == m;
      LessTrichotomy(names[i], names[k]);
    }
  }

  lemma FreeInOrder(desired: seq<DesiredTable>, live: Schema, s: Schema, k: nat)
    requires k < |Sorted(ExtraTableSet(desired, live))| && s.Keys == live.Keys
    requires forall m :: m in live ==> s[m] == BeforeTables(desired, live, m)
    ensures var names := Sorted(ExtraTableSet(desired, live));
      FreeByThen(names, s, k) <==> FreeToGo(desired, live, names[k])
  {
    var gone := ExtraTableSet(desired, live);
    var names := Sorted(gone);
    assert names[k] in names;
    forall m | m in live && m != names[k] && RefersTo(s[m], names[k])
      ensures m in names[..k] <==> m !in TableNames(desired) && Less(m, names[k])
    {
      EarlierInOrder(names, gone, k, m);
    }
    assert forall m :: StillRefers(desired, live, m, names[k]) <==> m in s && m != names[k] && RefersTo(s[m], names[k]);
  }

  lemma PruneComesToTables(desired: seq<DesiredTable>, live: Schema) returns (s: Schema)
    requires DistinctTables(desired)
    ensures s.Keys == live.Keys && forall m :: m in live ==> s[m] == BeforeTables(desired, live, m)
    ensures ExecAll(PruneFor(desired, live).operations, live) == ExecAll(DropTables(Sorted(ExtraTableSet(desired, live))), s)
  {
    var ds := Ordered(desired);
    OrderedDistinct(desired);
    s := DesiredDropsRun(ds, live);
    BeforeTablesExact(desired, live, s);
    ExecSplits(PrunePhaseOps(PruneConstraints, live, ds) + PrunePhaseOps(PruneIndexes, live, ds)
               + PrunePhaseOps(PruneColumns, live, ds), DropTables(Sorted(ExtraTableSet(desired, live))), live);
  }

  lemma TablesGoIff(desired: seq<DesiredTable>, live: Schema, s: Schema)
    requires s.Keys == live.Keys && forall m :: m in live ==> s[m] == BeforeTables(desired, live, m)
    ensures ExecAll(DropTables(Sorted(ExtraTableSet(desired, live))), s).Some? <==>
      forall n :: n in ExtraTableSet(desired, live) ==> FreeToGo(desired, live, n)
  {
    var gone := ExtraTableSet(desired, live);
    var names := Sorted(gone);
    SortedDistinct(gone);
    TableDropsRunIff(names, s);
    forall k | 0 <= k < |names| ensures FreeByThen(names, s, k) <==> FreeToGo(desired, live, names[k]) {
      FreeInOrder(desired, live, s, k);
    }
    forall n | n in gone ensures exists k :: 0 <= k < |names| && names[k] == n { assert n in names; }
  }

  /**
    A prune executes exactly when every foreign key that still refers to a table it
    drops is that of a table dropped earlier: the drops stand in the order of names.
   */
  lemma PruneExecutesIff(desired: seq<DesiredTable>, live: Schema)
    requires DistinctTables(desired)
    ensures ExecAll(PruneFor(desired, live).operations, live).Some? <==>
      forall n :: n in live && n !in TableNames(desired) ==> FreeToGo(desired, live, n)
  {
    var s := PruneComesToTables(desired, live);
    TablesGoIff(desired, live, s);
    assert forall n :: n in ExtraTableSet(desired, live) <==> n in live && n !in TableNames(desired);
  }

  /** A table that refers to another one is dropped after it if its name comes later; so the prune is refused. */
  lemma ReferringTableDroppedLate(desired: seq<DesiredTable>, live: Schema, child: string, parent: string)
    requires DistinctTables(desired) && child in live && parent in live && Less(parent, child)
    requires child !in TableNames(desired) && parent !in TableNames(desired) && RefersTo(live[child], parent)
    ensures ExecAll(PruneFor(desired, live).operations, live).None?
  {
    PruneExecutesIff(desired, live);
    LessTrichotomy(parent, child);
    assert StillRefers(desired, live, child, parent);
    assert !FreeToGo(desired, live, parent);
  }

  // ----- How far one prune goes

  /** Metadata indexes and constraints only use metadata columns. */
  predicate OwnColumns(d: DesiredTable) {
    && (forall i :: i in d.indexes ==> forall c :: c in i.columns ==> !IsExtraColumn(d, c))
    && (forall k :: k in d.constraints ==> forall c :: c in k.definition.columns ==> !IsExtraColumn(d, c))
  }

  /** No item of the table has a diagnostic; extra objects are still allowed. */
  ghost predicate Quiet(x: Context, d: DesiredTable) {
    && (forall c :: c in d.system ==> SystemFinding(x, c).diagnostics == [])
    && (forall c :: c in d.columns ==> ColumnFinding(x, c).diagnostics == [])
    && (forall i :: i in d.indexes ==> IndexFinding(x, i).diagnostics == [])
    && (forall c :: c in d.constraints ==> ConstraintFinding(x, c).diagnostics == [])
  }

  /** The constraint goes: it is extra itself, or it uses a column that is. */
  predicate ConstraintGoes(d: DesiredTable, t: Table, n: string)
    requires n in t.constraints
  {
    IsExtraConstraint(d, t, n) || Touches(t.constraints[n].columns, ExtraColumnSet(d, t))
  }

  /** The index goes: with an extra constraint that owns it, for itself, or with an extra column. */
  predicate IndexGoes(d: DesiredTable, t: Table, n: string)
    requires n in t.indexes
  {
    || (n in t.constraints && IsExtraConstraint(d, t, n) && OwnsIndex(t.constraints[n].kind))
    || IsExtraIndex(d, t, n)
    || Touches(t.indexes[n].columns, ExtraColumnSet(d, t))
  }

  /**
    An index metadata does not know, kept from the plan by a constraint of the
    same name, which goes while the index stays.
   */
  predicate Orphan(d: DesiredTable, t: Table, n: string) {
    && n in t.indexes && n !in IndexNames(d.indexes) && n in t.constraints
    && ConstraintGoes(d, t, n) && !IndexGoes(d, t, n)
  }

  lemma PrunedObjects(d: DesiredTable, t: Table)
    ensures var u := Pruned(d, t);
      && u.rows == t.rows
      && u.columns == t.columns - ExtraColumnSet(d, t)
      && (forall n :: n in u.indexes <==> n in t.indexes && !IndexGoes(d, t, n))
      && (forall n :: n in u.indexes ==> u.indexes[n] == t.indexes[n])
      && (forall n :: n in u.constraints <==> n in t.constraints && !ConstraintGoes(d, t, n))
      && (forall n :: n in u.constraints ==> u.constraints[n] == t.constraints[n])
  {
  }

  /** After a prune the table holds nothing extra, orphans apart. */
  lemma NothingExtraIffNoOrphan(d: DesiredTable, t: Table)
    ensures NothingExtra(d, Pruned(d, t)) <==> forall n :: !Orphan(d, t, n)
  {
    var u := Pruned(d, t);
    PrunedObjects(d, t);
    assert forall n :: n in u.columns ==> !IsExtraColumn(d, n);
    assert forall n :: n in u.constraints ==> !IsExtraConstraint(d, u, n);
    forall n ensures n in u.indexes && IsExtraIndex(d, u, n) <==> Orphan(d, t, n) {
    }
  }

  // ----- The next metadata plan

  lemma {:induction false} NoBlockersIffPrunable(ds: seq<Diagnostic>)
    ensures Blockers(ds) == [] <==> forall e :: e in ds ==> Prunable(e.kind)
  {
    if ds != [] {
      NoBlockersIffPrunable(ds[..|ds| - 1]);
      assert ds == ds[..|ds| - 1] + [ds[|ds| - 1]];
    }
  }

  predicate AllPrunable(ds: seq<Diagnostic>) {
    forall e :: e in ds ==> Prunable(e.kind)
  }

  /** What an item reports can never be pruned away. */
  lemma {:induction false} ItemsReportNothingPrunable(x: Context, items: seq<Item>)
    ensures forall e :: e in ItemDiagnostics(x, items) ==> !Prunable(e.kind)
  {
    if items != [] { ItemsReportNothingPrunable(x, items[..|items| - 1]); }
  }

  lemma ItemsPrunableIffNone(x: Context, items: seq<Item>)
    ensures AllPrunable(ItemDiagnostics(x, items)) <==> ItemDiagnostics(x, items) == []
  {
    ItemsReportNothingPrunable(x, items);
    if ItemDiagnostics(x, items) != [] { assert ItemDiagnostics(x, items)[0] in ItemDiagnostics(x, items); }
  }

  lemma PrunableSplits(a: seq<Diagnostic>, b: seq<Diagnostic>)
    ensures AllPrunable(a + b) <==> AllPrunable(a) && AllPrunable(b)
  {
    if AllPrunable(a + b) {
      forall e | e in a ensures Prunable(e.kind) { assert e in a + b; }
      forall e | e in b ensures Prunable(e.kind) { assert e in a + b; }
    }
  }

  lemma ExtrasArePrunable(live: Schema, d: DesiredTable)
    ensures AllPrunable(ExtraColumnReport(live, d)) && AllPrunable(ExtraObjectReport(live, d))
  {
    if d.name in live {
      PrunableSplits(Report(ExtraConstraint, d.name, Sorted(ExtraConstraintSet(d, live[d.name]))),
                     Report(ExtraIndex, d.name, Sorted(ExtraIndexSet(d, live[d.name]))));
    }
  }

  lemma PrunableParts(a: seq<Diagnostic>, columns: seq<Diagnostic>, b: seq<Diagnostic>, c: seq<Diagnostic>,
                      others: seq<Diagnostic>)
    requires AllPrunable(columns) && AllPrunable(others)
    ensures AllPrunable(a + columns + b + c + others) <==> AllPrunable(a) && AllPrunable(b) && AllPrunable(c)
  {
    PrunableSplits(a, columns);
    PrunableSplits(a + columns, b);
    PrunableSplits(a + columns + b, c);
    PrunableSplits(a + columns + b + c, others);
  }

  lemma QuietIffPrunable(live: Schema, d: DesiredTable)
    ensures AllPrunable(TableDiagnostics(live, d)) <==> Quiet(ContextOf(live, d), d)
  {
    var x := ContextOf(live, d);
    ItemsClean(x, d);
    ItemsPrunableIffNone(x, Items(Columns, d));
    ItemsPrunableIffNone(x, Items(Indexes, d));
    ItemsPrunableIffNone(x, Items(Constraints, d));
    ExtrasArePrunable(live, d);
    PrunableParts(ItemDiagnostics(x, Items(Columns, d)), ExtraColumnReport(live, d),
                  ItemDiagnostics(x, Items(Indexes, d)), ItemDiagnostics(x, Items(Constraints, d)),
                  ExtraObjectReport(live, d));
  }

  lemma {:induction false} FlatPrunable(reports: seq<seq<Diagnostic>>)
    ensures AllPrunable(Flat(reports)) <==> forall i :: 0 <= i < |reports| ==> AllPrunable(reports[i])
  {
    if reports != [] {
      var n := |reports| - 1;
      FlatPrunable(reports[..n]);
      PrunableSplits(Flat(reports[..n]), reports[n]);
      assert forall i :: 0 <= i < n ==> reports[..n][i] == reports[i];
    }
  }

  lemma PrunableTablewise(live: Schema, ds: seq<DesiredTable>)
    ensures AllPrunable(AllDiagnostics(live, ds)) <==> forall d :: d in ds ==> AllPrunable(TableDiagnostics(live, d))
  {
    var reports := Reports(live, ds);
    FlatPrunable(reports);
    assert forall i :: 0 <= i < |ds| ==> reports[i] == TableDiagnostics(live, ds[i]) && ds[i] in ds;
  }

  /** A prune plan has no blockers exactly when no desired item of any table is in conflict. */
  lemma NoBlockersIffQuiet(desired: seq<DesiredTable>, live: Schema)
    ensures PruneFor(desired, live).diagnostics == [] <==> forall d :: d in desired ==> Quiet(ContextOf(live, d), d)
  {
    var tables := ReportTables(Sorted(ExtraTableSet(desired, live)));
    NoBlockersIffPrunable(PlanFor(desired, live).diagnostics);
    assert AllPrunable(tables);
    PrunableSplits(AllDiagnostics(live, desired), tables);
    PrunableTablewise(live, desired);
    forall d | d in desired ensures AllPrunable(TableDiagnostics(live, d)) <==> Quiet(ContextOf(live, d), d) {
      QuietIffPrunable(live, d);
    }
  }

  lemma AvailableKept(d: DesiredTable, t: Table)
    ensures Available(d, Some(Pruned(d, t))) == Available(d, Some(t))
  {
    var u := Pruned(d, t);
    PrunedObjects(d, t);
    assert forall i :: 0 <= i < |d.system| ==> d.system[i].name in SchemaModel.Names(d.system);
    assert forall i :: 0 <= i < |d.columns| ==> d.columns[i].name in SchemaModel.Names(d.columns);
    forall i | 0 <= i < |d.system|
      ensures SystemAvailable(Some(u), d.system[i]) <==> SystemAvailable(Some(t), d.system[i]) { }
    forall i | 0 <= i < |d.columns|
      ensures ColumnBlocked(Some(u), d.columns[i]) <==> ColumnBlocked(Some(t), d.columns[i]) { }
  }

  lemma ColumnsStayQuiet(x: Context, y: Context, d: DesiredTable, t: Table)
    requires x.live == Some(t) && y == x.(live := Some(Pruned(d, t)))
    ensures forall c :: c in d.system ==> SystemFinding(y, c) == SystemFinding(x, c)
    ensures forall c :: c in d.columns ==> ColumnFinding(y, c) == ColumnFinding(x, c)
  {
    PrunedObjects(d, t);
    forall c | c in d.system ensures SystemFinding(y, c) == SystemFinding(x, c) {
      assert c.name in SchemaModel.Names(d.system);
    }
    forall c | c in d.columns ensures ColumnFinding(y, c) == ColumnFinding(x, c) {
      assert c.name in SchemaModel.Names(d.columns);
    }
  }

  /** A live constraint that metadata names and agrees with is not pruned. */
  lemma NamedConstraintStays(x: Context, d: DesiredTable, t: Table, c: DesiredConstraint)
    requires x.live == Some(t) && c in d.constraints && OwnColumns(d)
    requires c.definition.kind in {Unique, ForeignKey, Check}
    requires ConstraintFinding(x, c).diagnostics == [] && AllAvailable(c.definition.columns, x.available)
    requires c.name in t.constraints
    ensures !ConstraintGoes(d, t, c.name)
  {
    assert c.name in ConstraintNames(d.constraints) by {
      var i :| 0 <= i < |d.constraints| && d.constraints[i] == c;
    }
    assert t.constraints[c.name].columns == c.definition.columns;
  }

  lemma QuietStays(x: Context, y: Context, d: DesiredTable, t: Table)
    requires x.live == Some(t) && y == x.(live := Some(Pruned(d, t)))
    requires OwnColumns(d) && forall c :: c in d.constraints ==> c.definition.kind in {Unique, ForeignKey, Check}
    requires Quiet(x, d)
    ensures Quiet(y, d)
  {
    PrunedObjects(d, t);
    ColumnsStayQuiet(x, y, d, t);
    forall i | i in d.indexes ensures IndexFinding(y, i).diagnostics == [] {
      assert IndexFinding(x, i).diagnostics == [];
    }
    forall c | c in d.constraints ensures ConstraintFinding(y, c).diagnostics == [] {
      assert ConstraintFinding(x, c).diagnostics == [];
      if AllAvailable(c.definition.columns, x.available) && c.name in t.constraints {
        NamedConstraintStays(x, d, t, c);
      }
    }
  }

  ghost predicate NoOrphans(desired: seq<DesiredTable>, live: Schema) {
    forall d :: d in desired && d.name in live ==> forall n :: !Orphan(d, live[d.name], n)
  }

  lemma TableAfterPrune(d: DesiredTable, live: Schema, s: Schema)
    requires OwnColumns(d) && forall c :: c in d.constraints ==> c.definition.kind in {Unique, ForeignKey, Check}
    requires Quiet(ContextOf(live, d), d)
    requires d.name in live <==> d.name in s
    requires d.name in live ==> s[d.name] == Pruned(d, live[d.name])
    ensures TableDiagnostics(s, d) == [] <==> d.name in live ==> forall n :: !Orphan(d, live[d.name], n)
  {
    CleanIffNoDiagnostics(s, d);
    if d.name in live {
      var t := live[d.name];
      AvailableKept(d, t);
      QuietStays(ContextOf(live, d), ContextOf(s, d), d, t);
      NothingExtraIffNoOrphan(d, t);
    }
  }

  predicate PrunableMetadata(desired: seq<DesiredTable>) {
    && DistinctTables(desired)
    && forall d :: d in desired ==>
         OwnColumns(d) && forall c :: c in d.constraints ==> c.definition.kind in {Unique, ForeignKey, Check}
  }

  /**
    One prune reaches a fixpoint exactly when no orphan index is there: a plan
    without blockers whose statements all execute leaves a schema whose metadata
    plan has no diagnostics, apart from indexes that lost the constraint hiding
    them. Tables metadata does not know are gone, those it knows are still there.
   */
  lemma PruneReachesFixpointIffNoOrphans(desired: seq<DesiredTable>, live: Schema, s: Schema)
    requires PrunableMetadata(desired)
    requires PruneFor(desired, live).diagnostics == []
    requires ExecAll(PruneFor(desired, live).operations, live) == Some(s)
    ensures s.Keys == live.Keys * TableNames(desired)
    ensures PlanFor(desired, s).diagnostics == [] <==> NoOrphans(desired, live)
  {
    NoBlockersIffQuiet(desired, live);
    PruneEnds(desired, live, s);
    SortedEmpty(ExtraTableSet(desired, s));
    TablesAfterPrune(desired, live, s);
  }

  lemma TablesAfterPrune(desired: seq<DesiredTable>, live: Schema, s: Schema)
    requires PrunableMetadata(desired) && s.Keys == live.Keys * TableNames(desired)
    requires forall d :: d in desired ==> Quiet(ContextOf(live, d), d)
    requires forall d :: d in desired && d.name in live ==> d.name in s && s[d.name] == Pruned(d, live[d.name])
    ensures AllDiagnostics(s, desired) == [] <==> NoOrphans(desired, live)
  {
    NoDiagnosticsTablewise(s, desired);
    forall d | d in desired
      ensures TableDiagnostics(s, d) == [] <==> d.name in live ==> forall n :: !Orphan(d, live[d.name], n)
    {
      TableAfterPrune(d, live, s);
    }
  }

  /**
    No prune removes what metadata names: its columns and constraints stay as they
    are, and so do its indexes, unless an extra constraint of the same name owns one.
   */
  lemma NamedObjectsStay(desired: seq<DesiredTable>, live: Schema, s: Schema, d: DesiredTable)
    requires PrunableMetadata(desired)
    requires PruneFor(desired, live).diagnostics == []
    requires ExecAll(PruneFor(desired, live).operations, live) == Some(s)
    requires d in desired && d.name in live
    ensures d.name in s
    ensures forall n :: n in live[d.name].columns && !IsExtraColumn(d, n) ==>
      n in s[d.name].columns && s[d.name].columns[n] == live[d.name].columns[n]
    ensures forall c :: c in d.constraints && AllAvailable(c.definition.columns, ContextOf(live, d).available) ==>
      c.name in live[d.name].constraints ==> c.name in s[d.name].constraints
    ensures forall i :: i in d.indexes && AllAvailable(i.columns, ContextOf(live, d).available) ==>
      i.name in live[d.name].indexes ==> (i.name in s[d.name].indexes <==> !OwnedByExtra(d, live[d.name], i.name))
  {
    NoBlockersIffQuiet(desired, live);
    PruneEnds(desired, live, s);
    var t, x := live[d.name], ContextOf(live, d);
    PrunedObjects(d, t);
    forall c | c in d.constraints && AllAvailable(c.definition.columns, x.available) && c.name in t.constraints
      ensures c.name in s[d.name].constraints
    {
      NamedConstraintStays(x, d, t, c);
    }
    forall i | i in d.indexes && AllAvailable(i.columns, x.available) && i.name in t.indexes
      ensures i.name in s[d.name].indexes <==> !OwnedByExtra(d, t, i.name)
    {
      NamedIndexGoes(x, d, t, i);
    }
  }

  predicate OwnedByExtra(d: DesiredTable, t: Table, n: string) {
    n in t.constraints && IsExtraConstraint(d, t, n) && OwnsIndex(t.constraints[n].kind)
  }

  lemma NamedIndexGoes(x: Context, d: DesiredTable, t: Table, i: DesiredIndex)
    requires x.live == Some(t) && i in d.indexes && OwnColumns(d) && IndexFinding(x, i).diagnostics == []
    requires AllAvailable(i.columns, x.available) && i.name in t.indexes
    ensures IndexGoes(d, t, i.name) <==> OwnedByExtra(d, t, i.name)
  {
    assert i.name in IndexNames(d.indexes) by {
      var k :| 0 <= k < |d.indexes| && d.indexes[k] == i;
    }
    assert t.indexes[i.name].columns == i.columns;
  }

  // ----- The second prune

  /** After a prune a table has no orphans: what one prune leaves behind, the next one sees. */
  lemma PrunedHasNoOrphans(d: DesiredTable, t: Table)
    ensures ExtraColumnSet(d, Pruned(d, t)) == {} && ExtraConstraintSet(d, Pruned(d, t)) == {}
    ensures forall n :: !Orphan(d, Pruned(d, t), n)
  {
    var u := Pruned(d, t);
    PrunedObjects(d, t);
    assert ExtraColumnSet(d, u) == {};
    forall n | n in u.constraints ensures !ConstraintGoes(d, u, n) {
      assert !ConstraintGoes(d, t, n);
    }
  }

  lemma NothingToDrop(d: DesiredTable, live: Schema)
    requires d.name in live ==> ExtraConstraintSet(d, live[d.name]) == {} && ExtraColumnSet(d, live[d.name]) == {}
    ensures PruneOps(PruneConstraints, live, d) == [] && PruneOps(PruneColumns, live, d) == []
  {
  }

  lemma OnlyIndexDrops(desired: seq<DesiredTable>, live: Schema)
    requires ExtraTableSet(desired, live) == {}
    requires forall d :: d in desired && d.name in live ==>
      ExtraConstraintSet(d, live[d.name]) == {} && ExtraColumnSet(d, live[d.name]) == {}
    ensures PruneFor(desired, live).operations == PrunePhaseOps(PruneIndexes, live, Ordered(desired))
  {
    var ds := Ordered(desired);
    forall d | d in ds ensures PruneOps(PruneConstraints, live, d) == [] && PruneOps(PruneColumns, live, d) == [] {
      NothingToDrop(d, live);
    }
    NoStatements(PruneConstraints, live, ds);
    NoStatements(PruneColumns, live, ds);
    var gone := Sorted(ExtraTableSet(desired, live));
    assert |gone| == 0 && DropTables(gone) == [];
    OnlyThird(PrunePhaseOps(PruneIndexes, live, ds));
  }

  lemma OnlyThird(ops: seq<Op>)
    ensures [] + ops + [] + [] == ops
  {
  }

  /**
    The second prune always reaches the fixpoint: after a first prune, the plan of
    the second has no blockers, its statements execute, and they leave a schema
    whose metadata plan has no diagnostics.
   */
  lemma SecondPruneReachesFixpoint(desired: seq<DesiredTable>, live: Schema, s: Schema) returns (s2: Schema)
    requires PrunableMetadata(desired)
    requires PruneFor(desired, live).diagnostics == []
    requires ExecAll(PruneFor(desired, live).operations, live) == Some(s)
    ensures PruneFor(desired, s).diagnostics == []
    ensures ExecAll(PruneFor(desired, s).operations, s) == Some(s2)
    ensures PlanFor(desired, s2).diagnostics == []
  {
    NoBlockersIffQuiet(desired, live);
    NoBlockersIffQuiet(desired, s);
    PruneEnds(desired, live, s);
    forall d | d in desired ensures Quiet(ContextOf(s, d), d) { TableStaysQuiet(d, live, s); }
    forall d | d in desired && d.name in live
      ensures ExtraConstraintSet(d, s[d.name]) == {} && ExtraColumnSet(d, s[d.name]) == {}
      ensures forall n :: !Orphan(d, s[d.name], n)
    {
      PrunedHasNoOrphans(d, live[d.name]);
    }
    OnlyIndexDrops(desired, s);
    OrderedDistinct(desired);
    s2 := IndexPhaseRuns(s, Ordered(desired));
    assert NoOrphans(desired, s);
    PruneReachesFixpointIffNoOrphans(desired, s, s2);
  }

  lemma TableStaysQuiet(d: DesiredTable, live: Schema, s: Schema)
    requires OwnColumns(d) && forall c :: c in d.constraints ==> c.definition.kind in {Unique, ForeignKey, Check}
    requires Quiet(ContextOf(live, d), d)
    requires d.name in live <==> d.name in s
    requires d.name in live ==> s[d.name] == Pruned(d, live[d.name])
    ensures Quiet(ContextOf(s, d), d)
  {
    if d.name in live {
      AvailableKept(d, live[d.name]);
      QuietStays(ContextOf(live, d), ContextOf(s, d), d, live[d.name]);
    }
  }

  // ----- A prune that needs a second one

  /** The synced table of an Entity without fields, to which somebody added a check and a plain index of its name. */
  function WithCheck(name: string, check: string): Table {
    Table(NonEmpty, SystemColumns(ENTITY_COLUMNS),
          map[PrimaryKeyName(name) := Index(["id"], true), NameKey(name) := Index(["name"], true),
              check := Index(["id"], false)],
          map[PrimaryKeyName(name) := Constraint(PrimaryKey, ["id"], false, ""), NameKey(name) := UNIQUE_NAME,
              check := Constraint(Check, ["id"], false, "id > 0")])
  }

  lemma BareNames(name: string)
    ensures PrimaryKeyName(name) != NameKey(name)
    ensures var d := BareTable(name);
      ConstraintNames(d.constraints) == {NameKey(name)} && IndexNames(d.indexes) == {}
  {
    assert |PrimaryKeyName(name)| != |NameKey(name)|;
    assert BareTable(name).constraints[0].name == NameKey(name);
  }

  lemma CheckAddsNoColumn(name: string, check: string)
    ensures ExtraColumnSet(BareTable(name), WithCheck(name, check)) == {}
  {
    EntityColumns();
    SystemColumnsExact(ENTITY_COLUMNS);
  }

  lemma CheckIsExtra(name: string, check: string)
    requires check != PrimaryKeyName(name) && check != NameKey(name)
    ensures var d, t := BareTable(name), WithCheck(name, check);
      ExtraConstraintSet(d, t) == {check} && ExtraIndexSet(d, t) == {} && ExtraColumnSet(d, t) == {}
  {
    BareNames(name);
    CheckAddsNoColumn(name, check);
    var t := WithCheck(name, check);
    assert t.constraints[check].kind == Check && t.constraints[PrimaryKeyName(name)].kind == PrimaryKey;
    assert t.indexes.Keys == t.constraints.Keys == {PrimaryKeyName(name), NameKey(name), check};
  }

  /** System columns as their table was created with them agree with metadata. */
  lemma CreatedColumnsAgree(x: Context, cs: seq<DesiredColumn>)
    requires DistinctColumns(cs) && x.live.Some? && x.live.value.columns == SystemColumns(cs)
    ensures forall c :: c in cs ==> SystemFinding(x, c).diagnostics == []
  {
    SystemColumnsExact(cs);
    forall c | c in cs ensures SystemFinding(x, c).diagnostics == [] {
      assert x.live.value.columns[c.name] == LiveSystem(c);
    }
  }

  lemma KeyAgrees(x: Context, c: DesiredConstraint)
    requires x.live.Some? && c.name in x.live.value.constraints
    requires x.live.value.constraints[c.name] == c.definition && !c.unsupported
    ensures ConstraintFinding(x, c).diagnostics == []
  {
  }

  lemma CheckLeavesQuiet(name: string, check: string)
    requires check != PrimaryKeyName(name) && check != NameKey(name)
    ensures Quiet(ContextOf(map[name := WithCheck(name, check)], BareTable(name)), BareTable(name))
  {
    BareNames(name);
    EntityColumns();
    var d, t := BareTable(name), WithCheck(name, check);
    var x := ContextOf(map[name := t], d);
    CreatedColumnsAgree(x, d.system);
    forall c | c in d.constraints ensures ConstraintFinding(x, c).diagnostics == [] {
      assert c.name == NameKey(name) && t.constraints[NameKey(name)] == UNIQUE_NAME;
      KeyAgrees(x, c);
    }
  }

  lemma CheckHasOrphan(name: string, check: string)
    requires check != PrimaryKeyName(name) && check != NameKey(name)
    ensures Orphan(BareTable(name), WithCheck(name, check), check) && PrunableMetadata([BareTable(name)])
  {
    BareNames(name);
    EntityColumns();
    CheckIsExtra(name, check);
    var d, t := BareTable(name), WithCheck(name, check);
    assert IsExtraConstraint(d, t, check) && t.constraints[check].kind == Check;
    assert forall s: seq<string> :: !Touches(s, {});
    assert !IndexGoes(d, t, check);
    assert UNIQUE_NAME.columns == ["name"];
  }

  lemma OnlyTable(d: DesiredTable, t: Table)
    ensures TableNames([d]) == {d.name} && ExtraTableSet([d], map[d.name := t]) == {}
  {
    assert [d][0].name == d.name && [d][0].name in TableNames([d]);
  }

  lemma OneTableOneConstraint(d: DesiredTable, live: Schema, n: string)
    requires d.name in live && ExtraTableSet([d], live) == {}
    requires ExtraConstraintSet(d, live[d.name]) == {n}
    requires ExtraIndexSet(d, live[d.name]) == {} && ExtraColumnSet(d, live[d.name]) == {}
    ensures PruneFor([d], live).operations == [DropConstraint(d.name, n)]
  {
    OneOrdered(d);
    OnePhase(PruneConstraints, live, d);
    OnePhase(PruneIndexes, live, d);
    OnePhase(PruneColumns, live, d);
    OneName(n);
    OneDrop(d.name, n);
  }

  lemma OneTableLosesItsConstraint(d: DesiredTable, live: Schema, n: string)
    requires d.name in live && ExtraTableSet([d], live) == {} && PrunableMetadata([d])
    requires ExtraConstraintSet(d, live[d.name]) == {n}
    requires ExtraIndexSet(d, live[d.name]) == {} && ExtraColumnSet(d, live[d.name]) == {}
    requires Quiet(ContextOf(live, d), d) && Orphan(d, live[d.name], n)
    ensures PruneFor([d], live).diagnostics == []
    ensures var s := ExecAll(PruneFor([d], live).operations, live);
      s.Some? && PlanFor([d], s.value).diagnostics != []
  {
    OneTableOneConstraint(d, live, n);
    NoBlockersIffQuiet([d], live);
    ConstraintDropRuns(d, live, n);
    OrphanIsReported(d, live, n, Exec(DropConstraint(d.name, n), live).value);
  }

  lemma ConstraintDropRuns(d: DesiredTable, live: Schema, n: string)
    requires d.name in live && ExtraConstraintSet(d, live[d.name]) == {n}
    ensures ExecAll([DropConstraint(d.name, n)], live) == Exec(DropConstraint(d.name, n), live)
    ensures Exec(DropConstraint(d.name, n), live).Some?
  {
    OneStatement(DropConstraint(d.name, n), live);
    assert n in ExtraConstraintSet(d, live[d.name]);
  }

  lemma OrphanIsReported(d: DesiredTable, live: Schema, n: string, s: Schema)
    requires PrunableMetadata([d]) && PruneFor([d], live).diagnostics == []
    requires ExecAll(PruneFor([d], live).operations, live) == Some(s)
    requires d.name in live && Orphan(d, live[d.name], n)
    ensures PlanFor([d], s).diagnostics != []
  {
    assert d in [d] && !NoOrphans([d], live);
    PruneReachesFixpointIffNoOrphans([d], live, s);
  }

  /** On any Entity, a plain index that shares the name of an extra check outlives the prune and is reported next time. */
  lemma PruneCanLeaveOrphan(name: string, check: string)
    requires check != PrimaryKeyName(name) && check != NameKey(name)
    ensures var desired, live := [BareTable(name)], map[name := WithCheck(name, check)];
      && PrunableMetadata(desired) && PruneFor(desired, live).diagnostics == []
      && var s := ExecAll(PruneFor(desired, live).operations, live);
         s.Some? && PlanFor(desired, s.value).diagnostics != []
  {
    CheckIsExtra(name, check);
    CheckLeavesQuiet(name, check);
    CheckHasOrphan(name, check);
    OnlyTable(BareTable(name), WithCheck(name, check));
    OneTableLosesItsConstraint(BareTable(name), map[name := WithCheck(name, check)], check);
  }
}
