/**
  Convergence of schema sync over whole schemas, and the schema that planning
  expects after it: which parts of the expectation hold, and when the others do.
 */
module SchemaConverge {
  import opened Wrappers
  import opened SchemaModel
  import opened SchemaPlan
  import opened SchemaSync
  import opened SchemaPhases
  import opened SortedNames

  // ----- Convergence

  lemma CleanTables(desired: seq<DesiredTable>, live: Schema)
    requires PlanFor(desired, live).diagnostics == []
    ensures forall d :: d in desired ==> Clean(ContextOf(live, d), d)
    ensures live.Keys <= TableNames(desired)
  {
    assert AllDiagnostics(live, desired) == [] && |ReportTables(Sorted(ExtraTableSet(desired, live)))| == 0;
    NoDiagnosticsTablewise(live, desired);
    forall d | d in desired ensures Clean(ContextOf(live, d), d) { CleanIffNoDiagnostics(live, d); }
    SortedEmpty(ExtraTableSet(desired, live));
    forall n | n in live ensures n in TableNames(desired) { assert n !in ExtraTableSet(desired, live); }
  }

  /**
    A plan without diagnostics executes: every statement finds its table, its
    columns and room for its name, and no NOT NULL column without default meets
    rows. No table, column, index or constraint is lost on the way.
   */
  lemma SyncSucceeds(desired: seq<DesiredTable>, live: Schema) returns (s: Schema)
    requires WellFormed(desired) && PlanFor(desired, live).diagnostics == []
    ensures ExecAll(PlanFor(desired, live).operations, live) == Some(s)
    ensures s.Keys == TableNames(desired)
    ensures forall i :: 0 <= i < |desired| ==> TableDone(live, desired[i], s)
    ensures forall n :: n in live ==> n in s && Extends(live[n], s[n])
  {
    CleanTables(desired, live);
    AllReady(desired, live);
    CreatePhase(live, desired);
    var s0, s1, s2, s3 := WithTables(live, desired), live, live, live;
    s1, s2, s3, s := RunPhases(desired, live, s0);
    forall i | 0 <= i < |desired| ensures TableDone(live, desired[i], s) {
      TableEndsSynced(live, desired[i], s0, s1, s2, s3, s);
    }
    JoinPhases(desired, live, s0, s1, s2, s3, s);
    AllLiveTablesKept(desired, live, s);
  }

  lemma AllLiveTablesKept(desired: seq<DesiredTable>, live: Schema, s: Schema)
    requires PlanFor(desired, live).diagnostics == []
    requires forall i :: 0 <= i < |desired| ==> TableDone(live, desired[i], s)
    ensures forall n :: n in live ==> n in s && Extends(live[n], s[n])
  {
    CleanTables(desired, live);
    forall n | n in live ensures n in s && Extends(live[n], s[n]) { LiveTableKept(desired, live, s, n); }
  }

  lemma LiveTableKept(desired: seq<DesiredTable>, live: Schema, s: Schema, n: string)
    requires n in live && n in TableNames(desired)
    requires forall i :: 0 <= i < |desired| ==> TableDone(live, desired[i], s)
    ensures n in s && Extends(live[n], s[n])
  {
    var i :| 0 <= i < |desired| && desired[i].name == n;
    assert TableDone(live, desired[i], s);
  }

  // ----- Nothing left to plan

  /** A synced table gets no statements and no diagnostics. */
  lemma SyncedIsSettled(s: Schema, d: DesiredTable, p: Phase)
    requires d.name in s && Synced(d, Known(d), s[d.name])
    ensures TableOps(p, s, d) == [] && ItemDiagnostics(ContextOf(s, d), Items(p, d)) == []
  {
    var x := ContextOf(s, d);
    KnownAvailable(d, s[d.name]);
    forall i | i in Items(p, d) ensures ItemFinding(x, i) == Finding([], []) { ItemSettled(x, d, p, i); }
    NoOpsItemwise(x, Items(p, d));
    NoDiagnosticsItemwise(x, Items(p, d));
  }

  lemma SyncedHasNoDiagnostics(s: Schema, d: DesiredTable)
    requires d.name in s && Synced(d, Known(d), s[d.name])
    ensures TableDiagnostics(s, d) == []
  {
    SyncedIsSettled(s, d, Columns);
    SyncedIsSettled(s, d, Indexes);
    SyncedIsSettled(s, d, Constraints);
    NothingExtraIffSorted(d, s[d.name]);
    assert Report(ExtraColumn, d.name, []) == [] && Report(ExtraConstraint, d.name, []) == [];
    assert Report(ExtraIndex, d.name, []) == [];
  }

  lemma KnownAvailable(d: DesiredTable, t: Table)
    requires Synced(d, Known(d), t)
    ensures Available(d, Some(t)) == Known(d)
  {
    assert forall i :: 0 <= i < |d.system| ==> ColumnAgrees(d.system[i], t);
    assert forall i :: 0 <= i < |d.columns| ==> ColumnAgrees(d.columns[i], t);
  }

  lemma ItemSettled(x: Context, d: DesiredTable, p: Phase, i: Item)
    requires x.live.Some? && x.available == Known(d) && Synced(d, Known(d), x.live.value) && i in Items(p, d)
    ensures ItemFinding(x, i) == Finding([], [])
  {
    var k :| 0 <= k < |Items(p, d)| && Items(p, d)[k] == i;
    match p
    case Creates =>
    case Columns =>
      if k < |d.system| { assert ColumnAgrees(d.system[k], x.live.value); }
      else { assert ColumnAgrees(d.columns[k - |d.system|], x.live.value); }
    case Defaults => assert DefaultMatches(d.columns[k], x.live.value.columns[d.columns[k].name]);
    case Indexes =>
    case Constraints => assert d.constraints[k] in d.constraints;
  }

  /** After a successful sync the next plan is empty: no operations and no diagnostics. */
  lemma SyncConverges(desired: seq<DesiredTable>, live: Schema, s: Schema)
    requires WellFormed(desired) && PlanFor(desired, live).diagnostics == []
    requires ExecAll(PlanFor(desired, live).operations, live) == Some(s)
    ensures PlanFor(desired, s) == Plan([], [])
  {
    var s' := SyncSucceeds(desired, live);
    AllSettled(desired, live, s);
    NoOpsTablewise(Creates, s, desired);
    NoOpsTablewise(Columns, s, desired);
    NoOpsTablewise(Defaults, s, desired);
    NoOpsTablewise(Indexes, s, desired);
    NoOpsTablewise(Constraints, s, desired);
    NoDiagnosticsTablewise(s, desired);
    SortedEmpty(ExtraTableSet(desired, s));
  }

  lemma AllSettled(desired: seq<DesiredTable>, live: Schema, s: Schema)
    requires forall i :: 0 <= i < |desired| ==> TableDone(live, desired[i], s)
    ensures forall p, d :: d in desired ==> TableOps(p, s, d) == []
    ensures forall d :: d in desired ==> TableDiagnostics(s, d) == []
  {
    forall p, d | d in desired ensures TableOps(p, s, d) == [] { SettledAt(desired, live, s, d, p); }
    forall d | d in desired ensures TableDiagnostics(s, d) == [] { SettledAt(desired, live, s, d, Creates); }
  }

  lemma SettledAt(desired: seq<DesiredTable>, live: Schema, s: Schema, d: DesiredTable, p: Phase)
    requires forall i :: 0 <= i < |desired| ==> TableDone(live, desired[i], s)
    requires d in desired
    ensures TableOps(p, s, d) == [] && TableDiagnostics(s, d) == []
  {
    var i :| 0 <= i < |desired| && desired[i] == d;
    assert TableDone(live, desired[i], s);
    SyncedIsSettled(s, d, p);
    SyncedHasNoDiagnostics(s, d);
  }

  // ----- The schema expected after sync

  function Expected(c: DesiredColumn): Column {
    Column(c.ty, !c.required, c.hasSafeDefault, c.defaultSQL)
  }

  function ExpectedColumns(cs: seq<DesiredColumn>, base: map<string, Column>): map<string, Column> {
    if cs == [] then base else ExpectedColumns(cs[..|cs| - 1], base)[cs[|cs| - 1].name := Expected(cs[|cs| - 1])]
  }

  /** The tables and columns a sync would leave, computed without running it. */
  method SchemaAfterSync(desired: seq<DesiredTable>, live: Schema) returns (r: Schema)
    requires DistinctTables(desired)
    ensures r.Keys == live.Keys + TableNames(desired)
    ensures forall n :: n in live && n !in TableNames(desired) ==> r[n] == live[n]
    ensures forall i :: 0 <= i < |desired| ==>
      r[desired[i].name].columns == ExpectedColumns(AllColumns(desired[i]),
        if desired[i].name in live then live[desired[i].name].columns else map[])
  {
    r := live;
    for i := 0 to |desired|
      invariant r.Keys == live.Keys + TableNames(desired[..i])
      invariant forall n :: n in live && n !in TableNames(desired[..i]) ==> r[n] == live[n]
      invariant forall k :: 0 <= k < i ==>
        r[desired[k].name].columns == ExpectedColumns(AllColumns(desired[k]),
          if desired[k].name in live then live[desired[k].name].columns else map[])
    {
      var d := desired[i];
      assert desired[..i + 1] == desired[..i] + [d];
      TableNamesGrow(desired[..i], d);
      assert d.name !in TableNames(desired[..i]);
      var current := if d.name in r then r[d.name] else Table(Unknown, map[], map[], map[]);
      var columns := WriteExpected(AllColumns(d), current.columns);
      r := r[d.name := current.(columns := columns)];
    }
    assert desired[..|desired|] == desired;
  }

  method WriteExpected(cs: seq<DesiredColumn>, base: map<string, Column>) returns (columns: map<string, Column>)
    ensures columns == ExpectedColumns(cs, base)
  {
    columns := base;
    for k := 0 to |cs|
      invariant columns == ExpectedColumns(cs[..k], base)
    {
      assert cs[..k + 1][..k] == cs[..k];
      columns := columns[cs[k].name := Expected(cs[k])];
    }
    assert cs[..|cs|] == cs;
  }

  lemma {:induction false} ExpectedColumnsExact(cs: seq<DesiredColumn>, base: map<string, Column>)
    requires DistinctColumns(cs)
    ensures ExpectedColumns(cs, base).Keys == base.Keys + SchemaModel.Names(cs)
    ensures forall i :: 0 <= i < |cs| ==> ExpectedColumns(cs, base)[cs[i].name] == Expected(cs[i])
  {
    if cs != [] {
      ExpectedColumnsExact(cs[..|cs| - 1], base);
      assert cs == cs[..|cs| - 1] + [cs[|cs| - 1]];
      NamesGrow(cs[..|cs| - 1], cs[|cs| - 1]);
    }
  }

  /** The columns expected of a desired table. */
  function ExpectedOf(d: DesiredTable, live: Schema): map<string, Column> {
    ExpectedColumns(AllColumns(d), if d.name in live then live[d.name].columns else map[])
  }

  /** Both have the column, with the same type and nullability. */
  predicate SameShape(a: map<string, Column>, b: map<string, Column>, n: string) {
    n in a && n in b && a[n].ty == b[n].ty && a[n].nullable == b[n].nullable
  }

  /** On desired tables, the expectation names the columns that sync leaves, with their types and nullability. */
  lemma ExpectationMatchesSync(desired: seq<DesiredTable>, live: Schema, s: Schema, i: nat)
    requires WellFormed(desired) && PlanFor(desired, live).diagnostics == []
    requires ExecAll(PlanFor(desired, live).operations, live) == Some(s) && i < |desired|
    ensures desired[i].name in s && s[desired[i].name].columns.Keys == ExpectedOf(desired[i], live).Keys
    ensures forall n :: n in Known(desired[i]) ==>
      SameShape(s[desired[i].name].columns, ExpectedOf(desired[i], live), n)
  {
    var s' := SyncSucceeds(desired, live);
    var d := desired[i];
    assert TableDone(live, desired[i], s) && d in desired;
    ExpectedNames(d, live, s[d.name]);
    forall n | n in Known(d) ensures SameShape(s[d.name].columns, ExpectedOf(d, live), n) {
      KnownAsExpected(d, live, s[d.name], n);
    }
  }

  lemma ExpectedNames(d: DesiredTable, live: Schema, t: Table)
    requires DistinctColumns(AllColumns(d))
    requires t.columns.Keys == (if d.name in live then live[d.name].columns.Keys else SystemColumns(d.system).Keys) + Known(d)
    ensures t.columns.Keys == ExpectedOf(d, live).Keys
  {
    ExpectedColumnsExact(AllColumns(d), if d.name in live then live[d.name].columns else map[]);
    AllColumnsNames(d);
    SystemColumnsNames(d);
  }

  lemma KnownAsExpected(d: DesiredTable, live: Schema, t: Table, n: string)
    requires DistinctColumns(AllColumns(d)) && n in Known(d)
    requires forall i :: 0 <= i < |d.system| ==> ColumnAgrees(d.system[i], t)
    requires forall i :: 0 <= i < |d.columns| ==> ColumnAgrees(d.columns[i], t)
    ensures SameShape(t.columns, ExpectedOf(d, live), n)
  {
    AllColumnsNames(d);
    ExpectedColumnsExact(AllColumns(d), if d.name in live then live[d.name].columns else map[]);
    var k :| 0 <= k < |AllColumns(d)| && AllColumns(d)[k].name == n;
    if k < |d.system| {
      assert ColumnAgrees(d.system[k], t);
    } else {
      assert ColumnAgrees(d.columns[k - |d.system|], t);
    }
  }

  // ----- The expected default flag

  /** Whether a system column has a default before the statements that add missing columns. */
  predicate HadDefault(d: DesiredTable, live: Schema, c: DesiredColumn) {
    if d.name in live then c.name in live[d.name].columns && live[d.name].columns[c.name].hasDefault
    else SystemDefault(c.name) != ""
  }

  predicate SameFlag(a: map<string, Column>, b: map<string, Column>, n: string) {
    n in a && n in b && a[n].hasDefault == b[n].hasDefault
  }

  /**
    The default flag is expected wherever adding the column would be safe. A field's
    column then has it exactly when the safety comes from a default; a system column
    exactly when it had a default before, or gets one with its table.
   */
  lemma ExpectedDefaultFlag(desired: seq<DesiredTable>, live: Schema, s: Schema, i: nat, k: nat)
    requires WellFormed(desired) && PlanFor(desired, live).diagnostics == []
    requires ExecAll(PlanFor(desired, live).operations, live) == Some(s)
    requires i < |desired| && k < |AllColumns(desired[i])|
    ensures var d, c := desired[i], AllColumns(desired[i])[k];
      d.name in s &&
      (SameFlag(s[d.name].columns, ExpectedOf(d, live), c.name) <==>
        if k < |d.system| then (c.hasSafeDefault <==> HadDefault(d, live, c))
        else (c.hasSafeDefault <==> c.defaultSQL != ""))
  {
    var s' := SyncSucceeds(desired, live);
    var d := desired[i];
    assert TableDone(live, desired[i], s) && d in desired;
    FlagInTable(d, live, s[d.name], k);
  }

  /** So for a stored field it fails to agree exactly when the field has no literal default and is optional or secret. */
  lemma ExpectedFieldFlag(desired: seq<DesiredTable>, live: Schema, s: Schema, i: nat, k: nat, f: Field)
    requires WellFormed(desired) && PlanFor(desired, live).diagnostics == []
    requires ExecAll(PlanFor(desired, live).operations, live) == Some(s)
    requires i < |desired| && |desired[i].system| <= k < |AllColumns(desired[i])|
    requires AllColumns(desired[i])[k] == ColumnOf(f) && (f.dflt.Literal? ==> f.dflt.sql != "")
    ensures desired[i].name in s
    ensures SameFlag(s[desired[i].name].columns, ExpectedOf(desired[i], live), f.column) <==>
      f.dflt.Literal? || (f.required && !f.secret)
  {
    ExpectedDefaultFlag(desired, live, s, i, k);
  }

  lemma FlagInTable(d: DesiredTable, live: Schema, t: Table, k: nat)
    requires DistinctColumns(AllColumns(d)) && k < |AllColumns(d)|
    requires forall c :: c in d.system ==> c.defaultSQL == ""
    requires forall i :: 0 <= i < |d.columns| ==>
      ColumnAgrees(d.columns[i], t) && DefaultMatches(d.columns[i], t.columns[d.columns[i].name])
    requires forall i :: 0 <= i < |d.system| ==> SystemColumnKept(Start(ContextOf(live, d), d), d.system[i], t)
    ensures var c := AllColumns(d)[k];
      SameFlag(t.columns, ExpectedOf(d, live), c.name) <==>
        if k < |d.system| then (c.hasSafeDefault <==> HadDefault(d, live, c))
        else (c.hasSafeDefault <==> c.defaultSQL != "")
  {
    ExpectedAt(d, live, k);
    if k < |d.system| {
      assert AllColumns(d)[k] == d.system[k];
      assert SystemColumnKept(Start(ContextOf(live, d), d), d.system[k], t) && d.system[k] in d.system;
      SystemHadDefault(d, live, k);
    } else {
      var c := d.columns[k - |d.system|];
      assert AllColumns(d)[k] == c;
      assert ColumnAgrees(c, t) && DefaultMatches(c, t.columns[c.name]);
    }
  }

  lemma ExpectedAt(d: DesiredTable, live: Schema, k: nat)
    requires DistinctColumns(AllColumns(d)) && k < |AllColumns(d)|
    ensures var c := AllColumns(d)[k]; c.name in ExpectedOf(d, live) && ExpectedOf(d, live)[c.name] == Expected(c)
  {
    ExpectedColumnsExact(AllColumns(d), if d.name in live then live[d.name].columns else map[]);
    assert AllColumns(d)[k].name in SchemaModel.Names(AllColumns(d));
  }

  lemma SystemHadDefault(d: DesiredTable, live: Schema, k: nat)
    requires k < |d.system| && DistinctColumns(AllColumns(d)) && d.system[k].defaultSQL == ""
    ensures var t0, c := Start(ContextOf(live, d), d), d.system[k];
      (if c.name in t0.columns then t0.columns[c.name] else LiveField(c)).hasDefault == HadDefault(d, live, c)
  {
    if d.name !in live {
      NewTableColumns(d, k);
      assert AllColumns(d)[k] == d.system[k] && d.system[k] in d.system;
      SystemColumnsExact(d.system);
    }
  }

  /** A new table of an Entity without fields: its timestamps get defaults that are not expected. */
  lemma TimestampDefaultsUnexpected(name: string)
    ensures var desired := [BareTable(name)];
      && WellFormed(desired) && PlanFor(desired, map[]).diagnostics == []
      && var s := ExecAll(PlanFor(desired, map[]).operations, map[]);
         s.Some? && name in s.value && !SameFlag(s.value[name].columns, ExpectedOf(BareTable(name), map[]), "created_at")
  {
    BareIsWellFormed(name);
    BareIsClean(name);
    BareHasTimestamp(name);
    NewTimestampUnexpected([BareTable(name)], 0, 2);
  }

  lemma BareHasTimestamp(name: string)
    ensures var cs := [BareTable(name)][0].system;
      |cs| > 2 && cs[2].name == "created_at" && !cs[2].hasSafeDefault
  {
    assert [BareTable(name)][0].system == ENTITY_COLUMNS;
  }

  lemma NewTimestampUnexpected(desired: seq<DesiredTable>, i: nat, k: nat)
    requires WellFormed(desired) && PlanFor(desired, map[]).diagnostics == []
    requires i < |desired| && k < |desired[i].system|
    requires desired[i].system[k].name == "created_at" && !desired[i].system[k].hasSafeDefault
    ensures var d, s := desired[i], ExecAll(PlanFor(desired, map[]).operations, map[]);
      s.Some? && d.name in s.value && !SameFlag(s.value[d.name].columns, ExpectedOf(d, map[]), "created_at")
  {
    var s := SyncSucceeds(desired, map[]);
    assert AllColumns(desired[i])[k] == desired[i].system[k];
    ExpectedDefaultFlag(desired, map[], s, i, k);
  }

  lemma BareIsWellFormed(name: string)
    ensures WellFormed([BareTable(name)])
  {
    assert |PrimaryKeyName(name)| != |NameKey(name)|;
    var d := BareTable(name);
    EntityColumns();
    assert AllColumns(d) == ENTITY_COLUMNS;
    assert d.constraints[0].name == NameKey(name);
  }

  lemma BareIsClean(name: string)
    ensures PlanFor([BareTable(name)], map[]).diagnostics == []
  {
    var d := BareTable(name);
    CleanIffNoDiagnostics(map[], d);
    NoDiagnosticsTablewise(map[], [d]);
    SortedEmpty(ExtraTableSet([d], map[]));
  }
}
