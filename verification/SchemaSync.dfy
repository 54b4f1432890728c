/**
  What the statements of a plan do to one table, phase by phase: they succeed,
  keep everything that was there, and leave nothing more to plan for it.

  Missing columns come first, then defaults, indexes and constraints. For each
  phase there is a predicate for what it leaves, a lemma for one item of it and a
  lemma for all its items in order; `TableSync` puts the phases together. All
  tables together are the subject of `SchemaPhases`.
 */
module SchemaSync {
  import opened Wrappers
  import opened SchemaModel
  import opened SchemaPlan
  import opened SortedNames

  // ----- What well-named metadata satisfies

  function AllColumns(d: DesiredTable): seq<DesiredColumn> {
    d.system + d.columns
  }

  predicate DistinctColumns(s: seq<DesiredColumn>) {
    forall i, j :: 0 <= i < j < |s| ==> s[i].name != s[j].name
  }

  /** Column, index and constraint names do not clash, and neither do the indexes that constraints own. */
  predicate WellNamed(d: DesiredTable, tables: set<string>) {
    && DistinctColumns(AllColumns(d)) && DistinctIndexes(d.indexes) && DistinctConstraints(d.constraints)
    && PrimaryKeyName(d.name) !in IndexNames(d.indexes) + ConstraintNames(d.constraints)
    && IndexNames(d.indexes) !! ConstraintNames(d.constraints)
    && (forall c :: c in d.constraints ==> c.definition.kind in {Unique, ForeignKey, Check})
    && (forall c :: c in d.constraints && c.definition.kind.ForeignKey? ==> c.definition.body in tables)
    && (forall c :: c in d.columns ==> c.required && c.hasSafeDefault ==> c.defaultSQL != "")
    && (forall c :: c in d.system ==> c.defaultSQL == "" && (c.name == OWNER_ID ==> !c.required))
  }

  predicate WellFormed(ds: seq<DesiredTable>) {
    DistinctTables(ds) && forall d :: d in ds ==> WellNamed(d, TableNames(ds))
  }

  lemma EntityColumns()
    ensures DistinctColumns(ENTITY_COLUMNS)
    ensures "id" in SchemaModel.Names(ENTITY_COLUMNS) && "name" in SchemaModel.Names(ENTITY_COLUMNS)
  {
    assert ENTITY_COLUMNS[0].name == "id" && ENTITY_COLUMNS[1].name == "name";
  }

  // ----- Items that contribute nothing

  lemma {:induction false} NoDiagnosticsItemwise(x: Context, items: seq<Item>)
    ensures ItemDiagnostics(x, items) == [] <==> forall i :: i in items ==> ItemFinding(x, i).diagnostics == []
  {
    if items != [] {
      NoDiagnosticsItemwise(x, items[..|items| - 1]);
      assert items == items[..|items| - 1] + [items[|items| - 1]];
      assert |ItemDiagnostics(x, items)|
          == |ItemDiagnostics(x, items[..|items| - 1])| + |ItemFinding(x, items[|items| - 1]).diagnostics|;
    }
  }

  lemma {:induction false} NoOpsItemwise(x: Context, items: seq<Item>)
    requires forall i :: i in items ==> ItemFinding(x, i).ops == []
    ensures ItemOps(x, items) == []
  {
    if items != [] { NoOpsItemwise(x, items[..|items| - 1]); }
  }

  lemma {:induction false} ItemOpsOnTable(x: Context, items: seq<Item>)
    ensures OnTable(ItemOps(x, items), x.table)
  {
    if items != [] { ItemOpsOnTable(x, items[..|items| - 1]); }
  }

  lemma {:induction false} FlatEmpty(reports: seq<seq<Diagnostic>>)
    ensures Flat(reports) == [] <==> forall i :: 0 <= i < |reports| ==> reports[i] == []
  {
    if reports != [] {
      var n := |reports| - 1;
      FlatEmpty(reports[..n]);
      assert forall i :: 0 <= i < n ==> reports[..n][i] == reports[i];
      assert |Flat(reports)| == |Flat(reports[..n])| + |reports[n]|;
    }
  }

  lemma NoDiagnosticsTablewise(live: Schema, ds: seq<DesiredTable>)
    ensures AllDiagnostics(live, ds) == [] <==> forall d :: d in ds ==> TableDiagnostics(live, d) == []
  {
    var reports := Reports(live, ds);
    FlatEmpty(reports);
    assert forall i :: 0 <= i < |ds| ==> reports[i] == TableDiagnostics(live, ds[i]) && ds[i] in ds;
  }

  lemma NoOpsTablewise(p: Phase, live: Schema, ds: seq<DesiredTable>)
    requires forall d :: d in ds ==> TableOps(p, live, d) == []
    ensures PhaseOps(p, live, ds) == []
  {
    forall i | 0 <= i < |ds| ensures Parts(p, live, ds)[i].ops == [] { assert ds[i] in ds; }
    JoinEmpty(Parts(p, live, ds));
  }

  lemma ExecOneItem(x: Context, items: seq<Item>, k: nat, t0: Table, before: Table, tables: set<string>)
    requires 0 < k <= |items| && ExecTable(ItemOps(x, items[..k - 1]), t0, tables) == Some(before)
    ensures ExecTable(ItemOps(x, items[..k]), t0, tables) == ExecTable(ItemFinding(x, items[k - 1]).ops, before, tables)
  {
    assert items[..k][..k - 1] == items[..k - 1];
    ExecTableSplits(ItemOps(x, items[..k - 1]), ItemFinding(x, items[k - 1]).ops, t0, tables);
  }

  // ----- A table without diagnostics

  /** Nothing about the table blocks: each item is fine, and the table holds nothing extra. */
  ghost predicate Clean(x: Context, d: DesiredTable) {
    && (forall c :: c in d.system ==> SystemFinding(x, c).diagnostics == [])
    && (forall c :: c in d.columns ==> ColumnFinding(x, c).diagnostics == [])
    && (forall i :: i in d.indexes ==> IndexFinding(x, i).diagnostics == [])
    && (forall c :: c in d.constraints ==> ConstraintFinding(x, c).diagnostics == [])
    && (x.live.Some? ==> NothingExtra(d, x.live.value))
  }

  ghost predicate NothingExtra(d: DesiredTable, t: Table) {
    && (forall n :: n in t.columns ==> !IsExtraColumn(d, n))
    && (forall n :: n in t.constraints ==> !IsExtraConstraint(d, t, n))
    && (forall n :: n in t.indexes ==> !IsExtraIndex(d, t, n))
  }

  lemma SortedEmpty(s: set<string>)
    ensures Sorted(s) == [] <==> forall n :: n !in s
  {
    assert s == {} <==> forall n :: n !in s;
  }

  lemma NothingExtraIffSorted(d: DesiredTable, t: Table)
    ensures NothingExtra(d, t) <==>
      Sorted(ExtraColumnSet(d, t)) == [] && Sorted(ExtraConstraintSet(d, t)) == [] && Sorted(ExtraIndexSet(d, t)) == []
  {
    SortedEmpty(ExtraColumnSet(d, t));
    SortedEmpty(ExtraConstraintSet(d, t));
    SortedEmpty(ExtraIndexSet(d, t));
    assert forall n :: n in t.columns && IsExtraColumn(d, n) <==> n in ExtraColumnSet(d, t);
    assert forall n :: n in t.indexes && IsExtraIndex(d, t, n) <==> n in ExtraIndexSet(d, t);
    assert forall n :: (n in t.constraints && IsExtraConstraint(d, t, n)) <==> n in ExtraConstraintSet(d, t);
  }

  lemma ItemsExact(d: DesiredTable)
    ensures forall c :: c in d.system ==> SystemItem(c) in Items(Columns, d)
    ensures forall c :: c in d.columns ==> ColumnItem(c) in Items(Columns, d) && DefaultItem(c) in Items(Defaults, d)
    ensures forall i :: i in d.indexes ==> IndexItem(i) in Items(Indexes, d)
    ensures forall c :: c in d.constraints ==> ConstraintItem(c) in Items(Constraints, d)
  {
    var columns := Items(Columns, d);
    forall c | c in d.system ensures SystemItem(c) in columns {
      var k :| 0 <= k < |d.system| && d.system[k] == c;
      assert columns[k] == SystemItem(c);
    }
    forall c | c in d.columns ensures ColumnItem(c) in columns && DefaultItem(c) in Items(Defaults, d) {
      var k :| 0 <= k < |d.columns| && d.columns[k] == c;
      assert columns[|d.system| + k] == ColumnItem(c);
      assert Items(Defaults, d)[k] == DefaultItem(c);
    }
    forall i | i in d.indexes ensures IndexItem(i) in Items(Indexes, d) {
      var k :| 0 <= k < |d.indexes| && d.indexes[k] == i;
      assert Items(Indexes, d)[k] == IndexItem(i);
    }
    forall c | c in d.constraints ensures ConstraintItem(c) in Items(Constraints, d) {
      var k :| 0 <= k < |d.constraints| && d.constraints[k] == c;
      assert Items(Constraints, d)[k] == ConstraintItem(c);
    }
  }

  lemma ColumnItemsClean(x: Context, d: DesiredTable)
    ensures ItemDiagnostics(x, Items(Columns, d)) == [] <==>
      (forall c :: c in d.system ==> SystemFinding(x, c).diagnostics == []) &&
      (forall c :: c in d.columns ==> ColumnFinding(x, c).diagnostics == [])
  {
    NoDiagnosticsItemwise(x, Items(Columns, d));
    ItemsExact(d);
    assert forall c :: c in d.system ==> ItemFinding(x, SystemItem(c)) == SystemFinding(x, c);
    assert forall c :: c in d.columns ==> ItemFinding(x, ColumnItem(c)) == ColumnFinding(x, c);
  }

  lemma IndexItemsClean(x: Context, d: DesiredTable)
    ensures ItemDiagnostics(x, Items(Indexes, d)) == [] <==>
      forall i :: i in d.indexes ==> IndexFinding(x, i).diagnostics == []
  {
    NoDiagnosticsItemwise(x, Items(Indexes, d));
    ItemsExact(d);
    assert forall i :: i in d.indexes ==> ItemFinding(x, IndexItem(i)) == IndexFinding(x, i);
  }

  lemma ConstraintItemsClean(x: Context, d: DesiredTable)
    ensures ItemDiagnostics(x, Items(Constraints, d)) == [] <==>
      forall c :: c in d.constraints ==> ConstraintFinding(x, c).diagnostics == []
  {
    NoDiagnosticsItemwise(x, Items(Constraints, d));
    ItemsExact(d);
    assert forall c :: c in d.constraints ==> ItemFinding(x, ConstraintItem(c)) == ConstraintFinding(x, c);
  }

  lemma ItemsClean(x: Context, d: DesiredTable)
    ensures ItemDiagnostics(x, Items(Columns, d)) == [] <==>
      (forall c :: c in d.system ==> SystemFinding(x, c).diagnostics == []) &&
      (forall c :: c in d.columns ==> ColumnFinding(x, c).diagnostics == [])
    ensures ItemDiagnostics(x, Items(Indexes, d)) == [] <==>
      forall i :: i in d.indexes ==> IndexFinding(x, i).diagnostics == []
    ensures ItemDiagnostics(x, Items(Constraints, d)) == [] <==>
      forall c :: c in d.constraints ==> ConstraintFinding(x, c).diagnostics == []
  {
    ColumnItemsClean(x, d);
    IndexItemsClean(x, d);
    ConstraintItemsClean(x, d);
  }

  lemma NoExtraReports(live: Schema, d: DesiredTable)
    ensures ExtraColumnReport(live, d) == [] && ExtraObjectReport(live, d) == [] <==>
      (d.name in live ==> NothingExtra(d, live[d.name]))
  {
    if d.name in live {
      var t := live[d.name];
      NothingExtraIffSorted(d, t);
      ReportEmpty(ExtraColumn, d.name, Sorted(ExtraColumnSet(d, t)));
      ReportEmpty(ExtraConstraint, d.name, Sorted(ExtraConstraintSet(d, t)));
      ReportEmpty(ExtraIndex, d.name, Sorted(ExtraIndexSet(d, t)));
    }
  }

  lemma ReportEmpty(kind: DiagnosticKind, table: string, names: seq<string>)
    ensures Report(kind, table, names) == [] <==> names == []
  {
    assert |Report(kind, table, names)| == |names|;
  }

  lemma CleanIffNoDiagnostics(live: Schema, d: DesiredTable)
    ensures TableDiagnostics(live, d) == [] <==> Clean(ContextOf(live, d), d)
  {
    ItemsClean(ContextOf(live, d), d);
    NoExtraReports(live, d);
    var x := ContextOf(live, d);
    AllEmpty(ItemDiagnostics(x, Items(Columns, d)), ExtraColumnReport(live, d), ItemDiagnostics(x, Items(Indexes, d)),
             ItemDiagnostics(x, Items(Constraints, d)), ExtraObjectReport(live, d));
  }

  lemma AllEmpty(a: seq<Diagnostic>, b: seq<Diagnostic>, c: seq<Diagnostic>, e: seq<Diagnostic>, f: seq<Diagnostic>)
    ensures a + b + c + e + f == [] <==> a == [] && b == [] && c == [] && e == [] && f == []
  {
    assert |a + b + c + e + f| == |a| + |b| + |c| + |e| + |f|;
  }

  // ----- Executing the phases on one table

  /** The table a plan's statements start from. */
  function Start(x: Context, d: DesiredTable): Table {
    if x.live.Some? then x.live.value else NewTable(d.name, d.system)
  }

  lemma LastNameIsNew(cs: seq<DesiredColumn>, c: DesiredColumn)
    requires cs != [] && DistinctColumns(cs) && c in cs[..|cs| - 1]
    ensures c.name != cs[|cs| - 1].name
  {
    var i :| 0 <= i < |cs| - 1 && cs[i] == c;
  }

  lemma {:induction false} SystemColumnsExact(cs: seq<DesiredColumn>)
    requires DistinctColumns(cs)
    ensures SystemColumns(cs).Keys == SchemaModel.Names(cs)
    ensures forall c :: c in cs ==> SystemColumns(cs)[c.name] == LiveSystem(c)
  {
    if cs != [] {
      var front, last := cs[..|cs| - 1], cs[|cs| - 1];
      SystemColumnsExact(front);
      assert cs == front + [last];
      NamesGrow(front, last);
      forall c | c in cs ensures SystemColumns(cs)[c.name] == LiveSystem(c) {
        if c != last {
          assert c in front;
          LastNameIsNew(cs, c);
        }
      }
    }
  }

  /** After the columns phase: every desired column is there, and nothing else changed. */
  ghost predicate ColumnsDone(cs: seq<DesiredColumn>, t0: Table, t: Table) {
    && t == t0.(columns := t.columns)
    && t.columns.Keys == t0.columns.Keys + SchemaModel.Names(cs)
    && (forall n :: n in t0.columns ==> t.columns[n] == t0.columns[n])
    && (forall i :: 0 <= i < |cs| && cs[i].name !in t0.columns ==> t.columns[cs[i].name] == LiveField(cs[i]))
  }

  predicate SafeColumns(d: DesiredTable) {
    && DistinctColumns(AllColumns(d))
    && (forall c :: c in d.columns ==> c.required && c.hasSafeDefault ==> c.defaultSQL != "")
    && (forall c :: c in d.system ==> c.defaultSQL == "" && (c.name == OWNER_ID ==> !c.required))
  }

  /** A column item adds its column when it is missing, and only when the rows allow it. */
  lemma ColumnItemOp(x: Context, d: DesiredTable, k: nat)
    requires SafeColumns(d) && k < |AllColumns(d)|
    requires ItemFinding(x, Items(Columns, d)[k]).diagnostics == []
    ensures var c, t0, ops := AllColumns(d)[k], Start(x, d), ItemFinding(x, Items(Columns, d)[k]).ops;
      if c.name in t0.columns then ops == [] else ops == [AddColumn(x.table, c, k < |d.system|)]
    ensures var c, t0 := AllColumns(d)[k], Start(x, d);
      c.name !in t0.columns && c.required && c.defaultSQL == "" ==> t0.rows == Empty
  {
    NewTableColumns(d, k);
    var c := AllColumns(d)[k];
    if k < |d.system| {
      assert Items(Columns, d)[k] == SystemItem(c) && c in d.system;
    } else {
      assert Items(Columns, d)[k] == ColumnItem(c) && c in d.columns;
    }
  }

  lemma ColumnAdded(front: seq<DesiredColumn>, c: DesiredColumn, op: Op, tables: set<string>, t0: Table, before: Table)
    requires ColumnsDone(front, t0, before)
    requires c.name !in t0.columns && c.name !in SchemaModel.Names(front)
    requires op.AddColumn? && op.column == c && (op.isSystem ==> c.defaultSQL == "")
    requires c.required && c.defaultSQL == "" ==> t0.rows == Empty
    ensures Allowed(op, before, tables)
    ensures ColumnsDone(front + [c], t0, Changed(op, before))
  {
    assert SchemaModel.Names(front + [c]) == SchemaModel.Names(front) + {c.name} by {
      NamesGrow(front, c);
    }
    assert forall i :: 0 <= i < |front| ==> front[i].name in SchemaModel.Names(front);
  }

  lemma NamesGrow(front: seq<DesiredColumn>, c: DesiredColumn)
    ensures SchemaModel.Names(front + [c]) == SchemaModel.Names(front) + {c.name}
  {
    forall n | n in SchemaModel.Names(front) ensures n in SchemaModel.Names(front + [c]) {
      var i :| 0 <= i < |front| && front[i].name == n;
      assert (front + [c])[i].name == n;
    }
    assert (front + [c])[|front|].name == c.name;
  }

  lemma ColumnStep(x: Context, d: DesiredTable, tables: set<string>, k: nat, before: Table) returns (t: Table)
    requires SafeColumns(d) && k < |AllColumns(d)|
    requires ItemFinding(x, Items(Columns, d)[k]).diagnostics == []
    requires ColumnsDone(AllColumns(d)[..k], Start(x, d), before)
    ensures ExecTable(ItemFinding(x, Items(Columns, d)[k]).ops, before, tables) == Some(t)
    ensures ColumnsDone(AllColumns(d)[..k + 1], Start(x, d), t)
  {
    var cs, c, ops := AllColumns(d), AllColumns(d)[k], ItemFinding(x, Items(Columns, d)[k]).ops;
    ColumnItemOp(x, d, k);
    assert cs[..k + 1] == cs[..k] + [c];
    NamesGrow(cs[..k], c);
    if ops == [] {
      t := before;
    } else {
      assert k < |d.system| ==> c == d.system[k];
      ColumnAdded(cs[..k], c, ops[0], tables, Start(x, d), before);
      t := Changed(ops[0], before);
      assert ops[..0] == [];
    }
  }

  lemma {:induction false} ColumnPhase(x: Context, d: DesiredTable, tables: set<string>, k: nat) returns (t: Table)
    requires SafeColumns(d) && k <= |AllColumns(d)|
    requires forall i :: i in Items(Columns, d) ==> ItemFinding(x, i).diagnostics == []
    ensures ExecTable(ItemOps(x, Items(Columns, d)[..k]), Start(x, d), tables) == Some(t)
    ensures ColumnsDone(AllColumns(d)[..k], Start(x, d), t)
  {
    if k == 0 {
      t := Start(x, d);
    } else {
      var before := ColumnPhase(x, d, tables, k - 1);
      t := ColumnStep(x, d, tables, k - 1, before);
      ExecOneItem(x, Items(Columns, d), k, Start(x, d), before, tables);
    }
  }

  lemma NotSystem(d: DesiredTable, i: nat)
    requires DistinctColumns(AllColumns(d)) && |d.system| <= i < |AllColumns(d)|
    ensures AllColumns(d)[i] !in d.system && AllColumns(d)[i].name !in SchemaModel.Names(d.system)
  {
    forall j | 0 <= j < |d.system| ensures d.system[j].name != AllColumns(d)[i].name {
      assert AllColumns(d)[j] == d.system[j];
    }
  }

  lemma NewTableColumns(d: DesiredTable, i: nat)
    requires DistinctColumns(AllColumns(d)) && i < |AllColumns(d)|
    ensures DistinctColumns(d.system)
    ensures AllColumns(d)[i].name in SystemColumns(d.system) <==> i < |d.system|
  {
    forall a, b | 0 <= a < b < |d.system| ensures d.system[a].name != d.system[b].name {
      assert AllColumns(d)[a] == d.system[a] && AllColumns(d)[b] == d.system[b];
    }
    SystemColumnsExact(d.system);
    if i < |d.system| {
      assert AllColumns(d)[i] == d.system[i];
    } else {
      NotSystem(d, i);
    }
  }

  // ----- Defaults

  ghost predicate DefaultsDone(cs: seq<DesiredColumn>, t1: Table, t: Table) {
    && t == t1.(columns := t.columns)
    && t.columns.Keys == t1.columns.Keys
    && (forall n :: n in t.columns ==> t.columns[n].ty == t1.columns[n].ty && t.columns[n].nullable == t1.columns[n].nullable)
    && (forall n :: n in t.columns && n !in SchemaModel.Names(cs) ==> t.columns[n] == t1.columns[n])
    && (forall i :: 0 <= i < |cs| ==> cs[i].name in t.columns && DefaultMatches(cs[i], t.columns[cs[i].name]))
  }

  /** A column is as the live table has it, or as its definition made it. */
  predicate ColumnKept(x: Context, c: DesiredColumn, t: Table) {
    && c.name in t.columns
    && if x.live.Some? && c.name in x.live.value.columns then t.columns[c.name] == x.live.value.columns[c.name]
       else t.columns[c.name] == LiveField(c)
  }

  lemma OneOp(op: Op, t: Table, tables: set<string>)
    ensures ExecTable([op], t, tables) == if Allowed(op, t, tables) then Some(Changed(op, t)) else None
    ensures ExecTable([], t, tables) == Some(t)
  {
    assert [op][..0] == [];
  }

  lemma DefaultsOneMore(front: seq<DesiredColumn>, c: DesiredColumn, t1: Table, before: Table, t: Table)
    requires DefaultsDone(front, t1, before) && c.name in t1.columns
    requires t == before.(columns := t.columns) && t.columns.Keys == before.columns.Keys
    requires forall n :: n in t.columns && n != c.name ==> t.columns[n] == before.columns[n]
    requires t.columns[c.name].ty == before.columns[c.name].ty && t.columns[c.name].nullable == before.columns[c.name].nullable
    requires DefaultMatches(c, t.columns[c.name]) && c.name !in SchemaModel.Names(front)
    ensures DefaultsDone(front + [c], t1, t)
  {
    NamesGrow(front, c);
    forall i | 0 <= i < |front|
      ensures front[i].name in t.columns && DefaultMatches(front[i], t.columns[front[i].name])
    {
      assert front[i].name in SchemaModel.Names(front);
    }
  }

  lemma DefaultStep(x: Context, front: seq<DesiredColumn>, c: DesiredColumn, tables: set<string>, t1: Table, before: Table)
      returns (t: Table)
    requires DefaultsDone(front, t1, before) && ColumnKept(x, c, t1) && c.name !in SchemaModel.Names(front)
    ensures ExecTable(DefaultFinding(x, c).ops, before, tables) == Some(t)
    ensures DefaultsDone(front + [c], t1, t)
  {
    var op := SetDefault(x.table, c.name, c.defaultSQL);
    OneOp(op, before, tables);
    assert before.columns[c.name] == t1.columns[c.name];
    t := if DefaultFinding(x, c).ops == [] then before else Changed(op, before);
    DefaultsOneMore(front, c, t1, before, t);
  }

  lemma {:induction false} DefaultPhase(x: Context, d: DesiredTable, tables: set<string>, k: nat, t1: Table)
      returns (t: Table)
    requires DistinctColumns(d.columns) && k <= |d.columns|
    requires forall c :: c in d.columns ==> ColumnKept(x, c, t1)
    ensures ExecTable(ItemOps(x, Items(Defaults, d)[..k]), t1, tables) == Some(t)
    ensures DefaultsDone(d.columns[..k], t1, t)
  {
    if k == 0 {
      t := t1;
    } else {
      var before := DefaultPhase(x, d, tables, k - 1, t1);
      var items, c := Items(Defaults, d), d.columns[k - 1];
      assert items[k - 1] == DefaultItem(c);
      assert d.columns[..k] == d.columns[..k - 1] + [c];
      t := DefaultStep(x, d.columns[..k - 1], c, tables, t1, before);
      ExecOneItem(x, items, k, t1, before, tables);
    }
  }

  // ----- Indexes

  ghost predicate IndexesDone(x: Context, s: seq<DesiredIndex>, t2: Table, t: Table) {
    && t == t2.(indexes := t.indexes)
    && t2.indexes.Keys <= t.indexes.Keys <= t2.indexes.Keys + IndexNames(s)
    && (forall n :: n in t2.indexes ==> t.indexes[n] == t2.indexes[n])
    && (forall i :: 0 <= i < |s| && AllAvailable(s[i].columns, x.available) ==>
          s[i].name in t.indexes && IndexMatches(t.indexes[s[i].name], s[i]))
  }

  lemma IndexNamesGrow(front: seq<DesiredIndex>, i: DesiredIndex)
    ensures IndexNames(front + [i]) == IndexNames(front) + {i.name}
  {
    forall n | n in IndexNames(front) ensures n in IndexNames(front + [i]) {
      var k :| 0 <= k < |front| && front[k].name == n;
      assert (front + [i])[k].name == n;
    }
    assert (front + [i])[|front|].name == i.name;
  }

  lemma IndexStep(x: Context, front: seq<DesiredIndex>, i: DesiredIndex, tables: set<string>, t2: Table, before: Table)
      returns (t: Table)
    requires IndexesDone(x, front, t2, before) && i.name !in IndexNames(front)
    requires IndexFinding(x, i).diagnostics == []
    requires x.available <= t2.columns.Keys
    requires if x.live.Some? then t2.indexes == x.live.value.indexes else i.name !in t2.indexes
    ensures ExecTable(IndexFinding(x, i).ops, before, tables) == Some(t)
    ensures IndexesDone(x, front + [i], t2, t)
  {
    IndexNamesGrow(front, i);
    assert forall k :: 0 <= k < |front| ==> front[k].name in IndexNames(front);
    var ops := IndexFinding(x, i).ops;
    if ops == [] {
      t := before;
    } else {
      t := Changed(ops[0], before);
      assert ops[..0] == [];
    }
  }

  lemma {:induction false} IndexPhase(x: Context, d: DesiredTable, tables: set<string>, k: nat, t2: Table)
      returns (t: Table)
    requires DistinctIndexes(d.indexes) && k <= |d.indexes|
    requires forall i :: i in d.indexes ==> IndexFinding(x, i).diagnostics == []
    requires x.available <= t2.columns.Keys
    requires if x.live.Some? then t2.indexes == x.live.value.indexes else t2.indexes.Keys !! IndexNames(d.indexes)
    ensures ExecTable(ItemOps(x, Items(Indexes, d)[..k]), t2, tables) == Some(t)
    ensures IndexesDone(x, d.indexes[..k], t2, t)
  {
    if k == 0 {
      t := t2;
    } else {
      var before := IndexPhase(x, d, tables, k - 1, t2);
      var items, i := Items(Indexes, d), d.indexes[k - 1];
      assert items[k - 1] == IndexItem(i);
      assert d.indexes[..k] == d.indexes[..k - 1] + [i];
      assert i.name in IndexNames(d.indexes);
      t := IndexStep(x, d.indexes[..k - 1], i, tables, t2, before);
      ExecOneItem(x, items, k, t2, before, tables);
    }
  }

  // ----- Constraints

  predicate ConstraintPresent(t: Table, c: DesiredConstraint) {
    && c.name in t.constraints
    && t.constraints[c.name].kind == c.definition.kind
    && ConstraintMatches(t.constraints[c.name], c.definition)
  }

  ghost predicate ConstraintsDone(x: Context, s: seq<DesiredConstraint>, t3: Table, t: Table) {
    && t == t3.(indexes := t.indexes, constraints := t.constraints)
    && t3.constraints.Keys <= t.constraints.Keys <= t3.constraints.Keys + ConstraintNames(s)
    && (forall n :: n in t3.constraints ==> t.constraints[n] == t3.constraints[n])
    && t3.indexes.Keys <= t.indexes.Keys <= t3.indexes.Keys + (t.constraints.Keys - t3.constraints.Keys)
    && (forall n :: n in t3.indexes ==> t.indexes[n] == t3.indexes[n])
    && (forall i :: 0 <= i < |s| && AllAvailable(s[i].definition.columns, x.available) ==> ConstraintPresent(t, s[i]))
  }

  lemma ConstraintNamesGrow(front: seq<DesiredConstraint>, c: DesiredConstraint)
    ensures ConstraintNames(front + [c]) == ConstraintNames(front) + {c.name}
  {
    forall n | n in ConstraintNames(front) ensures n in ConstraintNames(front + [c]) {
      var k :| 0 <= k < |front| && front[k].name == n;
      assert (front + [c])[k].name == n;
    }
    assert (front + [c])[|front|].name == c.name;
  }

  /** The start of the constraints phase leaves room for a constraint that is still missing. */
  predicate RoomFor(x: Context, c: DesiredConstraint, t3: Table, tables: set<string>) {
    && c.definition.kind in {Unique, ForeignKey, Check}
    && (c.definition.kind.ForeignKey? ==> c.definition.body in tables)
    && (if x.live.Some? then t3.constraints == x.live.value.constraints else c.name !in t3.constraints)
    && (c.name !in t3.constraints ==> c.name !in t3.indexes)
  }

  lemma ConstraintAdded(x: Context, front: seq<DesiredConstraint>, c: DesiredConstraint, op: Op, tables: set<string>,
                        t3: Table, before: Table)
    requires ConstraintsDone(x, front, t3, before) && c.name !in ConstraintNames(front)
    requires op == AddConstraint(x.table, c.name, c.definition)
    requires c.name !in t3.constraints && RoomFor(x, c, t3, tables)
    requires forall n :: n in c.definition.columns ==> n in t3.columns
    ensures Allowed(op, before, tables)
    ensures ConstraintsDone(x, front + [c], t3, Changed(op, before))
  {
    ConstraintNamesGrow(front, c);
    assert c.name !in before.constraints && c.name !in before.indexes;
    var t := Changed(op, before);
    assert t.constraints == before.constraints[c.name := c.definition];
    OthersStayPresent(x, front, c, before, t);
  }

  lemma OthersStayPresent(x: Context, front: seq<DesiredConstraint>, c: DesiredConstraint, before: Table, t: Table)
    requires c.name !in ConstraintNames(front) && t.constraints == before.constraints[c.name := c.definition]
    requires forall i :: 0 <= i < |front| && AllAvailable(front[i].definition.columns, x.available) ==>
      ConstraintPresent(before, front[i])
    requires c.definition.kind in {Unique, ForeignKey, Check}
    ensures forall i :: 0 <= i < |front + [c]| && AllAvailable((front + [c])[i].definition.columns, x.available) ==>
      ConstraintPresent(t, (front + [c])[i])
  {
    forall i | 0 <= i < |front| && AllAvailable(front[i].definition.columns, x.available)
      ensures ConstraintPresent(t, front[i])
    {
      assert front[i].name in ConstraintNames(front);
      assert ConstraintPresent(before, front[i]);
    }
    assert ConstraintPresent(t, c);
  }

  lemma ConstraintStep(x: Context, front: seq<DesiredConstraint>, c: DesiredConstraint, tables: set<string>,
                       t3: Table, before: Table) returns (t: Table)
    requires ConstraintsDone(x, front, t3, before) && c.name !in ConstraintNames(front)
    requires ConstraintFinding(x, c).diagnostics == [] && RoomFor(x, c, t3, tables)
    requires x.available <= t3.columns.Keys
    ensures ExecTable(ConstraintFinding(x, c).ops, before, tables) == Some(t)
    ensures ConstraintsDone(x, front + [c], t3, t)
  {
    var ops := ConstraintFinding(x, c).ops;
    if ops == [] {
      ConstraintNamesGrow(front, c);
      t := before;
    } else {
      ConstraintAdded(x, front, c, ops[0], tables, t3, before);
      t := Changed(ops[0], before);
      assert ops[..0] == [];
    }
  }

  lemma {:induction false} ConstraintPhase(x: Context, d: DesiredTable, tables: set<string>, k: nat, t3: Table)
      returns (t: Table)
    requires DistinctConstraints(d.constraints) && k <= |d.constraints|
    requires forall c :: c in d.constraints ==> ConstraintFinding(x, c).diagnostics == [] && RoomFor(x, c, t3, tables)
    requires x.available <= t3.columns.Keys
    ensures ExecTable(ItemOps(x, Items(Constraints, d)[..k]), t3, tables) == Some(t)
    ensures ConstraintsDone(x, d.constraints[..k], t3, t)
  {
    if k == 0 {
      t := t3;
    } else {
      var before := ConstraintPhase(x, d, tables, k - 1, t3);
      var items, c := Items(Constraints, d), d.constraints[k - 1];
      assert items[k - 1] == ConstraintItem(c);
      assert d.constraints[..k] == d.constraints[..k - 1] + [c];
      t := ConstraintStep(x, d.constraints[..k - 1], c, tables, t3, before);
      ExecOneItem(x, items, k, t3, before, tables);
    }
  }

  // ----- One table, start to end

  predicate ColumnAgrees(c: DesiredColumn, t: Table) {
    c.name in t.columns && t.columns[c.name].ty == c.ty && t.columns[c.name].nullable == !c.required
  }

  /** A table that needs nothing more: what the planner looks for is there and nothing else is. */
  ghost predicate Synced(d: DesiredTable, available: set<string>, t: Table) {
    && (forall i :: 0 <= i < |d.system| ==> ColumnAgrees(d.system[i], t))
    && (forall i :: 0 <= i < |d.columns| ==> ColumnAgrees(d.columns[i], t))
    && (forall i :: 0 <= i < |d.columns| ==> DefaultMatches(d.columns[i], t.columns[d.columns[i].name]))
    && (forall i :: 0 <= i < |d.indexes| && AllAvailable(d.indexes[i].columns, available) ==>
          d.indexes[i].name in t.indexes && IndexMatches(t.indexes[d.indexes[i].name], d.indexes[i]))
    && (forall i :: 0 <= i < |d.constraints| && AllAvailable(d.constraints[i].definition.columns, available) ==>
          ConstraintPresent(t, d.constraints[i]))
    && (forall c :: c in d.constraints ==> !c.unsupported)
    && NothingExtra(d, t)
  }

  /** Everything a table had is still there, columns up to their default. */
  ghost predicate Extends(t0: Table, t: Table) {
    && t0.columns.Keys <= t.columns.Keys && t.rows == t0.rows
    && (forall n :: n in t0.columns ==>
          t.columns[n].ty == t0.columns[n].ty && t.columns[n].nullable == t0.columns[n].nullable)
    && (forall n :: n in t0.indexes ==> n in t.indexes && t.indexes[n] == t0.indexes[n])
    && (forall n :: n in t0.constraints ==> n in t.constraints && t.constraints[n] == t0.constraints[n])
  }

  ghost predicate ContextFor(x: Context, d: DesiredTable) {
    x.table == d.name && x.available == Available(d, x.live)
  }

  lemma CleanAvailable(x: Context, d: DesiredTable)
    requires ContextFor(x, d) && Clean(x, d)
    ensures x.available == SchemaModel.Names(d.system) + SchemaModel.Names(d.columns)
  {
    forall i | 0 <= i < |d.system| ensures SystemAvailable(x.live, d.system[i]) {
      assert d.system[i] in d.system;
    }
    forall i | 0 <= i < |d.columns| ensures !ColumnBlocked(x.live, d.columns[i]) {
      assert d.columns[i] in d.columns;
    }
  }

  lemma AllColumnsNames(d: DesiredTable)
    ensures SchemaModel.Names(AllColumns(d)) == SchemaModel.Names(d.system) + SchemaModel.Names(d.columns)
  {
    forall i | 0 <= i < |AllColumns(d)|
      ensures AllColumns(d)[i].name in SchemaModel.Names(d.system) + SchemaModel.Names(d.columns)
    {
      if i < |d.system| {
        assert AllColumns(d)[i] == d.system[i];
      } else {
        assert AllColumns(d)[i] == d.columns[i - |d.system|];
      }
    }
    forall i | 0 <= i < |d.system| ensures d.system[i].name in SchemaModel.Names(AllColumns(d)) {
      assert AllColumns(d)[i] == d.system[i];
    }
    forall i | 0 <= i < |d.columns| ensures d.columns[i].name in SchemaModel.Names(AllColumns(d)) {
      assert AllColumns(d)[|d.system| + i] == d.columns[i];
    }
  }

  lemma FieldsKept(x: Context, d: DesiredTable, t1: Table)
    requires DistinctColumns(AllColumns(d)) && ColumnsDone(AllColumns(d), Start(x, d), t1)
    ensures DistinctColumns(d.columns)
    ensures forall c :: c in d.columns ==> ColumnKept(x, c, t1)
  {
    AllColumnsNames(d);
    forall i, j | 0 <= i < j < |d.columns| ensures d.columns[i].name != d.columns[j].name {
      assert AllColumns(d)[|d.system| + i] == d.columns[i] && AllColumns(d)[|d.system| + j] == d.columns[j];
    }
    forall c | c in d.columns ensures ColumnKept(x, c, t1) {
      var i :| 0 <= i < |d.columns| && d.columns[i] == c;
      var k := |d.system| + i;
      assert AllColumns(d)[k] == c;
      NewTableColumns(d, k);
      assert c.name in SchemaModel.Names(d.columns);
    }
  }

  /** A system column is as it was before, or as its definition made it. */
  predicate SystemColumnKept(t0: Table, c: DesiredColumn, t: Table) {
    c.name in t.columns && t.columns[c.name] == if c.name in t0.columns then t0.columns[c.name] else LiveField(c)
  }

  lemma SystemColumnsKept(x: Context, d: DesiredTable, t1: Table, t2: Table)
    requires DistinctColumns(AllColumns(d))
    requires ColumnsDone(AllColumns(d), Start(x, d), t1) && DefaultsDone(d.columns, t1, t2)
    ensures forall i :: 0 <= i < |d.system| ==> SystemColumnKept(Start(x, d), d.system[i], t2)
  {
    AllColumnsNames(d);
    forall k | 0 <= k < |d.columns| ensures d.columns[k].name !in SchemaModel.Names(d.system) {
      NotSystem(d, |d.system| + k);
    }
    forall i | 0 <= i < |d.system| ensures SystemColumnKept(Start(x, d), d.system[i], t2) {
      var c := d.system[i];
      assert AllColumns(d)[i] == c && c.name in SchemaModel.Names(d.system);
    }
  }

  lemma ColumnsAndDefaults(x: Context, d: DesiredTable, tables: set<string>) returns (t1: Table, t2: Table)
    requires Clean(x, d) && SafeColumns(d)
    ensures ExecTable(ItemOps(x, Items(Columns, d)), Start(x, d), tables) == Some(t1)
    ensures ExecTable(ItemOps(x, Items(Defaults, d)), t1, tables) == Some(t2)
    ensures ColumnsDone(AllColumns(d), Start(x, d), t1)
    ensures DefaultsDone(d.columns, t1, t2)
  {
    CleanItems(x, d);
    FullItems(x, d);
    t1 := ColumnPhase(x, d, tables, |AllColumns(d)|);
    assert AllColumns(d)[..|AllColumns(d)|] == AllColumns(d);
    FieldsKept(x, d, t1);
    t2 := DefaultPhase(x, d, tables, |d.columns|, t1);
    assert d.columns[..|d.columns|] == d.columns;
  }

  lemma IndexesAndConstraints(x: Context, d: DesiredTable, tables: set<string>, t2: Table) returns (t3: Table, t4: Table)
    requires Clean(x, d) && WellNamed(d, tables) && x.available <= t2.columns.Keys
    requires t2.indexes == Start(x, d).indexes && t2.constraints == Start(x, d).constraints
    ensures ExecTable(ItemOps(x, Items(Indexes, d)), t2, tables) == Some(t3)
    ensures ExecTable(ItemOps(x, Items(Constraints, d)), t3, tables) == Some(t4)
    ensures IndexesDone(x, d.indexes, t2, t3)
    ensures ConstraintsDone(x, d.constraints, t3, t4)
  {
    FullItems(x, d);
    t3 := IndexPhase(x, d, tables, |d.indexes|, t2);
    assert d.indexes[..|d.indexes|] == d.indexes;
    forall c | c in d.constraints ensures RoomFor(x, c, t3, tables) { RoomBeforeConstraints(x, d, c, t3, tables); }
    t4 := ConstraintPhase(x, d, tables, |d.constraints|, t3);
    assert d.constraints[..|d.constraints|] == d.constraints;
  }

  /** The four phases succeed on one table; what each of them leaves is handed to the next. */
  lemma TablePhases(x: Context, d: DesiredTable, tables: set<string>) returns (t1: Table, t2: Table, t3: Table, t4: Table)
    requires ContextFor(x, d) && Clean(x, d) && WellNamed(d, tables)
    ensures ExecTable(ItemOps(x, Items(Columns, d)), Start(x, d), tables) == Some(t1)
    ensures ExecTable(ItemOps(x, Items(Defaults, d)), t1, tables) == Some(t2)
    ensures ExecTable(ItemOps(x, Items(Indexes, d)), t2, tables) == Some(t3)
    ensures ExecTable(ItemOps(x, Items(Constraints, d)), t3, tables) == Some(t4)
    ensures ColumnsDone(AllColumns(d), Start(x, d), t1)
    ensures DefaultsDone(d.columns, t1, t2)
    ensures IndexesDone(x, d.indexes, t2, t3)
    ensures ConstraintsDone(x, d.constraints, t3, t4)
  {
    CleanAvailable(x, d);
    AllColumnsNames(d);
    t1, t2 := ColumnsAndDefaults(x, d, tables);
    t3, t4 := IndexesAndConstraints(x, d, tables, t2);
  }

  lemma FullItems(x: Context, d: DesiredTable)
    ensures Items(Columns, d)[..|AllColumns(d)|] == Items(Columns, d)
    ensures Items(Defaults, d)[..|d.columns|] == Items(Defaults, d)
    ensures Items(Indexes, d)[..|d.indexes|] == Items(Indexes, d)
    ensures Items(Constraints, d)[..|d.constraints|] == Items(Constraints, d)
  {
  }

  lemma CleanItems(x: Context, d: DesiredTable)
    requires Clean(x, d)
    ensures forall i :: i in Items(Columns, d) ==> ItemFinding(x, i).diagnostics == []
  {
    forall i | i in Items(Columns, d) ensures ItemFinding(x, i).diagnostics == [] {
      var k :| 0 <= k < |Items(Columns, d)| && Items(Columns, d)[k] == i;
      if k < |d.system| { assert d.system[k] in d.system; } else { assert d.columns[k - |d.system|] in d.columns; }
    }
  }

  lemma RoomBeforeConstraints(x: Context, d: DesiredTable, c: DesiredConstraint, t3: Table, tables: set<string>)
    requires Clean(x, d) && WellNamed(d, tables) && c in d.constraints
    requires t3.constraints == Start(x, d).constraints
    requires t3.indexes.Keys <= Start(x, d).indexes.Keys + IndexNames(d.indexes)
    ensures RoomFor(x, c, t3, tables)
  {
    assert c.name in ConstraintNames(d.constraints) by {
      var i :| 0 <= i < |d.constraints| && d.constraints[i] == c;
    }
    if x.live.Some? && c.name in t3.indexes {
      assert c.name in x.live.value.indexes;
      assert !IsExtraIndex(d, x.live.value, c.name);
    }
  }

  /** The table after all four phases: everything it had, all that metadata asks for, nothing else. */
  lemma TableSync(x: Context, d: DesiredTable, tables: set<string>) returns (t1: Table, t2: Table, t3: Table, t: Table)
    requires ContextFor(x, d) && Clean(x, d) && WellNamed(d, tables)
    ensures ExecTable(ItemOps(x, Items(Columns, d)), Start(x, d), tables) == Some(t1)
    ensures ExecTable(ItemOps(x, Items(Defaults, d)), t1, tables) == Some(t2)
    ensures ExecTable(ItemOps(x, Items(Indexes, d)), t2, tables) == Some(t3)
    ensures ExecTable(ItemOps(x, Items(Constraints, d)), t3, tables) == Some(t)
    ensures Extends(Start(x, d), t) && Synced(d, x.available, t)
    ensures t.columns.Keys == Start(x, d).columns.Keys + x.available
    ensures forall i :: 0 <= i < |d.system| ==> SystemColumnKept(Start(x, d), d.system[i], t)
  {
    t1, t2, t3, t := TablePhases(x, d, tables);
    SystemColumnsKept(x, d, t1, t2);
    CleanAvailable(x, d);
    AllColumnsNames(d);
    ColumnsAgreeAfter(x, d, t1);
    ColumnsStayAgreed(d, t1, t);
    assert forall c :: c in d.constraints ==> ConstraintFinding(x, c).diagnostics == [];
    NothingExtraAfter(x, d, tables, t1, t2, t3, t);
  }

  lemma ColumnsStayAgreed(d: DesiredTable, t1: Table, t: Table)
    requires forall k :: 0 <= k < |AllColumns(d)| ==> ColumnAgrees(AllColumns(d)[k], t1)
    requires t.columns.Keys == t1.columns.Keys
    requires forall n :: n in t.columns ==> t.columns[n].ty == t1.columns[n].ty && t.columns[n].nullable == t1.columns[n].nullable
    ensures forall i :: 0 <= i < |d.system| ==> ColumnAgrees(d.system[i], t)
    ensures forall i :: 0 <= i < |d.columns| ==> ColumnAgrees(d.columns[i], t)
  {
    forall i | 0 <= i < |d.system| ensures ColumnAgrees(d.system[i], t) {
      assert ColumnAgrees(AllColumns(d)[i], t1);
    }
    forall i | 0 <= i < |d.columns| ensures ColumnAgrees(d.columns[i], t) {
      assert ColumnAgrees(AllColumns(d)[|d.system| + i], t1);
    }
  }

  lemma ColumnsAgreeAfter(x: Context, d: DesiredTable, t1: Table)
    requires Clean(x, d) && SafeColumns(d) && ColumnsDone(AllColumns(d), Start(x, d), t1)
    ensures forall k :: 0 <= k < |AllColumns(d)| ==> ColumnAgrees(AllColumns(d)[k], t1)
  {
    forall k | 0 <= k < |AllColumns(d)| ensures ColumnAgrees(AllColumns(d)[k], t1) { ColumnAgreesAfter(x, d, t1, k); }
  }

  lemma ColumnAgreesAfter(x: Context, d: DesiredTable, t1: Table, k: nat)
    requires Clean(x, d) && SafeColumns(d) && k < |AllColumns(d)|
    requires ColumnsDone(AllColumns(d), Start(x, d), t1)
    ensures ColumnAgrees(AllColumns(d)[k], t1)
  {
    var c := AllColumns(d)[k];
    assert c.name in SchemaModel.Names(AllColumns(d));
    NewTableColumns(d, k);
    if k < |d.system| {
      assert c == d.system[k] && c in d.system;
      if x.live.None? { SystemColumnsExact(d.system); }
    } else {
      assert c == d.columns[k - |d.system|] && c in d.columns;
    }
  }

  /** The start of the statements holds nothing extra, whether it is a live table or a new one. */
  lemma NothingExtraBefore(x: Context, d: DesiredTable)
    requires Clean(x, d) && DistinctColumns(AllColumns(d))
    ensures NothingExtra(d, Start(x, d))
  {
    if x.live.None? { SystemColumnsNames(d); }
  }

  lemma NothingExtraAfter(x: Context, d: DesiredTable, tables: set<string>, t1: Table, t2: Table, t3: Table, t: Table)
    requires Clean(x, d) && WellNamed(d, tables)
    requires ColumnsDone(AllColumns(d), Start(x, d), t1) && DefaultsDone(d.columns, t1, t2)
    requires IndexesDone(x, d.indexes, t2, t3) && ConstraintsDone(x, d.constraints, t3, t)
    ensures NothingExtra(d, t)
  {
    var t0 := Start(x, d);
    AllColumnsNames(d);
    NothingExtraBefore(x, d);
    GrownHasNothingExtra(d, t0, t);
  }

  lemma GrownHasNothingExtra(d: DesiredTable, t0: Table, t: Table)
    requires NothingExtra(d, t0)
    requires t.columns.Keys <= t0.columns.Keys + SchemaModel.Names(d.system) + SchemaModel.Names(d.columns)
    requires t0.constraints.Keys <= t.constraints.Keys <= t0.constraints.Keys + ConstraintNames(d.constraints)
    requires forall n :: n in t0.constraints ==> t.constraints[n] == t0.constraints[n]
    requires t.indexes.Keys <= t0.indexes.Keys + IndexNames(d.indexes) + t.constraints.Keys
    ensures NothingExtra(d, t)
  {
    forall n | n in t.columns ensures !IsExtraColumn(d, n) {
      if n in t0.columns { assert !IsExtraColumn(d, n); }
    }
    forall n | n in t.constraints ensures !IsExtraConstraint(d, t, n) {
      if n in t0.constraints { assert !IsExtraConstraint(d, t0, n); }
    }
    forall n | n in t.indexes ensures !IsExtraIndex(d, t, n) {
      if n in t0.indexes { assert !IsExtraIndex(d, t0, n); }
    }
  }

  lemma SystemColumnsNames(d: DesiredTable)
    requires DistinctColumns(AllColumns(d))
    ensures SystemColumns(d.system).Keys == SchemaModel.Names(d.system)
  {
    forall a, b | 0 <= a < b < |d.system| ensures d.system[a].name != d.system[b].name {
      assert AllColumns(d)[a] == d.system[a] && AllColumns(d)[b] == d.system[b];
    }
    SystemColumnsExact(d.system);
  }
}
