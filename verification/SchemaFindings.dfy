/**
  When the schema planner reports something and when it plans a statement: the
  findings on one item against what the database would do, and the plan as a whole
  as the findings of its items.
 */
module SchemaFindings {
  import opened Wrappers
  import opened SchemaModel
  import opened SchemaPlan
  import opened SchemaSync
  import opened SortedNames

  // ----- Columns

  /** The rows a table may hold, given what its inspection found. */
  predicate CouldHold(found: RowState, rows: RowState) {
    (rows == Empty || rows == NonEmpty) && (found == Unknown || found == rows)
  }

  /** As far as the planner can know, the database may refuse the statement on the table. */
  ghost predicate CouldBeRefused(op: Op, t: Table, tables: set<string>) {
    exists rows :: CouldHold(t.rows, rows) && !Allowed(op, t.(rows := rows), tables)
  }

  /** Metadata gives a required column a default exactly when it counts as safe to add. */
  predicate HasHonestDefault(c: DesiredColumn) {
    c.required ==> (c.hasSafeDefault <==> c.defaultSQL != "")
  }

  lemma BuiltColumnIsHonest(f: Field)
    requires f.dflt.Literal? ==> f.dflt.sql != ""
    ensures HasHonestDefault(ColumnOf(f))
    ensures ColumnOf(f).required <==> f.required && !f.secret
  {
  }

  /**
    A field's column that a live table lacks is reported exactly when the database
    could refuse to add it, and in every other case it is added.
   */
  lemma MissingColumnFinding(x: Context, c: DesiredColumn, tables: set<string>)
    requires x.live.Some? && c.name !in x.live.value.columns && HasHonestDefault(c)
    ensures var op := AddColumn(x.table, c, false);
      if CouldBeRefused(op, x.live.value, tables)
      then ColumnFinding(x, c) == Finding([], [Diagnostic(MissingRequiredColumn, x.table, c.name, "")])
      else ColumnFinding(x, c) == Finding([op], [])
  {
    var op, t := AddColumn(x.table, c, false), x.live.value;
    if ColumnBlocked(x.live, c) {
      assert CouldHold(t.rows, NonEmpty) && !Allowed(op, t.(rows := NonEmpty), tables);
    }
  }

  /** On a new table every field's column is added; its system columns come with it. */
  lemma NewTableFinding(x: Context, c: DesiredColumn)
    requires x.live.None?
    ensures ColumnFinding(x, c) == Finding([AddColumn(x.table, c, false)], [])
    ensures SystemFinding(x, c) == Finding([], []) && DefaultFinding(x, c) == Finding([], [])
  {
  }

  /** Of the system columns only the owner is added to a live table; the database never refuses that for an optional one. */
  lemma MissingSystemFinding(x: Context, c: DesiredColumn, tables: set<string>)
    requires x.live.Some? && c.name !in x.live.value.columns
    ensures if c.name == "owner_id" then SystemFinding(x, c) == Finding([AddColumn(x.table, c, true)], [])
            else SystemFinding(x, c) == Finding([], [Diagnostic(MissingSystemColumn, x.table, c.name, "")])
    ensures !c.required ==> !CouldBeRefused(AddColumn(x.table, c, true), x.live.value, tables)
  {
  }

  /** The column that adding it would leave. */
  function AsAdded(c: DesiredColumn): Column {
    Changed(AddColumn("", c, false), Table(Empty, map[], map[], map[])).columns[c.name]
  }

  /**
    A live column is reported exactly for the parts in which it differs from the
    column that adding it would leave: its type, and whether it is nullable.
   */
  lemma LiveColumnFinding(x: Context, c: DesiredColumn, e: Diagnostic)
    requires x.live.Some? && c.name in x.live.value.columns
    ensures var l := x.live.value.columns[c.name];
      var differs := (e == Diagnostic(ColumnTypeDrift, x.table, c.name, "") && l.ty != AsAdded(c).ty)
                  || (e == Diagnostic(ColumnRequiredDrift, x.table, c.name, "") && l.nullable != AsAdded(c).nullable);
      && ColumnFinding(x, c).ops == [] && SystemFinding(x, c).ops == []
      && (e in ColumnFinding(x, c).diagnostics <==> differs) && (e in SystemFinding(x, c).diagnostics <==> differs)
  {
  }

  /** Its default is set exactly when it is not the one that adding the column would leave, and then it is. */
  lemma LiveDefaultFinding(x: Context, c: DesiredColumn)
    requires x.live.Some? && c.name in x.live.value.columns
    ensures var l, w, op := x.live.value.columns[c.name], AsAdded(c), SetDefault(x.table, c.name, c.defaultSQL);
      && DefaultFinding(x, c).diagnostics == []
      && (DefaultFinding(x, c).ops == [] <==> l.hasDefault == w.hasDefault && (w.hasDefault ==> l.defaultSQL == w.defaultSQL))
      && (DefaultFinding(x, c).ops != [] ==>
            DefaultFinding(x, c).ops == [op]
            && Changed(op, x.live.value).columns[c.name] == l.(hasDefault := w.hasDefault, defaultSQL := w.defaultSQL))
  {
  }

  // ----- Indexes and constraints

  /** A column an index or a constraint can rely on: it is there, it comes with a new table, or the plan adds it. */
  ghost predicate Comes(d: DesiredTable, live: Schema, n: string) {
    || (exists i :: 0 <= i < |d.system| && d.system[i].name == n && SystemComes(d, live, d.system[i]))
    || (exists i :: 0 <= i < |d.columns| && d.columns[i].name == n && FieldComes(d, live, d.columns[i]))
  }

  ghost predicate SystemComes(d: DesiredTable, live: Schema, c: DesiredColumn) {
    d.name !in live || c.name in live[d.name].columns || SystemFinding(ContextOf(live, d), c).ops != []
  }

  ghost predicate FieldComes(d: DesiredTable, live: Schema, c: DesiredColumn) {
    (d.name in live && c.name in live[d.name].columns) || ColumnFinding(ContextOf(live, d), c).ops != []
  }

  lemma AvailableIffComes(d: DesiredTable, live: Schema, n: string)
    ensures n in ContextOf(live, d).available <==> Comes(d, live, n)
  {
    forall i | 0 <= i < |d.system|
      ensures SystemComes(d, live, d.system[i]) <==> SystemAvailable(ContextOf(live, d).live, d.system[i]) { }
    forall i | 0 <= i < |d.columns|
      ensures FieldComes(d, live, d.columns[i]) <==> !ColumnBlocked(ContextOf(live, d).live, d.columns[i]) { }
  }

  ghost predicate AllCome(d: DesiredTable, live: Schema, columns: seq<string>) {
    forall n :: n in columns ==> Comes(d, live, n)
  }

  lemma AllAvailableIffAllCome(d: DesiredTable, live: Schema, columns: seq<string>)
    ensures AllAvailable(columns, ContextOf(live, d).available) <==> AllCome(d, live, columns)
  {
    forall n | n in columns ensures n in ContextOf(live, d).available <==> Comes(d, live, n) { AvailableIffComes(d, live, n); }
  }

  /**
    An index whose columns all come is created when it is missing, reported when it
    is not the one that creating it would leave, and otherwise left alone.
   */
  lemma IndexFindingExact(d: DesiredTable, live: Schema, i: DesiredIndex)
    ensures var x, op := ContextOf(live, d), CreateIndex(d.name, i.name, i.columns);
      var created := Changed(op, Table(Empty, map[], map[], map[])).indexes[i.name];
      IndexFinding(x, i) ==
        if !AllCome(d, live, i.columns) then Finding([], [])
        else if d.name !in live || i.name !in live[d.name].indexes then Finding([op], [])
        else if live[d.name].indexes[i.name] == created then Finding([], [])
        else Finding([], [Diagnostic(IndexDrift, d.name, "", i.name)])
  {
    AllAvailableIffAllCome(d, live, i.columns);
  }

  /**
    What a live constraint has to have in common with the one metadata asks for. The
    target of a foreign key and the body of a unique constraint do not count.
   */
  predicate Agrees(live: Constraint, d: Constraint) {
    && live.kind == d.kind && live.columns == d.columns
    && (d.kind == Unique && d.deferrable ==> live.deferrable)
    && (d.kind == Check ==> live.body == d.body)
  }

  /** Likewise for a constraint, which moreover has to be one that storage supports and that the rows cannot break. */
  lemma ConstraintFindingExact(d: DesiredTable, live: Schema, c: DesiredConstraint)
    requires c.definition.kind in {Unique, ForeignKey, Check}
    ensures var x, op := ContextOf(live, d), AddConstraint(d.name, c.name, c.definition);
      if c.unsupported then ConstraintFinding(x, c) == Finding([], [Diagnostic(UnsupportedStorage, d.name, "", c.name)])
      else if !AllCome(d, live, c.definition.columns) then ConstraintFinding(x, c) == Finding([], [])
      else if d.name in live && c.name in live[d.name].constraints then
        var l := live[d.name].constraints[c.name];
        && ConstraintFinding(x, c).ops == []
        && (ConstraintFinding(x, c).diagnostics == [] <==> Agrees(l, c.definition))
        && (ConstraintFinding(x, c).diagnostics != [] ==>
              ConstraintFinding(x, c).diagnostics ==
                [Diagnostic(if l.kind == c.definition.kind then ConstraintDrift else ConstraintTypeDrift, d.name, "", c.name)])
      else if d.name in live && c.unsafeOnRows && live[d.name].rows == NonEmpty
      then ConstraintFinding(x, c) == Finding([], [Diagnostic(SingleConversion, d.name, "", c.name)])
      else ConstraintFinding(x, c) == Finding([op], [])
  {
    AllAvailableIffAllCome(d, live, c.definition.columns);
  }

  // ----- The plan as the findings of its items

  lemma {:induction false} JoinHas(parts: seq<Part>, op: Op)
    ensures op in Join(parts) <==> exists i :: 0 <= i < |parts| && op in parts[i].ops
  {
    if parts != [] {
      var front := parts[..|parts| - 1];
      JoinHas(front, op);
      assert forall i :: 0 <= i < |front| ==> front[i] == parts[i];
    }
  }

  lemma {:induction false} FlatHas(reports: seq<seq<Diagnostic>>, e: Diagnostic)
    ensures e in Flat(reports) <==> exists i :: 0 <= i < |reports| && e in reports[i]
  {
    if reports != [] {
      var front := reports[..|reports| - 1];
      FlatHas(front, e);
      assert forall i :: 0 <= i < |front| ==> front[i] == reports[i];
    }
  }

  lemma {:induction false} ItemPlans(x: Context, items: seq<Item>, k: nat)
    requires k < |items|
    ensures forall op :: op in ItemFinding(x, items[k]).ops ==> op in ItemOps(x, items)
    ensures forall e :: e in ItemFinding(x, items[k]).diagnostics ==> e in ItemDiagnostics(x, items)
  {
    var front := items[..|items| - 1];
    if k < |front| {
      ItemPlans(x, front, k);
      assert items[k] == front[k];
    }
  }

  lemma {:induction false} PlannedByItem(x: Context, items: seq<Item>, op: Op) returns (k: nat)
    requires op in ItemOps(x, items)
    ensures k < |items| && op in ItemFinding(x, items[k]).ops
  {
    var front := items[..|items| - 1];
    k := |front|;
    if op in ItemOps(x, front) {
      k := PlannedByItem(x, front, op);
    }
  }

  lemma {:induction false} ReportedByItem(x: Context, items: seq<Item>, e: Diagnostic) returns (k: nat)
    requires e in ItemDiagnostics(x, items)
    ensures k < |items| && e in ItemFinding(x, items[k]).diagnostics
  {
    var front := items[..|items| - 1];
    k := |front|;
    if e in ItemDiagnostics(x, front) {
      k := ReportedByItem(x, front, e);
    }
  }

  lemma ItemsPlan(x: Context, items: seq<Item>, op: Op)
    ensures op in ItemOps(x, items) <==> exists k :: 0 <= k < |items| && op in ItemFinding(x, items[k]).ops
  {
    if op in ItemOps(x, items) { var _ := PlannedByItem(x, items, op); }
    if k :| 0 <= k < |items| && op in ItemFinding(x, items[k]).ops { ItemPlans(x, items, k); }
  }

  lemma ItemsReport(x: Context, items: seq<Item>, e: Diagnostic)
    ensures e in ItemDiagnostics(x, items) <==> exists k :: 0 <= k < |items| && e in ItemFinding(x, items[k]).diagnostics
  {
    if e in ItemDiagnostics(x, items) { var _ := ReportedByItem(x, items, e); }
    if k :| 0 <= k < |items| && e in ItemFinding(x, items[k]).diagnostics { ItemPlans(x, items, k); }
  }

  /** The column statements and reports of a table. */
  ghost predicate ColumnsPlan(x: Context, d: DesiredTable, op: Op) {
    || (exists i :: 0 <= i < |d.system| && op in SystemFinding(x, d.system[i]).ops)
    || (exists i :: 0 <= i < |d.columns| && op in ColumnFinding(x, d.columns[i]).ops)
  }

  ghost predicate ColumnsReport(x: Context, d: DesiredTable, e: Diagnostic) {
    || (exists i :: 0 <= i < |d.system| && e in SystemFinding(x, d.system[i]).diagnostics)
    || (exists i :: 0 <= i < |d.columns| && e in ColumnFinding(x, d.columns[i]).diagnostics)
  }

  lemma ColumnItemAt(x: Context, d: DesiredTable, k: nat)
    requires k < |d.system| + |d.columns|
    ensures |Items(Columns, d)| == |d.system| + |d.columns|
    ensures ItemFinding(x, Items(Columns, d)[k]) ==
      if k < |d.system| then SystemFinding(x, d.system[k]) else ColumnFinding(x, d.columns[k - |d.system|])
  {
  }

  lemma ColumnsPlanExact(x: Context, d: DesiredTable, op: Op)
    ensures op in ItemOps(x, Items(Columns, d)) <==> ColumnsPlan(x, d, op)
  {
    var items := Items(Columns, d);
    ItemsPlan(x, items, op);
    if k :| 0 <= k < |items| && op in ItemFinding(x, items[k]).ops {
      ColumnItemAt(x, d, k);
      if k >= |d.system| { assert op in ColumnFinding(x, d.columns[k - |d.system|]).ops; }
    }
    if i :| 0 <= i < |d.system| && op in SystemFinding(x, d.system[i]).ops { ColumnItemAt(x, d, i); }
    if i :| 0 <= i < |d.columns| && op in ColumnFinding(x, d.columns[i]).ops { ColumnItemAt(x, d, |d.system| + i); }
  }

  lemma ColumnsReportExact(x: Context, d: DesiredTable, e: Diagnostic)
    ensures e in ItemDiagnostics(x, Items(Columns, d)) <==> ColumnsReport(x, d, e)
  {
    var items := Items(Columns, d);
    ItemsReport(x, items, e);
    if k :| 0 <= k < |items| && e in ItemFinding(x, items[k]).diagnostics {
      ColumnItemAt(x, d, k);
      if k >= |d.system| { assert e in ColumnFinding(x, d.columns[k - |d.system|]).diagnostics; }
    }
    if i :| 0 <= i < |d.system| && e in SystemFinding(x, d.system[i]).diagnostics { ColumnItemAt(x, d, i); }
    if i :| 0 <= i < |d.columns| && e in ColumnFinding(x, d.columns[i]).diagnostics { ColumnItemAt(x, d, |d.system| + i); }
  }

  lemma DefaultsPlanExact(x: Context, d: DesiredTable, op: Op)
    ensures op in ItemOps(x, Items(Defaults, d)) <==>
      exists i :: 0 <= i < |d.columns| && op in DefaultFinding(x, d.columns[i]).ops
  {
    ItemsPlan(x, Items(Defaults, d), op);
    forall i | 0 <= i < |d.columns| ensures ItemFinding(x, Items(Defaults, d)[i]) == DefaultFinding(x, d.columns[i]) { }
  }

  lemma IndexesExact(x: Context, d: DesiredTable, op: Op, e: Diagnostic)
    ensures op in ItemOps(x, Items(Indexes, d)) <==>
      exists i :: 0 <= i < |d.indexes| && op in IndexFinding(x, d.indexes[i]).ops
    ensures e in ItemDiagnostics(x, Items(Indexes, d)) <==>
      exists i :: 0 <= i < |d.indexes| && e in IndexFinding(x, d.indexes[i]).diagnostics
  {
    ItemsPlan(x, Items(Indexes, d), op);
    ItemsReport(x, Items(Indexes, d), e);
    forall i | 0 <= i < |d.indexes| ensures ItemFinding(x, Items(Indexes, d)[i]) == IndexFinding(x, d.indexes[i]) { }
  }

  lemma ConstraintsExact(x: Context, d: DesiredTable, op: Op, e: Diagnostic)
    ensures op in ItemOps(x, Items(Constraints, d)) <==>
      exists i :: 0 <= i < |d.constraints| && op in ConstraintFinding(x, d.constraints[i]).ops
    ensures e in ItemDiagnostics(x, Items(Constraints, d)) <==>
      exists i :: 0 <= i < |d.constraints| && e in ConstraintFinding(x, d.constraints[i]).diagnostics
  {
    ItemsPlan(x, Items(Constraints, d), op);
    ItemsReport(x, Items(Constraints, d), e);
    forall i | 0 <= i < |d.constraints|
      ensures ItemFinding(x, Items(Constraints, d)[i]) == ConstraintFinding(x, d.constraints[i]) { }
  }

  /** What one phase plans for a table. */
  ghost predicate PhasePlans(p: Phase, live: Schema, d: DesiredTable, op: Op) {
    var x := ContextOf(live, d);
    match p
    case Creates => d.name !in live && op == CreateTable(d.name, d.system)
    case Columns => ColumnsPlan(x, d, op)
    case Defaults => exists i :: 0 <= i < |d.columns| && op in DefaultFinding(x, d.columns[i]).ops
    case Indexes => exists i :: 0 <= i < |d.indexes| && op in IndexFinding(x, d.indexes[i]).ops
    case Constraints => exists i :: 0 <= i < |d.constraints| && op in ConstraintFinding(x, d.constraints[i]).ops
  }

  lemma PhasePlansExact(p: Phase, live: Schema, d: DesiredTable, op: Op)
    ensures op in TableOps(p, live, d) <==> PhasePlans(p, live, d, op)
  {
    var x, e := ContextOf(live, d), Diagnostic(ExtraTable, "", "", "");
    match p
    case Creates =>
    case Columns => ColumnsPlanExact(x, d, op);
    case Defaults => DefaultsPlanExact(x, d, op);
    case Indexes => IndexesExact(x, d, op, e);
    case Constraints => ConstraintsExact(x, d, op, e);
  }

  /** What the findings on one table plan. */
  ghost predicate TablePlans(live: Schema, d: DesiredTable, op: Op) {
    exists p :: PhasePlans(p, live, d, op)
  }

  /**
    What a live table holds that metadata does not name. Primary keys and NOT NULL
    are not reported, nor is an index that goes by the name of a live constraint.
   */
  ghost predicate ReportsExtra(d: DesiredTable, t: Table, e: Diagnostic) {
    || (e.kind == ExtraColumn && e == Diagnostic(ExtraColumn, d.name, e.column, "") && e.column in t.columns
        && (forall i :: 0 <= i < |d.system| ==> d.system[i].name != e.column)
        && (forall i :: 0 <= i < |d.columns| ==> d.columns[i].name != e.column))
    || (e == Diagnostic(ExtraConstraint, d.name, "", e.name) && e.name in t.constraints
        && t.constraints[e.name].kind in {Unique, ForeignKey, Check, Exclusion}
        && (forall i :: 0 <= i < |d.constraints| ==> d.constraints[i].name != e.name))
    || (e == Diagnostic(ExtraIndex, d.name, "", e.name) && e.name in t.indexes && e.name !in t.constraints
        && (forall i :: 0 <= i < |d.indexes| ==> d.indexes[i].name != e.name))
  }

  /** What the findings on one table report. */
  ghost predicate TableReports(live: Schema, d: DesiredTable, e: Diagnostic) {
    var x := ContextOf(live, d);
    || ColumnsReport(x, d, e)
    || (exists i :: 0 <= i < |d.indexes| && e in IndexFinding(x, d.indexes[i]).diagnostics)
    || (exists i :: 0 <= i < |d.constraints| && e in ConstraintFinding(x, d.constraints[i]).diagnostics)
    || (d.name in live && ReportsExtra(d, live[d.name], e))
  }

  lemma ReportHas(kind: DiagnosticKind, table: string, names: seq<string>, e: Diagnostic)
    ensures e in Report(kind, table, names) <==>
      if kind.ExtraColumn? then e.column in names && e == Diagnostic(kind, table, e.column, "")
      else e.name in names && e == Diagnostic(kind, table, "", e.name)
  {
    var r := Report(kind, table, names);
    if e in r { var i :| 0 <= i < |r| && r[i] == e; }
    if e.column in names { var i :| 0 <= i < |names| && names[i] == e.column; assert r[i] in r; }
    if e.name in names { var i :| 0 <= i < |names| && names[i] == e.name; assert r[i] in r; }
  }

  lemma ExtraReported(live: Schema, d: DesiredTable, e: Diagnostic)
    ensures e in ExtraColumnReport(live, d) || e in ExtraObjectReport(live, d) <==>
      d.name in live && ReportsExtra(d, live[d.name], e)
  {
    if d.name in live {
      var t := live[d.name];
      ReportHas(ExtraColumn, d.name, Sorted(ExtraColumnSet(d, t)), e);
      ReportHas(ExtraConstraint, d.name, Sorted(ExtraConstraintSet(d, t)), e);
      ReportHas(ExtraIndex, d.name, Sorted(ExtraIndexSet(d, t)), e);
      ExtraExact(d, t, e.column, e.name);
    }
  }

  lemma ExtraExact(d: DesiredTable, t: Table, column: string, name: string)
    ensures column in ExtraColumnSet(d, t) <==>
      && column in t.columns && (forall i :: 0 <= i < |d.system| ==> d.system[i].name != column)
      && (forall i :: 0 <= i < |d.columns| ==> d.columns[i].name != column)
    ensures name in ExtraConstraintSet(d, t) <==>
      && name in t.constraints && t.constraints[name].kind in {Unique, ForeignKey, Check, Exclusion}
      && (forall i :: 0 <= i < |d.constraints| ==> d.constraints[i].name != name)
    ensures name in ExtraIndexSet(d, t) <==>
      && name in t.indexes && name !in t.constraints && (forall i :: 0 <= i < |d.indexes| ==> d.indexes[i].name != name)
  {
  }

  lemma TableReportsExact(live: Schema, d: DesiredTable, e: Diagnostic)
    ensures e in TableDiagnostics(live, d) <==> TableReports(live, d, e)
  {
    var x, op := ContextOf(live, d), DropTable("");
    ColumnsReportExact(x, d, e);
    IndexesExact(x, d, op, e);
    ConstraintsExact(x, d, op, e);
    ExtraReported(live, d, e);
  }

  lemma PhaseHas(p: Phase, live: Schema, desired: seq<DesiredTable>, op: Op)
    ensures op in PhaseOps(p, live, desired) <==> exists d :: d in desired && PhasePlans(p, live, d, op)
  {
    var parts := Parts(p, live, desired);
    JoinHas(parts, op);
    if i :| 0 <= i < |parts| && op in parts[i].ops {
      PhasePlansExact(p, live, desired[i], op);
      assert desired[i] in desired;
    }
    if d :| d in desired && PhasePlans(p, live, d, op) {
      var i :| 0 <= i < |desired| && desired[i] == d;
      PhasePlansExact(p, live, d, op);
      assert op in parts[i].ops;
    }
  }

  lemma PlanJoinsPhases(desired: seq<DesiredTable>, live: Schema)
    ensures PlanFor(desired, live).operations ==
      PhaseOps(Creates, live, desired) + PhaseOps(Columns, live, desired) + PhaseOps(Defaults, live, desired)
      + PhaseOps(Indexes, live, desired) + PhaseOps(Constraints, live, desired)
  {
  }

  lemma PhaseOfOp(desired: seq<DesiredTable>, live: Schema, op: Op) returns (p: Phase)
    requires op in PlanFor(desired, live).operations
    ensures op in PhaseOps(p, live, desired)
  {
    var a, b, c, f, g := PhaseOps(Creates, live, desired), PhaseOps(Columns, live, desired),
      PhaseOps(Defaults, live, desired), PhaseOps(Indexes, live, desired), PhaseOps(Constraints, live, desired);
    PlanJoinsPhases(desired, live);
    InFive(a, b, c, f, g, op);
    p := if op in a then Creates else if op in b then Columns else if op in c then Defaults
         else if op in f then Indexes else Constraints;
  }

  lemma PhaseIsPlanned(desired: seq<DesiredTable>, live: Schema, op: Op, p: Phase)
    requires op in PhaseOps(p, live, desired)
    ensures op in PlanFor(desired, live).operations
  {
    var a, b, c, f, g := PhaseOps(Creates, live, desired), PhaseOps(Columns, live, desired),
      PhaseOps(Defaults, live, desired), PhaseOps(Indexes, live, desired), PhaseOps(Constraints, live, desired);
    PlanJoinsPhases(desired, live);
    InFive(a, b, c, f, g, op);
  }

  lemma InFive(a: seq<Op>, b: seq<Op>, c: seq<Op>, f: seq<Op>, g: seq<Op>, op: Op)
    ensures op in a + b + c + f + g <==> op in a || op in b || op in c || op in f || op in g
  {
  }

  /** The plan contains a statement exactly when a finding on some desired table plans it. */
  lemma PlanContainsExactly(desired: seq<DesiredTable>, live: Schema, op: Op)
    ensures op in PlanFor(desired, live).operations <==> exists d :: d in desired && TablePlans(live, d, op)
  {
    if op in PlanFor(desired, live).operations {
      var p := PhaseOfOp(desired, live, op);
      PhaseHas(p, live, desired, op);
      var d :| d in desired && PhasePlans(p, live, d, op);
      assert TablePlans(live, d, op);
    }
    if d :| d in desired && TablePlans(live, d, op) {
      var p :| PhasePlans(p, live, d, op);
      PhaseHas(p, live, desired, op);
      PhaseIsPlanned(desired, live, op, p);
    }
  }

  /** The plan reports exactly what a finding on some desired table reports, and the tables metadata does not name. */
  lemma PlanReportsExactly(desired: seq<DesiredTable>, live: Schema, e: Diagnostic)
    ensures e in PlanFor(desired, live).diagnostics <==>
      || (exists d :: d in desired && TableReports(live, d, e))
      || (e == Diagnostic(ExtraTable, e.table, "", "") && e.table in live
          && forall i :: 0 <= i < |desired| ==> desired[i].name != e.table)
  {
    var reports := Reports(live, desired);
    FlatHas(reports, e);
    if i :| 0 <= i < |reports| && e in reports[i] {
      TableReportsExact(live, desired[i], e);
      assert desired[i] in desired;
    }
    if d :| d in desired && TableReports(live, d, e) {
      var i :| 0 <= i < |desired| && desired[i] == d;
      TableReportsExact(live, d, e);
      assert e in reports[i];
    }
    ReportTablesHas(Sorted(ExtraTableSet(desired, live)), e);
  }

  lemma ReportTablesHas(names: seq<string>, e: Diagnostic)
    ensures e in ReportTables(names) <==> e.table in names && e == Diagnostic(ExtraTable, e.table, "", "")
  {
    var r := ReportTables(names);
    if e in r { var i :| 0 <= i < |r| && r[i] == e; }
    if e.table in names { var i :| 0 <= i < |names| && names[i] == e.table; assert r[i] in r; }
  }

  // ----- A stored field of a live table

  lemma SameTable(desired: seq<DesiredTable>, a: DesiredTable, b: DesiredTable)
    requires DistinctTables(desired) && a in desired && b in desired && a.name == b.name
    ensures a == b
  {
    var i :| 0 <= i < |desired| && desired[i] == a;
    var j :| 0 <= j < |desired| && desired[j] == b;
  }

  /** A statement that adds a field's column comes from the finding on that column. */
  lemma AddedByItsFinding(live: Schema, d: DesiredTable, table: string, c: DesiredColumn)
    requires TablePlans(live, d, AddColumn(table, c, false))
    ensures table == d.name && AddColumn(table, c, false) in ColumnFinding(ContextOf(live, d), c).ops
  {
    var x, op := ContextOf(live, d), AddColumn(table, c, false);
    var p :| PhasePlans(p, live, d, op);
    assert p == Columns;
    var i :| 0 <= i < |d.columns| && op in ColumnFinding(x, d.columns[i]).ops;
    assert d.columns[i] == c;
  }

  lemma OnlyColumnsAreMissing(live: Schema, d: DesiredTable, e: Diagnostic)
    requires TableReports(live, d, e) && e.kind == MissingRequiredColumn
    ensures ColumnsReport(ContextOf(live, d), d, e)
  {
  }

  /** A report of a missing field's column comes from the finding on a column of that name. */
  lemma ReportedByItsFinding(x: Context, d: DesiredTable, e: Diagnostic) returns (c: DesiredColumn)
    requires ColumnsReport(x, d, e) && e.kind == MissingRequiredColumn
    ensures c in d.columns && e in ColumnFinding(x, c).diagnostics
    ensures e.table == x.table && e.column == c.name
  {
    var i :| 0 <= i < |d.columns| && e in ColumnFinding(x, d.columns[i]).diagnostics;
    c := d.columns[i];
  }

  lemma SameColumn(d: DesiredTable, a: DesiredColumn, b: DesiredColumn)
    requires DistinctColumns(AllColumns(d)) && a in d.columns && b in d.columns && a.name == b.name
    ensures a == b
  {
    var i :| 0 <= i < |d.columns| && d.columns[i] == a;
    var j :| 0 <= j < |d.columns| && d.columns[j] == b;
    assert AllColumns(d)[|d.system| + i] == a && AllColumns(d)[|d.system| + j] == b;
  }

  /**
    In the whole plan, the column of a stored field that its live table lacks is
    reported exactly when the database could refuse to add it, and otherwise added.
   */
  lemma MissingFieldAddedOrReported(desired: seq<DesiredTable>, live: Schema, d: DesiredTable, f: Field)
    requires WellFormed(desired) && d in desired && d.name in live
    requires ColumnOf(f) in d.columns && f.column !in live[d.name].columns && (f.dflt.Literal? ==> f.dflt.sql != "")
    ensures var op, plan := AddColumn(d.name, ColumnOf(f), false), PlanFor(desired, live);
      && (op in plan.operations <==> !CouldBeRefused(op, live[d.name], live.Keys))
      && (Diagnostic(MissingRequiredColumn, d.name, f.column, "") in plan.diagnostics <==>
            CouldBeRefused(op, live[d.name], live.Keys))
  {
    var c, x := ColumnOf(f), ContextOf(live, d);
    var op, e := AddColumn(d.name, c, false), Diagnostic(MissingRequiredColumn, d.name, f.column, "");
    BuiltColumnIsHonest(f);
    MissingColumnFinding(x, c, live.Keys);
    var i :| 0 <= i < |d.columns| && d.columns[i] == c;
    PlanContainsExactly(desired, live, op);
    PlanReportsExactly(desired, live, e);
    if op in ColumnFinding(x, c).ops { assert PhasePlans(Columns, live, d, op) && TablePlans(live, d, op); }
    if other :| other in desired && TablePlans(live, other, op) {
      AddedByItsFinding(live, other, d.name, c);
      SameTable(desired, other, d);
    }
    if e in ColumnFinding(x, c).diagnostics { assert ColumnsReport(x, d, e) && TableReports(live, d, e); }
    if other :| other in desired && TableReports(live, other, e) {
      OnlyColumnsAreMissing(live, other, e);
      var found := ReportedByItsFinding(ContextOf(live, other), other, e);
      SameTable(desired, other, d);
      SameColumn(d, found, c);
    }
  }
}
