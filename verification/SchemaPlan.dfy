/**
  The metadata schema planner: safe operations that add what is missing, and
  diagnostics for every difference that is not safe to resolve. Each phase looks at
  one kind of item of one table at a time.
 */
module SchemaPlan {
  import opened Wrappers
  import opened SchemaModel
  import opened SortedNames

  datatype DiagnosticKind =
    | MissingSystemColumn | MissingRequiredColumn | ColumnTypeDrift | ColumnRequiredDrift
    | IndexDrift | UnsupportedStorage | ConstraintTypeDrift | ConstraintDrift | SingleConversion
    | ExtraColumn | ExtraConstraint | ExtraIndex | ExtraTable

  datatype Diagnostic = Diagnostic(kind: DiagnosticKind, table: string, column: string, name: string)

  datatype Plan = Plan(operations: seq<Op>, diagnostics: seq<Diagnostic>)

  // ----- The desired schema

  datatype NameError = DuplicateTable(name: string) | DuplicateIndex(name: string) | DuplicateConstraint(name: string)

  predicate DistinctIndexes(s: seq<DesiredIndex>) {
    forall i, j :: 0 <= i < j < |s| ==> s[i].name != s[j].name
  }

  predicate DistinctConstraints(s: seq<DesiredConstraint>) {
    forall i, j :: 0 <= i < j < |s| ==> s[i].name != s[j].name
  }

  predicate DistinctTables(s: seq<DesiredTable>) {
    forall i, j :: 0 <= i < j < |s| ==> s[i].name != s[j].name
  }

  /** Accepts a table exactly when its index names and its constraint names are distinct. */
  method ValidateObjectNames(d: DesiredTable) returns (r: Option<NameError>)
    ensures r.None? <==> DistinctIndexes(d.indexes) && DistinctConstraints(d.constraints)
  {
    var seen: set<string> := {};
    for i := 0 to |d.indexes|
      invariant seen == set k | 0 <= k < i :: d.indexes[k].name
      invariant DistinctIndexes(d.indexes[..i])
    {
      if d.indexes[i].name in seen { return Some(DuplicateIndex(d.indexes[i].name)); }
      seen := seen + {d.indexes[i].name};
    }
    seen := {};
    for i := 0 to |d.constraints|
      invariant seen == set k | 0 <= k < i :: d.constraints[k].name
      invariant DistinctConstraints(d.constraints[..i])
    {
      if d.constraints[i].name in seen { return Some(DuplicateConstraint(d.constraints[i].name)); }
      seen := seen + {d.constraints[i].name};
    }
    return None;
  }

  /** A stored field, as far as its column depends on it. */
  datatype FieldDefault = NoDefault | NullDefault | Literal(sql: string)
  datatype Field = Field(column: string, ty: string, required: bool, secret: bool, dflt: FieldDefault)

  /** The column of a field. A secret is never required in storage. */
  function ColumnOf(f: Field): DesiredColumn {
    var required := f.required && !f.secret;
    DesiredColumn(f.column, f.ty, required, f.secret || !f.required || f.dflt.Literal?,
                  if f.dflt.Literal? then f.dflt.sql else "")
  }

  // ----- Comparing one item

  predicate IndexMatches(live: Index, d: DesiredIndex) {
    !live.unique && live.columns == d.columns
  }

  /**
    Foreign keys are compared by their columns only, unique constraints by their
    columns and a deferral that metadata asks for, checks by their expression.
   */
  predicate ConstraintMatches(live: Constraint, d: Constraint) {
    match d.kind
    case Unique => live.columns == d.columns && (d.deferrable ==> live.deferrable)
    case ForeignKey => live.columns == d.columns
    case Check => live.columns == d.columns && live.body == d.body
    case _ => live == d
  }

  function CompareColumn(table: string, d: DesiredColumn, live: Column): seq<Diagnostic> {
    (if live.ty != d.ty then [Diagnostic(ColumnTypeDrift, table, d.name, "")] else []) +
    (if d.required && live.nullable then [Diagnostic(ColumnRequiredDrift, table, d.name, "")] else []) +
    (if !d.required && !live.nullable then [Diagnostic(ColumnRequiredDrift, table, d.name, "")] else [])
  }

  predicate DefaultMatches(d: DesiredColumn, live: Column) {
    if d.defaultSQL == "" then !live.hasDefault
    else live.hasDefault && live.defaultSQL == d.defaultSQL
  }

  predicate SystemAvailable(live: Option<Table>, c: DesiredColumn) {
    live.None? || c.name in live.value.columns || c.name == OWNER_ID
  }

  /** A required column without a safe default cannot be added to a table that may hold rows. */
  predicate ColumnBlocked(live: Option<Table>, c: DesiredColumn) {
    live.Some? && c.name !in live.value.columns && c.required && !c.hasSafeDefault && !live.value.rows.Empty?
  }

  /** The columns an index or a constraint may rely on. */
  function Available(d: DesiredTable, live: Option<Table>): set<string> {
    (set i | 0 <= i < |d.system| && SystemAvailable(live, d.system[i]) :: d.system[i].name) +
    (set i | 0 <= i < |d.columns| && !ColumnBlocked(live, d.columns[i]) :: d.columns[i].name)
  }

  predicate AllAvailable(columns: seq<string>, available: set<string>) {
    forall c :: c in columns ==> c in available
  }

  /** One desired thing of a table, as one phase of the plan looks at it. */
  datatype Item =
    | SystemItem(column: DesiredColumn)
    | ColumnItem(column: DesiredColumn)
    | DefaultItem(column: DesiredColumn)
    | IndexItem(index: DesiredIndex)
    | ConstraintItem(constraint: DesiredConstraint)

  /** A table under comparison: its live counterpart and the columns that can be relied on. */
  datatype Context = Context(table: string, live: Option<Table>, available: set<string>)

  datatype Finding = Finding(ops: seq<Op>, diagnostics: seq<Diagnostic>)

  function Adds(op: Op): Finding {
    Finding([op], [])
  }

  function Blocks(d: Diagnostic): Finding {
    Finding([], [d])
  }

  function SystemFinding(x: Context, c: DesiredColumn): Finding {
    if x.live.None? then Finding([], [])
    else if c.name in x.live.value.columns then Finding([], CompareColumn(x.table, c, x.live.value.columns[c.name]))
    else if c.name == OWNER_ID then Adds(AddColumn(x.table, c, true))
    else Blocks(Diagnostic(MissingSystemColumn, x.table, c.name, ""))
  }

  function ColumnFinding(x: Context, c: DesiredColumn): Finding {
    if x.live.Some? && c.name in x.live.value.columns
      then Finding([], CompareColumn(x.table, c, x.live.value.columns[c.name]))
    else if ColumnBlocked(x.live, c) then Blocks(Diagnostic(MissingRequiredColumn, x.table, c.name, ""))
    else Adds(AddColumn(x.table, c, false))
  }

  function DefaultFinding(x: Context, c: DesiredColumn): Finding {
    if x.live.Some? && c.name in x.live.value.columns && !DefaultMatches(c, x.live.value.columns[c.name])
    then Adds(SetDefault(x.table, c.name, c.defaultSQL)) else Finding([], [])
  }

  function IndexFinding(x: Context, i: DesiredIndex): Finding {
    if !AllAvailable(i.columns, x.available) then Finding([], [])
    else if x.live.Some? && i.name in x.live.value.indexes then
      if IndexMatches(x.live.value.indexes[i.name], i) then Finding([], [])
      else Blocks(Diagnostic(IndexDrift, x.table, "", i.name))
    else Adds(CreateIndex(x.table, i.name, i.columns))
  }

  function ConstraintFinding(x: Context, c: DesiredConstraint): Finding {
    if c.unsupported then Blocks(Diagnostic(UnsupportedStorage, x.table, "", c.name))
    else if !AllAvailable(c.definition.columns, x.available) then Finding([], [])
    else if x.live.Some? && c.name in x.live.value.constraints then
      var l := x.live.value.constraints[c.name];
      if l.kind != c.definition.kind then Blocks(Diagnostic(ConstraintTypeDrift, x.table, "", c.name))
      else if !ConstraintMatches(l, c.definition) then Blocks(Diagnostic(ConstraintDrift, x.table, "", c.name))
      else Finding([], [])
    else if x.live.Some? && c.unsafeOnRows && x.live.value.rows.NonEmpty? then
      Blocks(Diagnostic(SingleConversion, x.table, "", c.name))
    else Adds(AddConstraint(x.table, c.name, c.definition))
  }

  function ItemFinding(x: Context, item: Item): Finding {
    match item
    case SystemItem(c) => SystemFinding(x, c)
    case ColumnItem(c) => ColumnFinding(x, c)
    case DefaultItem(c) => DefaultFinding(x, c)
    case IndexItem(i) => IndexFinding(x, i)
    case ConstraintItem(c) => ConstraintFinding(x, c)
  }

  function ItemOps(x: Context, items: seq<Item>): seq<Op> {
    if items == [] then [] else ItemOps(x, items[..|items| - 1]) + ItemFinding(x, items[|items| - 1]).ops
  }

  function ItemDiagnostics(x: Context, items: seq<Item>): seq<Diagnostic> {
    if items == [] then [] else ItemDiagnostics(x, items[..|items| - 1]) + ItemFinding(x, items[|items| - 1]).diagnostics
  }

  // ----- What the database has and metadata does not

  function IndexNames(s: seq<DesiredIndex>): set<string> {
    set i | 0 <= i < |s| :: s[i].name
  }

  function ConstraintNames(s: seq<DesiredConstraint>): set<string> {
    set i | 0 <= i < |s| :: s[i].name
  }

  predicate IsExtraColumn(d: DesiredTable, name: string) {
    name !in Names(d.system) && name !in Names(d.columns)
  }

  predicate IsExtraConstraint(d: DesiredTable, live: Table, name: string)
    requires name in live.constraints
  {
    !live.constraints[name].kind.PrimaryKey? && !live.constraints[name].kind.NotNull? && name !in ConstraintNames(d.constraints)
  }

  /** An index that shares a constraint's name counts as that constraint's index. */
  predicate IsExtraIndex(d: DesiredTable, live: Table, name: string) {
    name !in IndexNames(d.indexes) && name !in live.constraints
  }

  function ExtraColumnSet(d: DesiredTable, live: Table): set<string> {
    set n | n in live.columns && IsExtraColumn(d, n)
  }

  function ExtraConstraintSet(d: DesiredTable, live: Table): set<string> {
    set n | n in live.constraints && IsExtraConstraint(d, live, n)
  }

  function ExtraIndexSet(d: DesiredTable, live: Table): set<string> {
    set n | n in live.indexes && IsExtraIndex(d, live, n)
  }

  function TableNames(ts: seq<DesiredTable>): set<string> {
    set i | 0 <= i < |ts| :: ts[i].name
  }

  function ExtraTableSet(ts: seq<DesiredTable>, live: Schema): set<string> {
    live.Keys - TableNames(ts)
  }

  function Report(kind: DiagnosticKind, table: string, names: seq<string>): seq<Diagnostic> {
    seq(|names|, i requires 0 <= i < |names| =>
      if kind.ExtraColumn? then Diagnostic(kind, table, names[i], "") else Diagnostic(kind, table, "", names[i]))
  }

  function ReportTables(names: seq<string>): seq<Diagnostic> {
    seq(|names|, i requires 0 <= i < |names| => Diagnostic(ExtraTable, names[i], "", ""))
  }

  // ----- The plan of one table, phase by phase

  datatype Phase = Creates | Columns | Defaults | Indexes | Constraints

  function SystemItems(d: DesiredTable): seq<Item> {
    seq(|d.system|, i requires 0 <= i < |d.system| => SystemItem(d.system[i]))
  }

  function ColumnItems(d: DesiredTable): seq<Item> {
    seq(|d.columns|, i requires 0 <= i < |d.columns| => ColumnItem(d.columns[i]))
  }

  function DefaultItems(d: DesiredTable): seq<Item> {
    seq(|d.columns|, i requires 0 <= i < |d.columns| => DefaultItem(d.columns[i]))
  }

  function IndexItems(d: DesiredTable): seq<Item> {
    seq(|d.indexes|, i requires 0 <= i < |d.indexes| => IndexItem(d.indexes[i]))
  }

  function ConstraintItems(d: DesiredTable): seq<Item> {
    seq(|d.constraints|, i requires 0 <= i < |d.constraints| => ConstraintItem(d.constraints[i]))
  }

  function Items(p: Phase, d: DesiredTable): seq<Item> {
    match p
    case Creates => []
    case Columns => SystemItems(d) + ColumnItems(d)
    case Defaults => DefaultItems(d)
    case Indexes => IndexItems(d)
    case Constraints => ConstraintItems(d)
  }

  function ContextOf(live: Schema, d: DesiredTable): Context {
    var t := if d.name in live then Some(live[d.name]) else None;
    Context(d.name, t, Available(d, t))
  }

  function TableOps(p: Phase, live: Schema, d: DesiredTable): seq<Op> {
    if p.Creates? then (if d.name in live then [] else [CreateTable(d.name, d.system)])
    else ItemOps(ContextOf(live, d), Items(p, d))
  }

  function ExtraColumnReport(live: Schema, d: DesiredTable): seq<Diagnostic> {
    if d.name in live then Report(ExtraColumn, d.name, Sorted(ExtraColumnSet(d, live[d.name]))) else []
  }

  function ExtraObjectReport(live: Schema, d: DesiredTable): seq<Diagnostic> {
    if d.name in live
    then Report(ExtraConstraint, d.name, Sorted(ExtraConstraintSet(d, live[d.name]))) +
         Report(ExtraIndex, d.name, Sorted(ExtraIndexSet(d, live[d.name])))
    else []
  }

  function TableDiagnostics(live: Schema, d: DesiredTable): seq<Diagnostic> {
    var x := ContextOf(live, d);
    ItemDiagnostics(x, Items(Columns, d)) + ExtraColumnReport(live, d) +
    ItemDiagnostics(x, Items(Indexes, d)) + ItemDiagnostics(x, Items(Constraints, d)) + ExtraObjectReport(live, d)
  }

  function PartOf(p: Phase, live: Schema, d: DesiredTable): Part {
    Part(d.name, TableOps(p, live, d))
  }

  function Parts(p: Phase, live: Schema, ds: seq<DesiredTable>): seq<Part> {
    seq(|ds|, i requires 0 <= i < |ds| => PartOf(p, live, ds[i]))
  }

  /** One phase of the plan: what it has for each table, one after the other. */
  function PhaseOps(p: Phase, live: Schema, ds: seq<DesiredTable>): seq<Op> {
    Join(Parts(p, live, ds))
  }

  function Reports(live: Schema, ds: seq<DesiredTable>): seq<seq<Diagnostic>> {
    seq(|ds|, i requires 0 <= i < |ds| => TableDiagnostics(live, ds[i]))
  }

  function Flat(reports: seq<seq<Diagnostic>>): seq<Diagnostic> {
    if reports == [] then [] else Flat(reports[..|reports| - 1]) + reports[|reports| - 1]
  }

  function AllDiagnostics(live: Schema, ds: seq<DesiredTable>): seq<Diagnostic> {
    Flat(Reports(live, ds))
  }

  lemma PhaseOneMore(p: Phase, live: Schema, front: seq<DesiredTable>, d: DesiredTable)
    ensures PhaseOps(p, live, front + [d]) == PhaseOps(p, live, front) + TableOps(p, live, d)
  {
    assert Parts(p, live, front + [d]) == Parts(p, live, front) + [PartOf(p, live, d)];
  }

  lemma ReportsOneMore(live: Schema, front: seq<DesiredTable>, d: DesiredTable)
    ensures AllDiagnostics(live, front + [d]) == AllDiagnostics(live, front) + TableDiagnostics(live, d)
  {
    assert Reports(live, front + [d]) == Reports(live, front) + [TableDiagnostics(live, d)];
    FlatOneMore(Reports(live, front), TableDiagnostics(live, d));
  }

  lemma FlatOneMore(reports: seq<seq<Diagnostic>>, last: seq<Diagnostic>)
    ensures Flat(reports + [last]) == Flat(reports) + last
  {
    assert (reports + [last])[..|reports|] == reports;
  }

  function PlanFor(desired: seq<DesiredTable>, live: Schema): Plan {
    Plan(
      PhaseOps(Creates, live, desired) + PhaseOps(Columns, live, desired) + PhaseOps(Defaults, live, desired) +
      PhaseOps(Indexes, live, desired) + PhaseOps(Constraints, live, desired),
      AllDiagnostics(live, desired) + ReportTables(Sorted(ExtraTableSet(desired, live))))
  }

  // ----- The planner

  method FindAvailable(d: DesiredTable, live: Option<Table>) returns (available: set<string>)
    ensures available == Available(d, live)
  {
    available := {};
    for i := 0 to |d.system|
      invariant available == set k | 0 <= k < i && SystemAvailable(live, d.system[k]) :: d.system[k].name
    {
      if SystemAvailable(live, d.system[i]) { available := available + {d.system[i].name}; }
    }
    ghost var fromSystem := available;
    for i := 0 to |d.columns|
      invariant available == fromSystem
        + set k | 0 <= k < i && !ColumnBlocked(live, d.columns[k]) :: d.columns[k].name
    {
      if !ColumnBlocked(live, d.columns[i]) { available := available + {d.columns[i].name}; }
    }
  }

  method PlanItems(x: Context, items: seq<Item>) returns (ops: seq<Op>, diagnostics: seq<Diagnostic>)
    ensures ops == ItemOps(x, items)
    ensures diagnostics == ItemDiagnostics(x, items)
  {
    ops, diagnostics := [], [];
    for i := 0 to |items|
      invariant ops == ItemOps(x, items[..i])
      invariant diagnostics == ItemDiagnostics(x, items[..i])
    {
      var finding := ItemFinding(x, items[i]);
      assert items[..i + 1][..i] == items[..i];
      ops := ops + finding.ops;
      diagnostics := diagnostics + finding.diagnostics;
    }
    assert items[..|items|] == items;
  }

  method DiagnoseTable(live: Schema, d: DesiredTable)
      returns (columns: seq<Op>, defaults: seq<Op>, indexes: seq<Op>, constraints: seq<Op>, diagnostics: seq<Diagnostic>)
    ensures columns == TableOps(Columns, live, d) && defaults == TableOps(Defaults, live, d)
    ensures indexes == TableOps(Indexes, live, d) && constraints == TableOps(Constraints, live, d)
    ensures diagnostics == TableDiagnostics(live, d)
  {
    var t := if d.name in live then Some(live[d.name]) else None;
    var available := FindAvailable(d, t);
    var x := Context(d.name, t, available);
    var found, none;
    columns, diagnostics := PlanItems(x, Items(Columns, d));
    defaults, none := PlanItems(x, Items(Defaults, d));
    diagnostics := diagnostics + ExtraColumnReport(live, d);
    indexes, found := PlanItems(x, Items(Indexes, d));
    diagnostics := diagnostics + found;
    constraints, found := PlanItems(x, Items(Constraints, d));
    diagnostics := diagnostics + found + ExtraObjectReport(live, d);
  }

  /** The lists a plan under construction keeps, one per phase, and its diagnostics. */
  datatype Lists = Lists(creates: seq<Op>, columns: seq<Op>, defaults: seq<Op>,
                         indexes: seq<Op>, constraints: seq<Op>, diagnostics: seq<Diagnostic>)

  function Append(l: Lists, live: Schema, d: DesiredTable): Lists {
    Lists(l.creates + TableOps(Creates, live, d), l.columns + TableOps(Columns, live, d),
          l.defaults + TableOps(Defaults, live, d), l.indexes + TableOps(Indexes, live, d),
          l.constraints + TableOps(Constraints, live, d), l.diagnostics + TableDiagnostics(live, d))
  }

  function ListsFor(live: Schema, ds: seq<DesiredTable>): Lists {
    if ds == [] then Lists([], [], [], [], [], [])
    else Append(ListsFor(live, ds[..|ds| - 1]), live, ds[|ds| - 1])
  }

  /** The lists, each on its own: one phase over all tables. */
  function PhaseLists(live: Schema, ds: seq<DesiredTable>): Lists {
    Lists(PhaseOps(Creates, live, ds), PhaseOps(Columns, live, ds), PhaseOps(Defaults, live, ds),
          PhaseOps(Indexes, live, ds), PhaseOps(Constraints, live, ds), AllDiagnostics(live, ds))
  }

  lemma {:induction false} ListsArePhases(live: Schema, ds: seq<DesiredTable>)
    ensures ListsFor(live, ds) == PhaseLists(live, ds)
  {
    if ds == [] {
      assert forall p :: Parts(p, live, ds) == [];
      assert Reports(live, ds) == [];
    } else {
      var front, d := ds[..|ds| - 1], ds[|ds| - 1];
      ListsArePhases(live, front);
      assert ds == front + [d];
      PhasesOneMore(live, front, d);
    }
  }

  lemma PhasesOneMore(live: Schema, front: seq<DesiredTable>, d: DesiredTable)
    ensures Append(PhaseLists(live, front), live, d) == PhaseLists(live, front + [d])
  {
    PhaseOneMore(Creates, live, front, d);
    PhaseOneMore(Columns, live, front, d);
    PhaseOneMore(Defaults, live, front, d);
    PhaseOneMore(Indexes, live, front, d);
    PhaseOneMore(Constraints, live, front, d);
    ReportsOneMore(live, front, d);
  }

  method AppendTable(l: Lists, live: Schema, d: DesiredTable) returns (r: Lists)
    ensures r == Append(l, live, d)
  {
    var columns, defaults, indexes, constraints, diagnostics := DiagnoseTable(live, d);
    var create := if d.name in live then [] else [CreateTable(d.name, d.system)];
    r := Lists(l.creates + create, l.columns + columns, l.defaults + defaults,
               l.indexes + indexes, l.constraints + constraints, l.diagnostics + diagnostics);
  }

  /** Builds the plan: operations grouped so that each statement finds what it needs. */
  method BuildMetadataSchemaPlan(desired: seq<DesiredTable>, live: Schema) returns (plan: Plan)
    ensures plan == PlanFor(desired, live)
  {
    var l := Lists([], [], [], [], [], []);
    for i := 0 to |desired|
      invariant l == ListsFor(live, desired[..i])
    {
      assert desired[..i + 1][..i] == desired[..i];
      l := AppendTable(l, live, desired[i]);
    }
    assert desired[..|desired|] == desired;
    plan := Assemble(l, ReportTables(Sorted(ExtraTableSet(desired, live))));
    AssembledPlan(desired, live);
  }

  function Assemble(l: Lists, extra: seq<Diagnostic>): Plan {
    Plan(l.creates + l.columns + l.defaults + l.indexes + l.constraints, l.diagnostics + extra)
  }

  lemma AssembledPlan(desired: seq<DesiredTable>, live: Schema)
    ensures Assemble(ListsFor(live, desired), ReportTables(Sorted(ExtraTableSet(desired, live)))) == PlanFor(desired, live)
  {
    ListsArePhases(live, desired);
  }
}
