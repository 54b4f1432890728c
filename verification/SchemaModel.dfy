/**
  Live and desired schemas, and what schema operations do to a live schema.
  Definitions are canonical values: two definitions mean the same exactly when
  the compared parts are equal.
 */
module SchemaModel {
  import opened Wrappers

  // ----- The live schema

  datatype Column = Column(ty: string, nullable: bool, hasDefault: bool, defaultSQL: string)

  datatype Index = Index(columns: seq<string>, unique: bool)

  datatype Kind = PrimaryKey | NotNull | Unique | ForeignKey | Check | Exclusion

  datatype Constraint = Constraint(kind: Kind, columns: seq<string>, deferrable: bool, body: string)

  /** Whether a table holds rows, when that has been inspected. */
  datatype RowState = Unknown | Empty | NonEmpty

  datatype Table = Table(rows: RowState, columns: map<string, Column>,
                         indexes: map<string, Index>, constraints: map<string, Constraint>)

  type Schema = map<string, Table>

  // ----- The schema that metadata describes

  datatype DesiredColumn = DesiredColumn(name: string, ty: string, required: bool, hasSafeDefault: bool, defaultSQL: string)

  datatype DesiredIndex = DesiredIndex(name: string, columns: seq<string>)

  datatype DesiredConstraint = DesiredConstraint(name: string, definition: Constraint,
                                                 unsafeOnRows: bool, unsupported: bool)

  datatype DesiredTable = DesiredTable(name: string, system: seq<DesiredColumn>, columns: seq<DesiredColumn>,
                                       indexes: seq<DesiredIndex>, constraints: seq<DesiredConstraint>)

  const OWNER_ID := "owner_id"

  /** The timestamps get a default when their table is created; nothing compares it later. */
  function SystemDefault(name: string): string {
    if name == "created_at" || name == "updated_at" then "now()" else ""
  }

  function LiveSystem(c: DesiredColumn): Column {
    Column(c.ty, !c.required, SystemDefault(c.name) != "", SystemDefault(c.name))
  }

  function LiveField(c: DesiredColumn): Column {
    Column(c.ty, !c.required, c.defaultSQL != "", c.defaultSQL)
  }

  function Names(cs: seq<DesiredColumn>): set<string> {
    set i | 0 <= i < |cs| :: cs[i].name
  }

  /** The system columns of an Entity that is neither a collection nor a child of one. */
  const ENTITY_COLUMNS: seq<DesiredColumn> :=
    [DesiredColumn("id", "bigint", true, false, ""), DesiredColumn("name", "text", true, false, ""),
     DesiredColumn("created_at", "timestamptz", true, false, ""), DesiredColumn("updated_at", "timestamptz", true, false, ""),
     DesiredColumn("owner_id", "bigint", false, false, "")]

  function NameKey(table: string): string {
    table + "_name_key"
  }

  const UNIQUE_NAME := Constraint(Unique, ["name"], false, "")

  /** The table of an Entity without fields: system columns and the key on names. */
  function BareTable(name: string): DesiredTable {
    DesiredTable(name, ENTITY_COLUMNS, [], [], [DesiredConstraint(NameKey(name), UNIQUE_NAME, false, false)])
  }

  // ----- Operations

  datatype Op =
    | CreateTable(table: string, system: seq<DesiredColumn>)
    | AddColumn(table: string, column: DesiredColumn, isSystem: bool)
    | SetDefault(table: string, name: string, defaultSQL: string)
    | CreateIndex(table: string, name: string, columns: seq<string>)
    | AddConstraint(table: string, name: string, definition: Constraint)
    | DropConstraint(table: string, name: string)
    | DropIndex(table: string, name: string)
    | DropColumn(table: string, name: string)
    | DropTable(table: string)

  function PrimaryKeyName(table: string): string {
    table + "_pkey"
  }

  /** Constraints of these kinds own an index of the same name. */
  predicate OwnsIndex(k: Kind) {
    k.PrimaryKey? || k.Unique? || k.Exclusion?
  }

  function SystemColumns(cs: seq<DesiredColumn>): map<string, Column> {
    if cs == [] then map[] else SystemColumns(cs[..|cs| - 1])[cs[|cs| - 1].name := LiveSystem(cs[|cs| - 1])]
  }

  /** A new table holds its system columns, its primary key, and no rows. */
  function NewTable(name: string, system: seq<DesiredColumn>): Table {
    Table(Empty, SystemColumns(system),
          map[PrimaryKeyName(name) := Index(["id"], true)],
          map[PrimaryKeyName(name) := Constraint(PrimaryKey, ["id"], false, "")])
  }

  predicate HasColumns(t: Table, columns: seq<string>) {
    forall c :: c in columns ==> c in t.columns
  }

  /** What the database demands of an operation on an existing table. */
  predicate Allowed(op: Op, t: Table, tables: set<string>) {
    match op
    case AddColumn(_, c, isSystem) =>
      c.name !in t.columns && (c.required && (isSystem || c.defaultSQL == "") ==> t.rows == Empty)
    case SetDefault(_, name, _) => name in t.columns
    case CreateIndex(_, name, columns) => name !in t.indexes && HasColumns(t, columns)
    case AddConstraint(_, name, d) =>
      && name !in t.constraints && HasColumns(t, d.columns)
      && (OwnsIndex(d.kind) ==> name !in t.indexes)
      && (d.kind.ForeignKey? ==> d.body in tables)
    case DropConstraint(_, name) => name in t.constraints
    case DropIndex(_, name) => name in t.indexes && !(name in t.constraints && OwnsIndex(t.constraints[name].kind))
    case DropColumn(_, name) => name in t.columns
    case _ => false
  }

  /** The table after the operation. Dropping a column takes every index and constraint over it along. */
  function Changed(op: Op, t: Table): Table {
    match op
    case AddColumn(_, c, isSystem) =>
      t.(columns := t.columns[c.name := if isSystem then Column(c.ty, !c.required, false, "") else LiveField(c)])
    case SetDefault(_, name, d) =>
      if name in t.columns
      then t.(columns := t.columns[name := t.columns[name].(hasDefault := d != "", defaultSQL := d)])
      else t
    case CreateIndex(_, name, columns) => t.(indexes := t.indexes[name := Index(columns, false)])
    case AddConstraint(_, name, d) =>
      t.(constraints := t.constraints[name := d],
         indexes := if OwnsIndex(d.kind) then t.indexes[name := Index(d.columns, true)] else t.indexes)
    case DropConstraint(_, name) =>
      t.(constraints := t.constraints - {name},
         indexes := if name in t.constraints && OwnsIndex(t.constraints[name].kind)
                    then t.indexes - {name} else t.indexes)
    case DropIndex(_, name) => t.(indexes := t.indexes - {name})
    case DropColumn(_, name) =>
      t.(columns := t.columns - {name},
         indexes := map n | n in t.indexes && name !in t.indexes[n].columns :: t.indexes[n],
         constraints := map n | n in t.constraints && name !in t.constraints[n].columns :: t.constraints[n])
    case _ => t
  }

  /** A foreign key names the table it refers to in its body. */
  predicate RefersTo(t: Table, name: string) {
    exists n :: n in t.constraints && t.constraints[n].kind.ForeignKey? && t.constraints[n].body == name
  }

  /** Foreign keys of other tables keep a table from being dropped. */
  predicate Referenced(s: Schema, name: string) {
    exists m :: m in s && m != name && RefersTo(s[m], name)
  }

  /** One statement: the next schema, or nothing when the database refuses. */
  function Exec(op: Op, s: Schema): Option<Schema> {
    match op
    case CreateTable(name, system) =>
      if name in s then None else Some(s[name := NewTable(name, system)])
    case DropTable(name) =>
      if name in s && !Referenced(s, name) then Some(s - {name}) else None
    case _ =>
      if op.table in s && Allowed(op, s[op.table], s.Keys)
      then Some(s[op.table := Changed(op, s[op.table])]) else None
  }

  /** All statements in order, stopping at the first refusal. */
  function ExecAll(ops: seq<Op>, s: Schema): Option<Schema> {
    if ops == [] then Some(s)
    else
      var before := ExecAll(ops[..|ops| - 1], s);
      if before.None? then None else Exec(ops[|ops| - 1], before.value)
  }

  /** The statements on one table, seen from that table alone. */
  function ExecTable(ops: seq<Op>, t: Table, tables: set<string>): Option<Table> {
    if ops == [] then Some(t)
    else
      var before := ExecTable(ops[..|ops| - 1], t, tables);
      var op := ops[|ops| - 1];
      if before.None? || !Allowed(op, before.value, tables) then None else Some(Changed(op, before.value))
  }

  lemma {:induction false} ExecSplits(a: seq<Op>, b: seq<Op>, s: Schema)
    ensures ExecAll(a + b, s) == (var m := ExecAll(a, s); if m.None? then None else ExecAll(b, m.value))
  {
    if b == [] {
      assert a + b == a;
    } else {
      ExecSplits(a, b[..|b| - 1], s);
      assert (a + b)[..|a + b| - 1] == a + b[..|b| - 1];
    }
  }

  lemma {:induction false} ExecTableSplits(a: seq<Op>, b: seq<Op>, t: Table, tables: set<string>)
    ensures ExecTable(a + b, t, tables)
         == (var m := ExecTable(a, t, tables); if m.None? then None else ExecTable(b, m.value, tables))
  {
    if b == [] {
      assert a + b == a;
    } else {
      ExecTableSplits(a, b[..|b| - 1], t, tables);
      assert (a + b)[..|a + b| - 1] == a + b[..|b| - 1];
    }
  }

  predicate OnTable(ops: seq<Op>, name: string) {
    forall op :: op in ops ==> op.table == name && !op.CreateTable? && !op.DropTable?
  }

  /** Statements on one table touch that table and no other. */
  lemma {:induction false} ExecOnTable(ops: seq<Op>, name: string, s: Schema)
    requires OnTable(ops, name) && name in s
    ensures var m := ExecTable(ops, s[name], s.Keys);
      ExecAll(ops, s) == if m.None? then None else Some(s[name := m.value])
  {
    if ops == [] {
      assert s[name := s[name]] == s;
    } else {
      var front := ops[..|ops| - 1];
      assert ops[|ops| - 1] in ops;
      ExecOnTable(front, name, s);
      var m := ExecTable(front, s[name], s.Keys);
      if m.Some? {
        var s' := s[name := m.value];
        assert s'.Keys == s.Keys;
        assert s'[name := Changed(ops[|ops| - 1], m.value)] == s[name := Changed(ops[|ops| - 1], m.value)];
      }
    }
  }

  // ----- Statements table by table

  /** The statements one phase has for one table. */
  datatype Part = Part(table: string, ops: seq<Op>)

  function Join(parts: seq<Part>): seq<Op> {
    if parts == [] then [] else Join(parts[..|parts| - 1]) + parts[|parts| - 1].ops
  }

  lemma {:induction false} JoinEmpty(parts: seq<Part>)
    requires forall i :: 0 <= i < |parts| ==> parts[i].ops == []
    ensures Join(parts) == []
  {
    if parts != [] { JoinEmpty(parts[..|parts| - 1]); }
  }

  predicate DistinctParts(parts: seq<Part>) {
    forall i, j :: 0 <= i < j < |parts| ==> parts[i].table != parts[j].table
  }

  predicate Runs(part: Part, s: Schema) {
    OnTable(part.ops, part.table) && part.table in s && ExecTable(part.ops, s[part.table], s.Keys).Some?
  }

  predicate Ran(part: Part, s: Schema, s': Schema) {
    part.table in s && part.table in s' && ExecTable(part.ops, s[part.table], s.Keys) == Some(s'[part.table])
  }

  ghost predicate AllRan(parts: seq<Part>, s: Schema, s': Schema) {
    && s'.Keys == s.Keys
    && (forall i :: 0 <= i < |parts| ==> Ran(parts[i], s, s'))
    && (forall n :: n in s && (forall i :: 0 <= i < |parts| ==> parts[i].table != n) ==> s'[n] == s[n])
  }

  /**
    When the statements for each table succeed on that table taken alone, they
    succeed one table after the other, and every table ends where its own
    statements take it.
   */
  lemma {:induction false} RunParts(parts: seq<Part>, s: Schema) returns (s': Schema)
    requires DistinctParts(parts)
    requires forall i :: 0 <= i < |parts| ==> Runs(parts[i], s)
    ensures ExecAll(Join(parts), s) == Some(s')
    ensures AllRan(parts, s, s')
  {
    if parts == [] {
      s' := s;
    } else {
      var front, last := parts[..|parts| - 1], parts[|parts| - 1];
      assert Runs(last, s);
      var m := RunParts(front, s);
      ExecOnTable(last.ops, last.table, m);
      ExecSplits(Join(front), last.ops, s);
      s' := m[last.table := ExecTable(last.ops, s[last.table], s.Keys).value];
      OneMoreRan(parts, s, m, s');
    }
  }

  /** Conversely, statements that succeeded one table after the other succeeded on each table. */
  lemma {:induction false} PartsRan(parts: seq<Part>, s: Schema, s': Schema)
    requires DistinctParts(parts)
    requires forall i :: 0 <= i < |parts| ==> OnTable(parts[i].ops, parts[i].table) && parts[i].table in s
    requires ExecAll(Join(parts), s) == Some(s')
    ensures AllRan(parts, s, s')
  {
    if parts != [] {
      var front, last := parts[..|parts| - 1], parts[|parts| - 1];
      ExecSplits(Join(front), last.ops, s);
      var m := ExecAll(Join(front), s).value;
      PartsRan(front, s, m);
      assert m[last.table] == s[last.table];
      ExecOnTable(last.ops, last.table, m);
      OneMoreRan(parts, s, m, s');
    }
  }

  lemma OneMoreRan(parts: seq<Part>, s: Schema, m: Schema, s': Schema)
    requires parts != [] && DistinctParts(parts) && AllRan(parts[..|parts| - 1], s, m)
    requires var last := parts[|parts| - 1];
      && last.table in s && m[last.table] == s[last.table]
      && var t := ExecTable(last.ops, s[last.table], s.Keys);
         t.Some? && s' == m[last.table := t.value]
    ensures AllRan(parts, s, s')
  {
    var front := parts[..|parts| - 1];
    forall i | 0 <= i < |parts| ensures Ran(parts[i], s, s') {
      if i < |front| { assert Ran(front[i], s, m) && front[i] == parts[i]; }
    }
    forall n | n in s && (forall i :: 0 <= i < |parts| ==> parts[i].table != n) ensures s'[n] == s[n] {
      assert forall i :: 0 <= i < |front| ==> front[i].table == parts[i].table;
    }
  }
}
