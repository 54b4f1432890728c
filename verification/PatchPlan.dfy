/** The patch planner, as a simulation of the database on a private copy. */
module PatchPlan {
  // Each operation is resolved against metadata and a private copy of the live
  // schema, and moves that copy along as its statement would move the database.

  import opened Wrappers
  import opened SchemaModel
  import opened StorageNames

  // ----- Metadata and patches

  /** A field; without a column it has no storage of its own, without a type it cannot be retyped. */
  datatype MetaField = MetaField(name: string, ty: string, column: Option<string>, sqlType: Option<string>)

  datatype Entity = Entity(app: string, name: string, isSystem: bool, fields: seq<MetaField>)

  type Entities = map<(string, string), Entity>

  datatype Phase = PreSync | PostSync

  datatype Operation =
    | RenameField(entity: string, from: string, to: string)
    | RenameEntity(from: string, to: string)
    | CopyField(entity: string, from: string, to: string, whenNull: bool)
    | BackfillField(entity: string, field: string, value: string, whenNull: bool)
    | DropField(entity: string, field: string)
    | ChangeFieldType(entity: string, field: string, to: string, using: string)
    | RunSql(name: string, statement: string, refused: bool)
    | SystemRecord(entity: string)
    | Unsupported(ty: string)

  datatype RunOn = Unset | OnMigrate | OnInstall | OnBoth

  datatype Patch = Patch(app: string, id: string, phase: Phase, path: string, checksum: string, runOn: RunOn,
                         operations: seq<Operation>)

  /** What is sent to the database. */
  datatype Statement =
    | RenameColumn(table: string, from: string, to: string)
    | RenameTable(from: string, to: string)
    | CopyColumn(table: string, from: string, to: string, whenNull: bool)
    | Backfill(table: string, column: string, value: string, whenNull: bool)
    | RemoveColumn(table: string, column: string)
    | ChangeType(table: string, column: string, ty: string, using: string)
    | RawSql(text: string)
    | WriteRecord(entity: string)

  datatype PlannedOp = PlannedOp(app: string, id: string, phase: Phase, checksum: string, index: nat, statement: Statement)

  datatype Problem =
    | DuplicateEntity(app: string, name: string)
    | EntityNotLoaded(name: string)
    | FieldNotLoaded(name: string)
    | UnsupportedStorage(name: string)
    | NoLiveColumn(name: string)
    | AmbiguousColumn(name: string, matches: seq<string>)
    | SystemColumn(column: string)
    | TableMissing(table: string)
    | ColumnMissing(table: string, column: string)
    | TargetExists(name: string)
    | TypeMismatch(name: string)
    | SqlRefused(name: string)
    | RecordRefused(entity: string)
    | UnsupportedOperation(ty: string)

  datatype PlanError = PlanError(app: string, id: string, index: nat, problem: Problem)

  // ----- Names

  const SYSTEM_COLUMNS: set<string> := {"id", "name", "created_at", "updated_at", "owner_id"}

  function FindField(fields: seq<MetaField>, name: string): Option<MetaField> {
    if fields == [] then None
    else if fields[0].name == name then Some(fields[0])
    else FindField(fields[1..], name)
  }

  function LiveCandidates(t: Table, field: string): seq<string> {
    var base := StorageName(field);
    (if base in t.columns then [base] else []) +
    (if base + "_id" in t.columns then [base + "_id"] else []) +
    (if base + "_hash" in t.columns then [base + "_hash"] else [])
  }

  /** A field that left metadata is found by the columns it may have had. */
  function InferColumn(s: Schema, table: string, field: string): Result<string, Problem> {
    if table !in s then Err(TableMissing(table))
    else
      var matches := LiveCandidates(s[table], field);
      if matches == [] then Err(NoLiveColumn(field))
      else if |matches| == 1 then Ok(matches[0])
      else Err(AmbiguousColumn(field, matches))
  }

  /** The columns a field that left metadata may have had. */
  predicate MayHold(column: string, field: string) {
    var base := StorageName(field);
    column == base || column == base + "_id" || column == base + "_hash"
  }

  lemma CandidatesExact(t: Table, field: string)
    ensures forall c :: c in LiveCandidates(t, field) <==> c in t.columns && MayHold(c, field)
    ensures var found := LiveCandidates(t, field); forall i, j :: 0 <= i < j < |found| ==> found[i] != found[j]
  {
    var base := StorageName(field);
    assert |base| < |base + "_id"| < |base + "_hash"|;
  }

  /** A column is inferred exactly when it is the only one of the table that may have held the field. */
  lemma InferredIffOnly(s: Schema, table: string, field: string, column: string)
    ensures InferColumn(s, table, field) == Ok(column) <==>
      && table in s && column in s[table].columns && MayHold(column, field)
      && forall c :: c in s[table].columns && MayHold(c, field) ==> c == column
  {
    if table in s {
      CandidatesExact(s[table], field);
      OnlyOne(LiveCandidates(s[table], field), column);
    }
  }

  lemma OnlyOne(s: seq<string>, x: string)
    requires forall i, j :: 0 <= i < j < |s| ==> s[i] != s[j]
    ensures |s| == 1 && s[0] == x <==> x in s && forall y :: y in s ==> y == x
  {
    if |s| > 1 { assert s[0] in s && s[1] in s; }
  }

  function PatchColumn(s: Schema, e: Entity, table: string, field: string): Result<string, Problem> {
    var f := FindField(e.fields, field);
    if f.None? then InferColumn(s, table, field)
    else if f.value.column.None? then Err(UnsupportedStorage(field))
    else Ok(f.value.column.value)
  }

  function MetadataColumn(e: Entity, field: string): Result<(string, MetaField), Problem> {
    var f := FindField(e.fields, field);
    if f.None? then Err(FieldNotLoaded(field))
    else if f.value.column.None? then Err(UnsupportedStorage(field))
    else Ok((f.value.column.value, f.value))
  }

  /** The field of that name: the first, should there be several. */
  predicate IsFieldOf(fields: seq<MetaField>, name: string, f: MetaField) {
    exists i :: 0 <= i < |fields| && fields[i] == f && f.name == name && forall j :: 0 <= j < i ==> fields[j].name != name
  }

  lemma {:induction false} FindFieldExact(fields: seq<MetaField>, name: string)
    ensures FindField(fields, name).None? <==> forall i :: 0 <= i < |fields| ==> fields[i].name != name
    ensures FindField(fields, name).Some? ==> IsFieldOf(fields, name, FindField(fields, name).value)
  {
    if fields != [] && fields[0].name != name {
      var rest := fields[1..];
      FindFieldExact(rest, name);
      assert forall i :: 1 <= i < |fields| ==> fields[i] == rest[i - 1];
      if FindField(rest, name).Some? {
        var f := FindField(rest, name).value;
        var i :| 0 <= i < |rest| && rest[i] == f && forall j :: 0 <= j < i ==> rest[j].name != name;
        assert fields[i + 1] == f;
      }
    } else if fields != [] {
      assert IsFieldOf(fields, name, fields[0]);
    }
  }

  /**
    The column of a field: from metadata while the field is there, which has to have
    storage; what the patch takes it from may also have left metadata, and is then
    inferred from the live table.
   */
  lemma FieldColumnExact(s: Schema, e: Entity, table: string, field: string)
    ensures (forall i :: 0 <= i < |e.fields| ==> e.fields[i].name != field) ==>
      && PatchColumn(s, e, table, field) == InferColumn(s, table, field)
      && MetadataColumn(e, field) == Err(FieldNotLoaded(field))
    ensures (exists i :: 0 <= i < |e.fields| && e.fields[i].name == field) ==>
      exists f :: IsFieldOf(e.fields, field, f) &&
        if f.column.None?
        then PatchColumn(s, e, table, field) == Err(UnsupportedStorage(field)) && MetadataColumn(e, field) == Err(UnsupportedStorage(field))
        else PatchColumn(s, e, table, field) == Ok(f.column.value) && MetadataColumn(e, field) == Ok((f.column.value, f))
  {
    FindFieldExact(e.fields, field);
  }

  // ----- The database

  function Renamed(columns: seq<string>, from: string, to: string): seq<string> {
    seq(|columns|, i requires 0 <= i < |columns| => if columns[i] == from then to else columns[i])
  }

  function ColumnRenamed(t: Table, from: string, to: string): Table
    requires from in t.columns
  {
    t.(columns := (t.columns - {from})[to := t.columns[from]],
       indexes := map n | n in t.indexes :: t.indexes[n].(columns := Renamed(t.indexes[n].columns, from, to)),
       constraints := map n | n in t.constraints ::
         t.constraints[n].(columns := Renamed(t.constraints[n].columns, from, to)))
  }

  /** Foreign keys follow a table to its new name. */
  function Retargeted(t: Table, from: string, to: string): Table {
    t.(constraints := map n | n in t.constraints ::
      if t.constraints[n].kind.ForeignKey? && t.constraints[n].body == from
      then t.constraints[n].(body := to) else t.constraints[n])
  }

  predicate HasColumn(s: Schema, table: string, column: string) {
    table in s && column in s[table].columns
  }

  /** One statement on the database: the next schema, or nothing when the database refuses. */
  function ExecStatement(st: Statement, s: Schema): Option<Schema>
    requires !st.RawSql?
  {
    match st
    case RenameColumn(t, from, to) =>
      if HasColumn(s, t, from) && to !in s[t].columns then Some(s[t := ColumnRenamed(s[t], from, to)]) else None
    case RenameTable(from, to) =>
      if from in s && to !in s
      then Some(map n | n in s.Keys - {from} + {to} :: Retargeted(s[if n == to then from else n], from, to))
      else None
    case CopyColumn(t, from, to, _) => if HasColumn(s, t, from) && HasColumn(s, t, to) then Some(s) else None
    case Backfill(t, c, _, _) => if HasColumn(s, t, c) then Some(s) else None
    case RemoveColumn(t, c) => if HasColumn(s, t, c) then Some(s[t := Changed(DropColumn(t, c), s[t])]) else None
    case ChangeType(t, c, ty, _) =>
      if HasColumn(s, t, c) then Some(s[t := s[t].(columns := s[t].columns[c := s[t].columns[c].(ty := ty)])]) else None
    case WriteRecord(_) => Some(s)
  }

  function ExecStatements(ops: seq<PlannedOp>, s: Schema): Option<Schema>
    requires forall o :: o in ops ==> !o.statement.RawSql?
  {
    if ops == [] then Some(s)
    else
      var m := ExecStatements(ops[..|ops| - 1], s);
      if m.None? then None else ExecStatement(ops[|ops| - 1].statement, m.value)
  }

  // ----- One step of the planner, on values

  function WithoutColumn(s: Schema, table: string, column: string): Schema
    requires table in s
  {
    s[table := s[table].(columns := s[table].columns - {column})]
  }

  function WithColumn(s: Schema, table: string, column: string, c: Column): Schema
    requires table in s
  {
    s[table := s[table].(columns := s[table].columns[column := c])]
  }

  function StepRenameField(es: Entities, app: string, op: Operation, s: Schema): Result<(Statement, Schema), Problem>
    requires op.RenameField?
  {
    if (app, op.entity) !in es then Err(EntityNotLoaded(op.entity))
    else
      var e := es[(app, op.entity)];
      var table := TableName(e.app, e.name);
      var from := PatchColumn(s, e, table, op.from);
      if from.Err? then Err(from.error)
      else if from.value in SYSTEM_COLUMNS then Err(SystemColumn(from.value))
      else
        var to := MetadataColumn(e, op.to);
        if to.Err? then Err(to.error)
        else if table !in s then Err(TableMissing(table))
        else if from.value !in s[table].columns then Err(ColumnMissing(table, from.value))
        else if to.value.0 in s[table].columns then Err(TargetExists(to.value.0))
        else
          var c := s[table].columns[from.value];
          Ok((RenameColumn(table, from.value, to.value.0),
              WithColumn(WithoutColumn(s, table, from.value), table, to.value.0, c)))
  }

  function StepRenameEntity(es: Entities, app: string, op: Operation, s: Schema): Result<(Statement, Schema), Problem>
    requires op.RenameEntity?
  {
    if (app, op.to) !in es then Err(EntityNotLoaded(op.to))
    else
      var e := es[(app, op.to)];
      var from, to := TableName(app, op.from), TableName(e.app, e.name);
      if from !in s then Err(TableMissing(from))
      else if to in s then Err(TargetExists(to))
      else Ok((RenameTable(from, to), (s - {from})[to := s[from]]))
  }

  function RequireColumn(s: Schema, table: string, column: string): Option<Problem> {
    if table !in s then Some(TableMissing(table))
    else if column !in s[table].columns then Some(ColumnMissing(table, column))
    else None
  }

  function StepCopyField(es: Entities, app: string, op: Operation, s: Schema): Result<(Statement, Schema), Problem>
    requires op.CopyField?
  {
    if (app, op.entity) !in es then Err(EntityNotLoaded(op.entity))
    else
      var e := es[(app, op.entity)];
      var table := TableName(e.app, e.name);
      var from := PatchColumn(s, e, table, op.from);
      if from.Err? then Err(from.error)
      else
        var to := MetadataColumn(e, op.to);
        if to.Err? then Err(to.error)
        else if RequireColumn(s, table, from.value).Some? then Err(RequireColumn(s, table, from.value).value)
        else if RequireColumn(s, table, to.value.0).Some? then Err(RequireColumn(s, table, to.value.0).value)
        else Ok((CopyColumn(table, from.value, to.value.0, op.whenNull), s))
  }

  function StepBackfillField(es: Entities, app: string, op: Operation, s: Schema): Result<(Statement, Schema), Problem>
    requires op.BackfillField?
  {
    if (app, op.entity) !in es then Err(EntityNotLoaded(op.entity))
    else
      var e := es[(app, op.entity)];
      var table, column := TableName(e.app, e.name), MetadataColumn(e, op.field);
      if column.Err? then Err(column.error)
      else if RequireColumn(s, table, column.value.0).Some? then Err(RequireColumn(s, table, column.value.0).value)
      else Ok((Backfill(table, column.value.0, op.value, op.whenNull), s))
  }

  function StepDropField(es: Entities, app: string, op: Operation, s: Schema): Result<(Statement, Schema), Problem>
    requires op.DropField?
  {
    if (app, op.entity) !in es then Err(EntityNotLoaded(op.entity))
    else
      var e := es[(app, op.entity)];
      var table := TableName(e.app, e.name);
      var column := PatchColumn(s, e, table, op.field);
      if column.Err? then Err(column.error)
      else if column.value in SYSTEM_COLUMNS then Err(SystemColumn(column.value))
      else if RequireColumn(s, table, column.value).Some? then Err(RequireColumn(s, table, column.value).value)
      else Ok((RemoveColumn(table, column.value), WithoutColumn(s, table, column.value)))
  }

  function StepChangeFieldType(es: Entities, app: string, op: Operation, s: Schema): Result<(Statement, Schema), Problem>
    requires op.ChangeFieldType?
  {
    if (app, op.entity) !in es then Err(EntityNotLoaded(op.entity))
    else
      var e := es[(app, op.entity)];
      var table, column := TableName(e.app, e.name), MetadataColumn(e, op.field);
      if column.Err? then Err(column.error)
      else if column.value.1.ty != op.to then Err(TypeMismatch(op.field))
      else if column.value.1.sqlType.None? then Err(UnsupportedStorage(op.field))
      else if RequireColumn(s, table, column.value.0).Some? then Err(RequireColumn(s, table, column.value.0).value)
      else
        var ty := column.value.1.sqlType.value;
        Ok((ChangeType(table, column.value.0, ty, op.using),
            WithColumn(s, table, column.value.0, s[table].columns[column.value.0].(ty := ty))))
  }

  function StepOther(es: Entities, app: string, phase: Phase, op: Operation): Result<Statement, Problem>
    requires op.RunSql? || op.SystemRecord? || op.Unsupported?
  {
    match op
    case RunSql(name, statement, refused) => if refused then Err(SqlRefused(name)) else Ok(RawSql(statement))
    case SystemRecord(entity) =>
      if phase != PostSync then Err(RecordRefused(entity))
      else if (app, entity) !in es then Err(EntityNotLoaded(entity))
      else if Blank(app) || !es[(app, entity)].isSystem then Err(RecordRefused(entity))
      else Ok(WriteRecord(entity))
    case Unsupported(ty) => Err(UnsupportedOperation(ty))
  }

  function Step(es: Entities, app: string, phase: Phase, op: Operation, s: Schema): Result<(Statement, Schema), Problem> {
    match op
    case RenameField(_, _, _) => StepRenameField(es, app, op, s)
    case RenameEntity(_, _) => StepRenameEntity(es, app, op, s)
    case CopyField(_, _, _, _) => StepCopyField(es, app, op, s)
    case BackfillField(_, _, _, _) => StepBackfillField(es, app, op, s)
    case DropField(_, _) => StepDropField(es, app, op, s)
    case ChangeFieldType(_, _, _, _) => StepChangeFieldType(es, app, op, s)
    case _ =>
      var st := StepOther(es, app, phase, op);
      if st.Err? then Err(st.error) else Ok((st.value, s))
  }

  // ----- Plans

  datatype Plan = Plan(operations: seq<PlannedOp>, after: Schema, unsimulated: bool)

  /** The first k operations of one patch. */
  function PlanPatch(es: Entities, p: Patch, k: nat, before: Plan): Result<Plan, PlanError>
    requires k <= |p.operations|
  {
    if k == 0 then Ok(before)
    else
      var front := PlanPatch(es, p, k - 1, before);
      if front.Err? then front
      else
        var step := Step(es, p.app, p.phase, p.operations[k - 1], front.value.after);
        if step.Err? then Err(PlanError(p.app, p.id, k - 1, step.error))
        else
          var st := step.value.0;
          Ok(Plan(front.value.operations + [PlannedOp(p.app, p.id, p.phase, p.checksum, k - 1, st)], step.value.1,
                  front.value.unsimulated || st.RawSql?))
  }

  function PlanFrom(es: Entities, ps: seq<Patch>, before: Plan): Result<Plan, PlanError> {
    if ps == [] then Ok(before)
    else
      var front := PlanFrom(es, ps[..|ps| - 1], before);
      if front.Err? then front else PlanPatch(es, ps[|ps| - 1], |ps[|ps| - 1].operations|, front.value)
  }

  function PlanAll(es: Entities, ps: seq<Patch>, s: Schema): Result<Plan, PlanError> {
    PlanFrom(es, ps, Plan([], s, false))
  }

  predicate DistinctEntities(es: seq<Entity>) {
    forall i, j :: 0 <= i < j < |es| ==> (es[i].app, es[i].name) != (es[j].app, es[j].name)
  }

  function ByIdentity(es: seq<Entity>): Entities {
    if es == [] then map[]
    else var e := es[|es| - 1]; ByIdentity(es[..|es| - 1])[(e.app, e.name) := e]
  }

  // ----- The planner, on a private copy of the live schema

  /** The columns of a live table are a table that others may hold on to. */
  class Columns {
    var m: map<string, Column>

    constructor (m: map<string, Column>)
      ensures this.m == m
    {
      this.m := m;
    }
  }

  datatype LiveTable = LiveTable(rows: RowState, columns: Columns,
                                 indexes: map<string, Index>, constraints: map<string, Constraint>)

  type LiveSchema = map<string, LiveTable>

  ghost function Cells(live: LiveSchema): set<Columns> {
    set n | n in live :: live[n].columns
  }

  ghost function Value(live: LiveSchema): Schema
    reads Cells(live)
  {
    map n | n in live :: Table(live[n].rows, live[n].columns.m, live[n].indexes, live[n].constraints)
  }

  /** No two tables share their columns. */
  ghost predicate Separate(live: LiveSchema) {
    forall a, b :: a in live && b in live && a != b ==> live[a].columns != live[b].columns
  }

  ghost predicate SameTable(a: LiveTable, b: LiveTable)
    reads a.columns, b.columns
  {
    a.columns.m == b.columns.m && a.rows == b.rows && a.indexes == b.indexes && a.constraints == b.constraints
  }

  /** A copy with columns of its own. */
  method CloneLiveSchema(live: LiveSchema) returns (copy: LiveSchema)
    ensures Value(copy) == Value(live) && Separate(copy) && fresh(Cells(copy))
  {
    copy := map[];
    var names := live.Keys;
    while names != {}
      invariant names <= live.Keys && copy.Keys == live.Keys - names
      invariant Separate(copy) && fresh(Cells(copy)) && CopiesPart(copy, live)
      decreases names
    {
      assert (forall x :: x !in names) ==> names == {};
      var n :| n in names;
      copy := CloneInto(copy, live, n);
      names := names - {n};
    }
    WholeCopy(copy, live);
  }

  lemma WholeCopy(copy: LiveSchema, live: LiveSchema)
    requires CopiesPart(copy, live) && copy.Keys == live.Keys
    ensures Value(copy) == Value(live)
  {
    assert forall n :: n in copy ==> SameTable(copy[n], live[n]);
  }

  method CloneInto(copy: LiveSchema, live: LiveSchema, n: string) returns (more: LiveSchema)
    requires n in live && n !in copy && Separate(copy) && CopiesPart(copy, live)
    ensures more.Keys == copy.Keys + {n} && Separate(more) && CopiesPart(more, live)
    ensures Cells(more) == Cells(copy) + {more[n].columns} && fresh(more[n].columns)
  {
    var t := CloneTable(live[n], Cells(copy));
    AddCell(copy, n, t);
    more := copy[n := t];
  }

  ghost predicate CopiesPart(copy: LiveSchema, live: LiveSchema)
    reads Cells(copy), Cells(live)
  {
    copy.Keys <= live.Keys && forall n :: n in copy ==> SameTable(copy[n], live[n])
  }

  method CloneTable(t: LiveTable, ghost others: set<Columns>) returns (c: LiveTable)
    ensures fresh(c.columns) && SameTable(c, t) && c.columns !in others
  {
    var columns := new Columns(t.columns.m);
    c := t.(columns := columns);
  }

  lemma AddCell(live: LiveSchema, n: string, t: LiveTable)
    requires Separate(live) && n !in live && t.columns !in Cells(live)
    ensures Separate(live[n := t]) && Cells(live[n := t]) == Cells(live) + {t.columns}
  {
    var more := live[n := t];
    forall c | c in Cells(live) ensures c in Cells(more) {
      var k :| k in live && live[k].columns == c;
      assert more[k] == live[k];
    }
    assert more[n].columns in Cells(more);
    forall k | k in live ensures live[k].columns in Cells(live) { }
  }

  lemma RenamedCells(live: LiveSchema, from: string, to: string)
    requires Separate(live) && from in live && to !in live
    ensures var renamed := (live - {from})[to := live[from]];
      Separate(renamed) && Cells(renamed) == Cells(live)
  {
    var renamed := (live - {from})[to := live[from]];
    forall c | c in Cells(live) ensures c in Cells(renamed) {
      var n :| n in live && live[n].columns == c;
      assert renamed[if n == from then to else n].columns == c;
    }
  }

  class Planner {
    const entities: Entities
    var live: LiveSchema

    ghost predicate Valid()
      reads this
    {
      Separate(live)
    }

    constructor (entities: Entities, live: LiveSchema)
      ensures Valid() && this.entities == entities
      ensures fresh(Cells(this.live)) && Value(this.live) == Value(live)
    {
      this.entities := entities;
      var copy := CloneLiveSchema(live);
      this.live := copy;
    }

    method SetColumns(table: string, columns: map<string, Column>)
      requires Valid() && table in live
      modifies live[table].columns
      ensures live[table].columns.m == columns
      ensures Value(live) == old(Value(live))[table := old(Value(live))[table].(columns := columns)]
    {
      live[table].columns.m := columns;
    }

    method RenameLiveColumn(table: string, from: string, to: string)
      requires Valid() && table in live && from in live[table].columns.m
      modifies live[table].columns
      ensures Value(live) ==
        WithColumn(WithoutColumn(old(Value(live)), table, from), table, to, old(live[table].columns.m[from]))
    {
      var column := live[table].columns.m[from];
      SetColumns(table, (live[table].columns.m - {from})[to := column]);
    }

    method RenameLiveTable(from: string, to: string)
      requires Valid() && from in live && to !in live
      modifies this`live
      ensures Valid() && Cells(live) == old(Cells(live))
      ensures Value(live) == (old(Value(live)) - {from})[to := old(Value(live))[from]]
    {
      RenamedCells(live, from, to);
      var table := live[from];
      live := live - {from};
      live := live[to := table];
    }

    method DropLiveColumn(table: string, column: string)
      requires Valid() && table in live
      modifies live[table].columns
      ensures Value(live) == WithoutColumn(old(Value(live)), table, column)
    {
      SetColumns(table, live[table].columns.m - {column});
    }

    method ChangeLiveColumnType(table: string, column: string, ty: string)
      requires Valid() && table in live && column in live[table].columns.m
      modifies live[table].columns
      ensures Value(live) == WithColumn(old(Value(live)), table, column, old(live[table].columns.m[column]).(ty := ty))
    {
      SetColumns(table, live[table].columns.m[column := live[table].columns.m[column].(ty := ty)]);
    }

    method InferLiveFieldColumn(table: string, field: string) returns (r: Result<string, Problem>)
      ensures r == InferColumn(Value(live), table, field)
    {
      if table !in live { return Err(TableMissing(table)); }
      var base := StorageName(field);
      var candidates := [base, base + "_id", base + "_hash"];
      var matches: seq<string> := [];
      ghost var t := Value(live)[table];
      for i := 0 to 3
        invariant i == 0 ==> matches == []
        invariant i == 1 ==> matches == if base in t.columns then [base] else []
        invariant i == 2 ==> matches == (if base in t.columns then [base] else [])
                                      + (if base + "_id" in t.columns then [base + "_id"] else [])
        invariant i == 3 ==> matches == LiveCandidates(t, field)
      {
        if candidates[i] in live[table].columns.m { matches := matches + [candidates[i]]; }
      }
      if |matches| == 0 { return Err(NoLiveColumn(field)); }
      if |matches| == 1 { return Ok(matches[0]); }
      return Err(AmbiguousColumn(field, matches));
    }

    method PatchFieldColumn(e: Entity, table: string, field: string) returns (r: Result<string, Problem>)
      ensures r == PatchColumn(Value(live), e, table, field)
    {
      var f := FindField(e.fields, field);
      if f.None? { r := InferLiveFieldColumn(table, field); return; }
      return if f.value.column.None? then Err(UnsupportedStorage(field)) else Ok(f.value.column.value);
    }

    method RequireLiveColumn(table: string, column: string) returns (r: Option<Problem>)
      ensures r == RequireColumn(Value(live), table, column)
    {
      if table !in live { return Some(TableMissing(table)); }
      return if column !in live[table].columns.m then Some(ColumnMissing(table, column)) else None;
    }

    method PlanRenameField(app: string, op: Operation) returns (r: Result<Statement, Problem>)
      requires Valid() && op.RenameField?
      modifies Cells(live)
      ensures Planned(r, StepRenameField(entities, app, op, old(Value(live))), old(Value(live)))
    {
      if (app, op.entity) !in entities { return Err(EntityNotLoaded(op.entity)); }
      var e := entities[(app, op.entity)];
      var table := TableName(e.app, e.name);
      var from := PatchFieldColumn(e, table, op.from);
      if from.Err? { return Err(from.error); }
      if from.value in SYSTEM_COLUMNS { return Err(SystemColumn(from.value)); }
      var to := MetadataColumn(e, op.to);
      if to.Err? { return Err(to.error); }
      var missing := RequireLiveColumn(table, from.value);
      if missing.Some? { return Err(missing.value); }
      if to.value.0 in live[table].columns.m { return Err(TargetExists(to.value.0)); }
      RenameLiveColumn(table, from.value, to.value.0);
      return Ok(RenameColumn(table, from.value, to.value.0));
    }

    method PlanRenameEntity(app: string, op: Operation) returns (r: Result<Statement, Problem>)
      requires Valid() && op.RenameEntity?
      modifies this`live
      ensures Valid() && Cells(live) == old(Cells(live))
      ensures Planned(r, StepRenameEntity(entities, app, op, old(Value(live))), old(Value(live)))
    {
      if (app, op.to) !in entities { return Err(EntityNotLoaded(op.to)); }
      var e := entities[(app, op.to)];
      var from, to := TableName(app, op.from), TableName(e.app, e.name);
      if from !in live { return Err(TableMissing(from)); }
      if to in live { return Err(TargetExists(to)); }
      RenameLiveTable(from, to);
      return Ok(RenameTable(from, to));
    }

    method PlanCopyField(app: string, op: Operation) returns (r: Result<Statement, Problem>)
      requires op.CopyField?
      ensures Planned(r, StepCopyField(entities, app, op, Value(live)), Value(live))
    {
      if (app, op.entity) !in entities { return Err(EntityNotLoaded(op.entity)); }
      var e := entities[(app, op.entity)];
      var table := TableName(e.app, e.name);
      var from := PatchFieldColumn(e, table, op.from);
      if from.Err? { return Err(from.error); }
      var to := MetadataColumn(e, op.to);
      if to.Err? { return Err(to.error); }
      var missing := RequireLiveColumn(table, from.value);
      if missing.Some? { return Err(missing.value); }
      missing := RequireLiveColumn(table, to.value.0);
      if missing.Some? { return Err(missing.value); }
      return Ok(CopyColumn(table, from.value, to.value.0, op.whenNull));
    }

    method PlanBackfillField(app: string, op: Operation) returns (r: Result<Statement, Problem>)
      requires op.BackfillField?
      ensures Planned(r, StepBackfillField(entities, app, op, Value(live)), Value(live))
    {
      if (app, op.entity) !in entities { return Err(EntityNotLoaded(op.entity)); }
      var e := entities[(app, op.entity)];
      var table, column := TableName(e.app, e.name), MetadataColumn(e, op.field);
      if column.Err? { return Err(column.error); }
      var missing := RequireLiveColumn(table, column.value.0);
      if missing.Some? { return Err(missing.value); }
      return Ok(Backfill(table, column.value.0, op.value, op.whenNull));
    }

    method PlanDropField(app: string, op: Operation) returns (r: Result<Statement, Problem>)
      requires Valid() && op.DropField?
      modifies Cells(live)
      ensures Planned(r, StepDropField(entities, app, op, old(Value(live))), old(Value(live)))
    {
      if (app, op.entity) !in entities { return Err(EntityNotLoaded(op.entity)); }
      var e := entities[(app, op.entity)];
      var table := TableName(e.app, e.name);
      var column := PatchFieldColumn(e, table, op.field);
      if column.Err? { return Err(column.error); }
      if column.value in SYSTEM_COLUMNS { return Err(SystemColumn(column.value)); }
      var missing := RequireLiveColumn(table, column.value);
      if missing.Some? { return Err(missing.value); }
      DropLiveColumn(table, column.value);
      return Ok(RemoveColumn(table, column.value));
    }

    method PlanChangeFieldType(app: string, op: Operation) returns (r: Result<Statement, Problem>)
      requires Valid() && op.ChangeFieldType?
      modifies Cells(live)
      ensures Planned(r, StepChangeFieldType(entities, app, op, old(Value(live))), old(Value(live)))
    {
      if (app, op.entity) !in entities { return Err(EntityNotLoaded(op.entity)); }
      var e := entities[(app, op.entity)];
      var table, column := TableName(e.app, e.name), MetadataColumn(e, op.field);
      if column.Err? { return Err(column.error); }
      if column.value.1.ty != op.to { return Err(TypeMismatch(op.field)); }
      if column.value.1.sqlType.None? { return Err(UnsupportedStorage(op.field)); }
      var missing := RequireLiveColumn(table, column.value.0);
      if missing.Some? { return Err(missing.value); }
      var ty := column.value.1.sqlType.value;
      ChangeLiveColumnType(table, column.value.0, ty);
      return Ok(ChangeType(table, column.value.0, ty, op.using));
    }

    /** The result and the new live schema of one operation: a refused operation changes nothing. */
    ghost predicate Planned(r: Result<Statement, Problem>, step: Result<(Statement, Schema), Problem>, was: Schema)
      reads this, Cells(live)
    {
      match step
      case Ok(pair) => r == Ok(pair.0) && Value(live) == pair.1
      case Err(e) => r == Err(e) && Value(live) == was
    }

    method PlanOne(app: string, phase: Phase, op: Operation) returns (r: Result<Statement, Problem>)
      requires Valid()
      modifies this`live, Cells(live)
      ensures Valid() && Cells(live) == old(Cells(live))
      ensures Planned(r, Step(entities, app, phase, op, old(Value(live))), old(Value(live)))
    {
      match op {
        case RenameField(_, _, _) => r := PlanRenameField(app, op);
        case RenameEntity(_, _) => r := PlanRenameEntity(app, op);
        case CopyField(_, _, _, _) => r := PlanCopyField(app, op);
        case BackfillField(_, _, _, _) => r := PlanBackfillField(app, op);
        case DropField(_, _) => r := PlanDropField(app, op);
        case ChangeFieldType(_, _, _, _) => r := PlanChangeFieldType(app, op);
        case _ => r := StepOther(entities, app, phase, op);
      }
    }
  }

  /** What a plan is, with its schema still in the planner's hands. */
  datatype LivePlan = LivePlan(operations: seq<PlannedOp>, after: LiveSchema, unsimulated: bool)

  method IndexEntities(es: seq<Entity>) returns (r: Result<Entities, Problem>)
    ensures r.Ok? <==> DistinctEntities(es)
    ensures r.Ok? ==> r.value == ByIdentity(es)
  {
    var m: Entities := map[];
    for i := 0 to |es|
      invariant DistinctEntities(es[..i]) && m == ByIdentity(es[..i])
      invariant forall k :: k in m <==> exists j :: 0 <= j < i && (es[j].app, es[j].name) == k
    {
      if (es[i].app, es[i].name) in m { return Err(DuplicateEntity(es[i].app, es[i].name)); }
      assert es[..i + 1][..i] == es[..i];
      m := m[(es[i].app, es[i].name) := es[i]];
    }
    assert es[..|es|] == es;
    return Ok(m);
  }

  /** Plans one patch, or reports the first operation that cannot be planned. */
  method PlanOnePatch(planner: Planner, p: Patch, ghost before: Plan)
      returns (ops: seq<PlannedOp>, raw: bool, failed: Option<PlanError>)
    requires planner.Valid() && Value(planner.live) == before.after
    modifies planner`live, Cells(planner.live)
    ensures planner.Valid() && Cells(planner.live) == old(Cells(planner.live))
    ensures failed.None? ==> PlannedSoFar(planner.entities, p, |p.operations|, before, ops, raw, Value(planner.live))
    ensures failed.Some? ==> PlanPatch(planner.entities, p, |p.operations|, before) == Err(failed.value)
  {
    ops, raw, failed := [], false, None;
    NothingPlannedYet(planner.entities, p, before);
    for i := 0 to |p.operations|
      invariant planner.Valid() && Cells(planner.live) == old(Cells(planner.live))
      invariant PlannedSoFar(planner.entities, p, i, before, ops, raw, Value(planner.live))
    {
      var r;
      r, ops, raw := PlanNext(planner, p, i, before, ops, raw);
      if r.Some? {
        failed := Some(PlanError(p.app, p.id, i, r.value));
        PlanPatchFails(planner.entities, p, i + 1, before);
        return;
      }
    }
  }

  /** The first i operations are planned, and the planner's schema is now the given one. */
  predicate PlannedSoFar(es: Entities, p: Patch, i: nat, before: Plan, ops: seq<PlannedOp>, raw: bool, now: Schema)
    requires i <= |p.operations|
  {
    PlanPatch(es, p, i, before) == Ok(Plan(before.operations + ops, now, before.unsimulated || raw))
  }

  lemma NothingPlannedYet(es: Entities, p: Patch, before: Plan)
    ensures PlannedSoFar(es, p, 0, before, [], false, before.after)
  {
    assert before.operations + [] == before.operations;
  }

  /** Plans one operation more, or tells what is wrong with it. */
  method PlanNext(planner: Planner, p: Patch, i: nat, ghost before: Plan, planned: seq<PlannedOp>, already: bool)
      returns (problem: Option<Problem>, ops: seq<PlannedOp>, raw: bool)
    requires planner.Valid() && i < |p.operations|
    requires PlannedSoFar(planner.entities, p, i, before, planned, already, Value(planner.live))
    modifies planner`live, Cells(planner.live)
    ensures planner.Valid() && Cells(planner.live) == old(Cells(planner.live))
    ensures problem.Some? ==> PlanPatch(planner.entities, p, i + 1, before) == Err(PlanError(p.app, p.id, i, problem.value))
    ensures problem.None? ==> PlannedSoFar(planner.entities, p, i + 1, before, ops, raw, Value(planner.live))
  {
    ghost var was := Value(planner.live);
    var r := planner.PlanOne(p.app, p.phase, p.operations[i]);
    if r.Err? { return Some(r.error), planned, already; }
    PlanPatchOneMore(planner.entities, p, i, before, planned, already, was, r.value, Value(planner.live));
    return None, planned + [PlannedOp(p.app, p.id, p.phase, p.checksum, i, r.value)], already || r.value.RawSql?;
  }

  predicate HasRawSql(ops: seq<PlannedOp>) {
    exists o :: o in ops && o.statement.RawSql?
  }

  lemma HasRawSqlGrows(front: seq<PlannedOp>, o: PlannedOp)
    ensures HasRawSql(front + [o]) <==> HasRawSql(front) || o.statement.RawSql?
  {
    assert o in front + [o];
  }

  lemma PlanPatchOneMore(es: Entities, p: Patch, i: nat, before: Plan, ops: seq<PlannedOp>, raw: bool, was: Schema,
                         st: Statement, now: Schema)
    requires i < |p.operations| && Step(es, p.app, p.phase, p.operations[i], was) == Ok((st, now))
    requires PlanPatch(es, p, i, before) == Ok(Plan(before.operations + ops, was, before.unsimulated || raw))
    ensures PlanPatch(es, p, i + 1, before)
         == Ok(Plan(before.operations + (ops + [PlannedOp(p.app, p.id, p.phase, p.checksum, i, st)]), now,
                    before.unsimulated || (raw || st.RawSql?)))
  {
    var planned := PlannedOp(p.app, p.id, p.phase, p.checksum, i, st);
    assert before.operations + (ops + [planned]) == before.operations + ops + [planned];
  }

  lemma {:induction false} PlanPatchFails(es: Entities, p: Patch, k: nat, before: Plan)
    requires k <= |p.operations| && PlanPatch(es, p, k, before).Err?
    ensures PlanPatch(es, p, |p.operations|, before) == PlanPatch(es, p, k, before)
    decreases |p.operations| - k
  {
    if k < |p.operations| { PlanPatchFails(es, p, k + 1, before); }
  }

  lemma {:induction false} PlanFromFails(es: Entities, ps: seq<Patch>, k: nat, before: Plan)
    requires k <= |ps| && PlanFrom(es, ps[..k], before).Err?
    ensures PlanFrom(es, ps, before) == PlanFrom(es, ps[..k], before)
    decreases |ps| - k
  {
    if k < |ps| {
      assert ps[..k + 1][..k] == ps[..k];
      PlanFromFails(es, ps, k + 1, before);
    } else {
      assert ps[..k] == ps;
    }
  }

  method PlanPatches(planner: Planner, ps: seq<Patch>)
      returns (operations: seq<PlannedOp>, unsimulated: bool, failed: Option<PlanError>)
    requires planner.Valid()
    modifies planner`live, Cells(planner.live)
    ensures planner.Valid() && Cells(planner.live) == old(Cells(planner.live))
    ensures var plan := PlanAll(planner.entities, ps, old(Value(planner.live)));
      match failed
      case None => plan == Ok(Plan(operations, Value(planner.live), unsimulated))
      case Some(e) => plan == Err(e)
  {
    operations, unsimulated, failed := [], false, None;
    ghost var start := Plan([], Value(planner.live), false);
    for i := 0 to |ps|
      invariant planner.Valid() && Cells(planner.live) == old(Cells(planner.live)) && failed.None?
      invariant PlanFrom(planner.entities, ps[..i], start) == Ok(Plan(operations, Value(planner.live), unsimulated))
    {
      assert ps[..i + 1][..i] == ps[..i] && ps[..i + 1][i] == ps[i];
      ghost var before := Plan(operations, Value(planner.live), unsimulated);
      var ops, raw;
      ops, raw, failed := PlanOnePatch(planner, ps[i], before);
      if failed.Some? {
        assert PlanFrom(planner.entities, ps[..i + 1], start) == Err(failed.value);
        PlanFromFails(planner.entities, ps, i + 1, start);
        return;
      }
      operations, unsimulated := operations + ops, unsimulated || raw;
    }
    assert ps[..|ps|] == ps;
  }

  method PlanOnCopy(es: Entities, ps: seq<Patch>, live: LiveSchema, ghost given: Schema)
      returns (r: Result<LivePlan, PlanError>)
    requires given == Value(live)
    ensures r.Ok? ==> fresh(Cells(r.value.after))
    ensures PlanAll(es, ps, given) ==
      if r.Err? then Err(r.error) else Ok(Plan(r.value.operations, Value(r.value.after), r.value.unsimulated))
  {
    var planner := new Planner(es, live);
    assert Value(planner.live) == given;
    var operations, unsimulated, failed := PlanPatches(planner, ps);
    if failed.Some? { return Err(failed.value); }
    ghost var planned := Value(planner.live);
    assert PlanAll(es, ps, given) == Ok(Plan(operations, planned, unsimulated));
    var after := CloneLiveSchema(planner.live);
    assert Value(after) == planned;
    return Ok(LivePlan(operations, after, unsimulated));
  }

  datatype BuildError = BadMetadata(problem: Problem) | BadOperation(error: PlanError)

  /** Planning fails with this error: on an identity that occurs twice, or on the first operation that cannot be planned. */
  predicate FailsAs(e: BuildError, es: seq<Entity>, ps: seq<Patch>, s: Schema) {
    match e
    case BadMetadata(_) => !DistinctEntities(es)
    case BadOperation(error) => DistinctEntities(es) && PlanAll(ByIdentity(es), ps, s) == Err(error)
  }

  /**
    The plan of all patches. The live schema it is given is read, copied and left
    as it was: nothing but new objects is written.
   */
  method BuildPatchOperationPlan(ps: seq<Patch>, es: seq<Entity>, live: LiveSchema) returns (r: Result<LivePlan, BuildError>)
    ensures r.Ok? ==> DistinctEntities(es) && fresh(Cells(r.value.after))
    ensures r.Ok? ==>
      PlanAll(ByIdentity(es), ps, Value(live)) == Ok(Plan(r.value.operations, Value(r.value.after), r.value.unsimulated))
    ensures r.Err? ==> FailsAs(r.error, es, ps, Value(live))
  {
    var index := IndexEntities(es);
    if index.Err? { return Err(BadMetadata(index.error)); }
    ghost var given := Value(live);
    var plan := PlanOnCopy(index.value, ps, live, given);
    assert Value(live) == given;
    return if plan.Err? then Err(BadOperation(plan.error)) else Ok(plan.value);
  }

  // ----- Exact simulation

  /** The same tables with the same columns, whatever their indexes and constraints. */
  ghost predicate SameColumns(a: Schema, b: Schema) {
    && a.Keys == b.Keys
    && forall n :: n in a ==> a[n].columns == b[n].columns && a[n].rows == b[n].rows
  }

  /** The entity an operation of the app is about, with its table. */
  function Target(es: Entities, app: string, name: string): Option<(Entity, string)> {
    if (app, name) in es then Some((es[(app, name)], TableName(es[(app, name)].app, es[(app, name)].name))) else None
  }

  function LiveField(es: Entities, app: string, entity: string, field: string, s: Schema): Option<string> {
    var e := Target(es, app, entity);
    if e.None? then None
    else
      var c := PatchColumn(s, e.value.0, e.value.1, field);
      if c.Ok? then Some(c.value) else None
  }

  function MetaFieldOf(es: Entities, app: string, entity: string, field: string): Option<(string, MetaField)> {
    var e := Target(es, app, entity);
    if e.None? then None
    else
      var c := MetadataColumn(e.value.0, field);
      if c.Ok? then Some(c.value) else None
  }

  /** What an operation asks for once its names are looked up, whether or not the live schema allows it. */
  function Intended(es: Entities, app: string, op: Operation, s: Schema): Option<Statement> {
    match op
    case RenameField(entity, from, to) =>
      var e, f, t := Target(es, app, entity), LiveField(es, app, entity, from, s), MetaFieldOf(es, app, entity, to);
      if f.Some? && t.Some? then Some(RenameColumn(e.value.1, f.value, t.value.0)) else None
    case RenameEntity(from, to) =>
      var e := Target(es, app, to);
      if e.Some? then Some(RenameTable(TableName(app, from), e.value.1)) else None
    case CopyField(entity, from, to, whenNull) =>
      var e, f, t := Target(es, app, entity), LiveField(es, app, entity, from, s), MetaFieldOf(es, app, entity, to);
      if f.Some? && t.Some? then Some(CopyColumn(e.value.1, f.value, t.value.0, whenNull)) else None
    case BackfillField(entity, field, v, whenNull) =>
      var e, c := Target(es, app, entity), MetaFieldOf(es, app, entity, field);
      if c.Some? then Some(Backfill(e.value.1, c.value.0, v, whenNull)) else None
    case DropField(entity, field) =>
      var e, c := Target(es, app, entity), LiveField(es, app, entity, field, s);
      if c.Some? then Some(RemoveColumn(e.value.1, c.value)) else None
    case ChangeFieldType(entity, field, to, using) =>
      var e, c := Target(es, app, entity), MetaFieldOf(es, app, entity, field);
      if c.Some? && c.value.1.ty == to && c.value.1.sqlType.Some?
      then Some(ChangeType(e.value.1, c.value.0, c.value.1.sqlType.value, using)) else None
    case _ => None
  }

  /** Statements that would take a system column away. */
  predicate TakesSystemColumn(st: Statement) {
    (st.RenameColumn? || st.RemoveColumn?) &&
    var column := if st.RenameColumn? then st.from else st.column;
    column == "id" || column == "name" || column == "created_at" || column == "updated_at" || column == "owner_id"
  }

  predicate ChangesSchema(op: Operation) {
    !op.RunSql? && !op.SystemRecord? && !op.Unsupported?
  }

  ghost predicate AcceptedExactly(es: Entities, app: string, phase: Phase, op: Operation, s: Schema) {
    var r, st := Step(es, app, phase, op, s), Intended(es, app, op, s);
    && (r.Ok? <==> st.Some? && !TakesSystemColumn(st.value) && ExecStatement(st.value, s).Some?)
    && (r.Ok? ==> r.value.0 == st.value)
  }

  lemma RenamesAcceptedIff(es: Entities, app: string, phase: Phase, op: Operation, s: Schema)
    requires op.RenameField? || op.RenameEntity?
    ensures AcceptedExactly(es, app, phase, op, s)
  {
  }

  lemma FieldUpdatesAcceptedIff(es: Entities, app: string, phase: Phase, op: Operation, s: Schema)
    requires op.CopyField? || op.BackfillField?
    ensures AcceptedExactly(es, app, phase, op, s)
  {
  }

  lemma FieldChangesAcceptedIff(es: Entities, app: string, phase: Phase, op: Operation, s: Schema)
    requires op.DropField? || op.ChangeFieldType?
    ensures AcceptedExactly(es, app, phase, op, s)
  {
  }

  /**
    The planner accepts an operation exactly when its names resolve, the statement
    would run on the live schema, and no system column is renamed or dropped.
   */
  lemma AcceptedIffExecutable(es: Entities, app: string, phase: Phase, op: Operation, s: Schema)
    requires ChangesSchema(op)
    ensures var r, st := Step(es, app, phase, op, s), Intended(es, app, op, s);
      && (r.Ok? <==> st.Some? && !TakesSystemColumn(st.value) && ExecStatement(st.value, s).Some?)
      && (r.Ok? ==> r.value.0 == st.value)
  {
    if op.RenameField? || op.RenameEntity? {
      RenamesAcceptedIff(es, app, phase, op, s);
    } else if op.CopyField? || op.BackfillField? {
      FieldUpdatesAcceptedIff(es, app, phase, op, s);
    } else {
      FieldChangesAcceptedIff(es, app, phase, op, s);
    }
    assert AcceptedExactly(es, app, phase, op, s);
  }

  /**
    The other operations leave the schema alone. A Record is written only after the
    sync, and only into a loaded system Entity of a named app; everything else is
    refused, with what the operation named.
   */
  lemma OtherStepExact(es: Entities, app: string, phase: Phase, op: Operation, s: Schema)
    requires !ChangesSchema(op)
    ensures var r := Step(es, app, phase, op, s); r.Ok? ==> r.value.1 == s
    ensures op.RunSql? ==>
      Step(es, app, phase, op, s) == if op.refused then Err(SqlRefused(op.name)) else Ok((RawSql(op.statement), s))
    ensures op.SystemRecord? ==>
      var r := Step(es, app, phase, op, s);
      var loaded := (app, op.entity) in es;
      && (r == Ok((WriteRecord(op.entity), s)) <==>
           phase == PostSync && !Blank(app) && loaded && es[(app, op.entity)].isSystem)
      && (r == Err(EntityNotLoaded(op.entity)) <==> phase == PostSync && !loaded)
      && (r.Ok? || r.error in {EntityNotLoaded(op.entity), RecordRefused(op.entity)})
    ensures op.Unsupported? ==> Step(es, app, phase, op, s) == Err(UnsupportedOperation(op.ty))
  {
  }

  /** The statement runs on t and leaves the tables and columns of the planned schema. */
  ghost predicate RunsAsPlanned(step: (Statement, Schema), t: Schema) {
    !step.0.RawSql? ==> ExecStatement(step.0, t).Some? && SameColumns(step.1, ExecStatement(step.0, t).value)
  }

  lemma RenameFieldRuns(es: Entities, app: string, op: Operation, s: Schema, t: Schema)
    requires op.RenameField? && StepRenameField(es, app, op, s).Ok? && SameColumns(s, t)
    ensures RunsAsPlanned(StepRenameField(es, app, op, s).value, t)
  {
  }

  lemma RenameEntityRuns(es: Entities, app: string, op: Operation, s: Schema, t: Schema)
    requires op.RenameEntity? && StepRenameEntity(es, app, op, s).Ok? && SameColumns(s, t)
    ensures RunsAsPlanned(StepRenameEntity(es, app, op, s).value, t)
  {
    var step := StepRenameEntity(es, app, op, s).value;
    var from, to := step.0.from, step.0.to;
    assert t.Keys - {from} + {to} == step.1.Keys;
  }

  lemma UpdatesRun(es: Entities, app: string, op: Operation, s: Schema, t: Schema)
    requires SameColumns(s, t)
    ensures op.CopyField? && StepCopyField(es, app, op, s).Ok? ==> RunsAsPlanned(StepCopyField(es, app, op, s).value, t)
    ensures op.BackfillField? && StepBackfillField(es, app, op, s).Ok?
        ==> RunsAsPlanned(StepBackfillField(es, app, op, s).value, t)
  {
  }

  lemma DropFieldRuns(es: Entities, app: string, op: Operation, s: Schema, t: Schema)
    requires op.DropField? && StepDropField(es, app, op, s).Ok? && SameColumns(s, t)
    ensures RunsAsPlanned(StepDropField(es, app, op, s).value, t)
  {
  }

  lemma ChangeFieldTypeRuns(es: Entities, app: string, op: Operation, s: Schema, t: Schema)
    requires op.ChangeFieldType? && StepChangeFieldType(es, app, op, s).Ok? && SameColumns(s, t)
    ensures RunsAsPlanned(StepChangeFieldType(es, app, op, s).value, t)
  {
  }

  /** One accepted operation: its statement runs on the database and changes tables and columns as planned. */
  lemma StepSimulates(es: Entities, app: string, phase: Phase, op: Operation, s: Schema, t: Schema)
    requires Step(es, app, phase, op, s).Ok? && SameColumns(s, t)
    ensures RunsAsPlanned(Step(es, app, phase, op, s).value, t)
  {
    match op
    case RenameField(_, _, _) => RenameFieldRuns(es, app, op, s, t);
    case RenameEntity(_, _) => RenameEntityRuns(es, app, op, s, t);
    case CopyField(_, _, _, _) => UpdatesRun(es, app, op, s, t);
    case BackfillField(_, _, _, _) => UpdatesRun(es, app, op, s, t);
    case DropField(_, _) => DropFieldRuns(es, app, op, s, t);
    case ChangeFieldType(_, _, _, _) => ChangeFieldTypeRuns(es, app, op, s, t);
    case _ =>
  }

  lemma {:induction false} ExecStatementsSplit(a: seq<PlannedOp>, b: seq<PlannedOp>, s: Schema)
    requires !HasRawSql(a + b)
    ensures !HasRawSql(a) && !HasRawSql(b)
    ensures ExecStatements(a + b, s)
         == (var m := ExecStatements(a, s); if m.None? then None else ExecStatements(b, m.value))
  {
    assert forall o :: o in a ==> o in a + b;
    assert forall o :: o in b ==> o in a + b;
    if b == [] {
      assert a + b == a;
    } else {
      assert (a + b)[..|a + b| - 1] == a + b[..|b| - 1];
      assert forall o :: o in a + b[..|b| - 1] ==> o in a + b;
      ExecStatementsSplit(a, b[..|b| - 1], s);
    }
  }

  /** A plan so far is faithful: what it planned runs, and leaves the tables and columns it predicts. */
  ghost predicate Faithful(plan: Plan, s: Schema) {
    && (plan.unsimulated <==> HasRawSql(plan.operations))
    && (!plan.unsimulated ==>
          ExecStatements(plan.operations, s).Some?
          && SameColumns(plan.after, ExecStatements(plan.operations, s).value))
  }

  lemma FaithfulStep(before: Plan, o: PlannedOp, after: Schema, s: Schema)
    requires Faithful(before, s)
    requires forall t :: SameColumns(before.after, t) ==> RunsAsPlanned((o.statement, after), t)
    ensures Faithful(Plan(before.operations + [o], after, before.unsimulated || o.statement.RawSql?), s)
  {
    var ops := before.operations + [o];
    HasRawSqlGrows(before.operations, o);
    if !before.unsimulated && !o.statement.RawSql? {
      assert !HasRawSql(ops);
      assert ops[..|ops| - 1] == before.operations;
      assert RunsAsPlanned((o.statement, after), ExecStatements(before.operations, s).value);
    }
  }

  lemma {:induction false} PatchIsFaithful(es: Entities, p: Patch, k: nat, before: Plan, s: Schema)
    requires k <= |p.operations| && PlanPatch(es, p, k, before).Ok? && Faithful(before, s)
    ensures Faithful(PlanPatch(es, p, k, before).value, s)
  {
    if k > 0 {
      PatchIsFaithful(es, p, k - 1, before, s);
      var front := PlanPatch(es, p, k - 1, before).value;
      var step := Step(es, p.app, p.phase, p.operations[k - 1], front.after).value;
      forall t | SameColumns(front.after, t) ensures RunsAsPlanned(step, t) {
        StepSimulates(es, p.app, p.phase, p.operations[k - 1], front.after, t);
      }
      FaithfulStep(front, PlannedOp(p.app, p.id, p.phase, p.checksum, k - 1, step.0), step.1, s);
    }
  }

  lemma {:induction false} PatchesAreFaithful(es: Entities, ps: seq<Patch>, before: Plan, s: Schema)
    requires PlanFrom(es, ps, before).Ok? && Faithful(before, s)
    ensures Faithful(PlanFrom(es, ps, before).value, s)
  {
    if ps != [] {
      var front, p := ps[..|ps| - 1], ps[|ps| - 1];
      PatchesAreFaithful(es, front, before, s);
      PatchIsFaithful(es, p, |p.operations|, PlanFrom(es, front, before).value, s);
    }
  }

  /**
    Without raw SQL the plan is an exact simulation on tables and columns: every
    statement finds what it needs when its turn comes, and the schema the plan
    predicts is the one the database ends with. Raw SQL is reported.
   */
  lemma PlanSimulatesExecution(es: Entities, ps: seq<Patch>, s: Schema)
    requires PlanAll(es, ps, s).Ok?
    ensures var plan := PlanAll(es, ps, s).value;
      && (plan.unsimulated <==> HasRawSql(plan.operations))
      && (!plan.unsimulated ==>
            ExecStatements(plan.operations, s).Some?
            && SameColumns(plan.after, ExecStatements(plan.operations, s).value))
  {
    assert Faithful(Plan([], s, false), s);
    PatchesAreFaithful(es, ps, Plan([], s, false), s);
  }

  // ----- Planning in sequence

  /** The plan b makes from where a ends, put after a. */
  function Then(a: Result<Plan, PlanError>, b: Result<Plan, PlanError>): Result<Plan, PlanError>
    requires a.Ok?
  {
    if b.Err? then b
    else Ok(Plan(a.value.operations + b.value.operations, b.value.after, a.value.unsimulated || b.value.unsimulated))
  }

  lemma {:induction false} PatchFromAnyStart(es: Entities, p: Patch, k: nat, a: Plan, b: Plan)
    requires k <= |p.operations| && a.after == b.after && b.operations == [] && !b.unsimulated
    ensures PlanPatch(es, p, k, a) == Then(Ok(a), PlanPatch(es, p, k, b))
  {
    if k == 0 {
      assert a.operations + [] == a.operations;
    } else {
      PatchFromAnyStart(es, p, k - 1, a, b);
      if PlanPatch(es, p, k, b).Ok? {
        var front, all := PlanPatch(es, p, k - 1, b).value, PlanPatch(es, p, k, b).value;
        var last := [all.operations[|all.operations| - 1]];
        assert a.operations + (front.operations + last) == a.operations + front.operations + last;
      }
    }
  }

  lemma ThenAssociates(a: Plan, b: Plan, c: Result<Plan, PlanError>)
    ensures Then(Then(Ok(a), Ok(b)), c) == Then(Ok(a), Then(Ok(b), c))
  {
    if c.Ok? {
      assert a.operations + b.operations + c.value.operations == a.operations + (b.operations + c.value.operations);
    }
  }

  lemma {:induction false} PlanFromAnyStart(es: Entities, ps: seq<Patch>, a: Plan)
    ensures PlanFrom(es, ps, a) == Then(Ok(a), PlanAll(es, ps, a.after))
  {
    if ps == [] {
      assert a.operations + [] == a.operations;
    } else {
      var front, p := ps[..|ps| - 1], ps[|ps| - 1];
      PlanFromAnyStart(es, front, a);
      var b := PlanAll(es, front, a.after);
      if b.Ok? {
        var m, empty := PlanFrom(es, front, a).value, Plan([], b.value.after, false);
        PatchFromAnyStart(es, p, |p.operations|, m, empty);
        PatchFromAnyStart(es, p, |p.operations|, b.value, empty);
        ThenAssociates(a, b.value, PlanPatch(es, p, |p.operations|, empty));
      }
    }
  }

  lemma {:induction false} PlanFromSplits(es: Entities, a: seq<Patch>, b: seq<Patch>, start: Plan)
    ensures var m := PlanFrom(es, a, start);
      PlanFrom(es, a + b, start) == if m.Err? then m else PlanFrom(es, b, m.value)
  {
    if b == [] {
      assert a + b == a;
    } else {
      PlanFromSplits(es, a, b[..|b| - 1], start);
      assert (a + b)[..|a + b| - 1] == a + b[..|b| - 1];
    }
  }

  /** Planning a and b together is planning a, then b from the schema a predicts. */
  lemma PlanningConcatenates(es: Entities, a: seq<Patch>, b: seq<Patch>, s: Schema)
    ensures var m := PlanAll(es, a, s);
      PlanAll(es, a + b, s) == if m.Err? then m else Then(m, PlanAll(es, b, m.value.after))
  {
    PlanFromSplits(es, a, b, Plan([], s, false));
    if PlanAll(es, a, s).Ok? { PlanFromAnyStart(es, b, PlanAll(es, a, s).value); }
  }

  // ----- Indexes and constraints

  predicate Mentioned(t: Table, column: string) {
    || (exists n :: n in t.indexes && column in t.indexes[n].columns)
    || (exists n :: n in t.constraints && column in t.constraints[n].columns)
  }

  predicate Targeted(s: Schema, table: string) {
    exists m :: m in s && TargetedBy(s[m], table)
  }

  predicate TargetedBy(t: Table, table: string) {
    exists n :: n in t.constraints && t.constraints[n].kind.ForeignKey? && t.constraints[n].body == table
  }

  /** The statement moves something the simulation does not follow. */
  predicate MovesMore(st: Statement, s: Schema) {
    match st
    case RenameColumn(t, from, _) => t in s && Mentioned(s[t], from)
    case RenameTable(from, _) => Targeted(s, from)
    case RemoveColumn(t, c) => t in s && Mentioned(s[t], c)
    case _ => false
  }

  lemma RenamedSame(columns: seq<string>, from: string, to: string)
    requires from != to
    ensures Renamed(columns, from, to) == columns <==> from !in columns
  {
    if from in columns {
      var i :| 0 <= i < |columns| && columns[i] == from;
      assert Renamed(columns, from, to)[i] == to;
    }
  }

  lemma ColumnRenameExact(t: Table, from: string, to: string)
    requires from in t.columns && to !in t.columns
    ensures ColumnRenamed(t, from, to) == t.(columns := (t.columns - {from})[to := t.columns[from]]) <==> !Mentioned(t, from)
  {
    var u := ColumnRenamed(t, from, to);
    forall n | n in t.indexes ensures u.indexes[n] == t.indexes[n] <==> from !in t.indexes[n].columns {
      RenamedSame(t.indexes[n].columns, from, to);
    }
    forall n | n in t.constraints ensures u.constraints[n] == t.constraints[n] <==> from !in t.constraints[n].columns {
      RenamedSame(t.constraints[n].columns, from, to);
    }
    if !Mentioned(t, from) {
      assert u.indexes == t.indexes && u.constraints == t.constraints;
    }
  }

  lemma ColumnDropExact(t: Table, c: string)
    ensures Changed(DropColumn("", c), t) == t.(columns := t.columns - {c}) <==> !Mentioned(t, c)
  {
    var u := Changed(DropColumn("", c), t);
    forall n | n in t.indexes ensures n in u.indexes <==> c !in t.indexes[n].columns { }
    forall n | n in t.constraints ensures n in u.constraints <==> c !in t.constraints[n].columns { }
    if !Mentioned(t, c) {
      assert u.indexes == t.indexes && u.constraints == t.constraints;
    }
  }

  lemma RetargetExact(t: Table, from: string, to: string)
    requires from != to
    ensures Retargeted(t, from, to) == t <==> !TargetedBy(t, from)
  {
    var u := Retargeted(t, from, to);
    if !TargetedBy(t, from) { assert u.constraints == t.constraints; }
  }

  lemma TableRenameExact(s: Schema, from: string, to: string)
    requires from in s && to !in s
    ensures ExecStatement(RenameTable(from, to), s).value == (s - {from})[to := s[from]] <==> !Targeted(s, from)
  {
    var u, v := ExecStatement(RenameTable(from, to), s).value, (s - {from})[to := s[from]];
    forall m | m in s ensures u[if m == from then to else m] == v[if m == from then to else m] <==> !TargetedBy(s[m], from) {
      RetargetExact(s[m], from, to);
    }
    assert u.Keys == v.Keys;
    if !Targeted(s, from) {
      forall n | n in u ensures u[n] == v[n] {
        var m := if n == to then from else n;
        assert m in s && !TargetedBy(s[m], from);
      }
    }
  }

  ghost predicate ExactUnlessMore(step: (Statement, Schema), s: Schema) {
    !step.0.RawSql? ==>
      && ExecStatement(step.0, s).Some?
      && (ExecStatement(step.0, s).value == step.1 <==> !MovesMore(step.0, s))
  }

  lemma RenameFieldExact(es: Entities, app: string, op: Operation, s: Schema)
    requires op.RenameField? && StepRenameField(es, app, op, s).Ok?
    ensures ExactUnlessMore(StepRenameField(es, app, op, s).value, s)
  {
    var step := StepRenameField(es, app, op, s).value;
    var t := step.0.table;
    ColumnRenameExact(s[t], step.0.from, step.0.to);
    assert step.1[t] == s[t].(columns := (s[t].columns - {step.0.from})[step.0.to := s[t].columns[step.0.from]]);
    assert step.1 == s[t := step.1[t]];
  }

  lemma DropFieldExact(es: Entities, app: string, op: Operation, s: Schema)
    requires op.DropField? && StepDropField(es, app, op, s).Ok?
    ensures ExactUnlessMore(StepDropField(es, app, op, s).value, s)
  {
    var step := StepDropField(es, app, op, s).value;
    ColumnDropExact(s[step.0.table], step.0.column);
    assert step.1 == s[step.0.table := step.1[step.0.table]];
  }

  lemma RenameEntityExact(es: Entities, app: string, op: Operation, s: Schema)
    requires op.RenameEntity? && StepRenameEntity(es, app, op, s).Ok?
    ensures ExactUnlessMore(StepRenameEntity(es, app, op, s).value, s)
  {
    var step := StepRenameEntity(es, app, op, s).value;
    TableRenameExact(s, step.0.from, step.0.to);
  }

  lemma OtherStepsExact(es: Entities, app: string, op: Operation, s: Schema)
    ensures op.CopyField? && StepCopyField(es, app, op, s).Ok? ==> ExactUnlessMore(StepCopyField(es, app, op, s).value, s)
    ensures op.BackfillField? && StepBackfillField(es, app, op, s).Ok?
        ==> ExactUnlessMore(StepBackfillField(es, app, op, s).value, s)
    ensures op.ChangeFieldType? && StepChangeFieldType(es, app, op, s).Ok?
        ==> ExactUnlessMore(StepChangeFieldType(es, app, op, s).value, s)
  {
  }

  /**
    The planner's schema is the database's, indexes and constraints included,
    exactly when the statement touches no column or table that they mention.
   */
  lemma StepExactIff(es: Entities, app: string, phase: Phase, op: Operation, s: Schema)
    requires Step(es, app, phase, op, s).Ok?
    ensures ExactUnlessMore(Step(es, app, phase, op, s).value, s)
  {
    match op
    case RenameField(_, _, _) => RenameFieldExact(es, app, op, s);
    case RenameEntity(_, _) => RenameEntityExact(es, app, op, s);
    case DropField(_, _) => DropFieldExact(es, app, op, s);
    case CopyField(_, _, _, _) => OtherStepsExact(es, app, op, s);
    case BackfillField(_, _, _, _) => OtherStepsExact(es, app, op, s);
    case ChangeFieldType(_, _, _, _) => OtherStepsExact(es, app, op, s);
    case _ =>
  }

  /** The table of an entity, with one column and a live index over it. */
  function Indexed(column: string, index: string): Table {
    Table(NonEmpty, map[column := Column("text", true, false, "")], map[index := Index([column], false)], map[])
  }

  /**
    Dropping an indexed field that left metadata: the database drops the index too,
    the planner keeps it, and so refuses nothing and predicts too much.
   */
  lemma DroppedFieldKeepsIndex(e: Entity, field: string, index: string)
    requires e.fields == [] && StorageName(field) !in SYSTEM_COLUMNS
    ensures var table, column := TableName(e.app, e.name), StorageName(field);
      var s := map[table := Indexed(column, index)];
      var r := Step(map[(e.app, e.name) := e], e.app, PreSync, DropField(e.name, field), s);
      && r.Ok? && ExecStatement(r.value.0, s).Some?
      && index in r.value.1[table].indexes && index !in ExecStatement(r.value.0, s).value[table].indexes
  {
    var table, column := TableName(e.app, e.name), StorageName(field);
    var s, es := map[table := Indexed(column, index)], map[(e.app, e.name) := e];
    InferredIffOnly(s, table, field, column);
    assert InferColumn(s, table, field) == Ok(column);
    assert s[table].indexes[index].columns == [column];
    var r := StepDropField(es, e.app, DropField(e.name, field), s);
    assert r.Ok? && r.value.0 == RemoveColumn(table, column);
  }
}
