/**
  What the database keeps true of a schema, and that its statements are the ones
  that keep it so.
 */
module SchemaSound {
  import opened Wrappers
  import opened SchemaModel
  import opened SchemaPlan
  import opened SchemaSync
  import opened SchemaDrops
  import opened SchemaPrune
  import opened SchemaFindings
  import opened SortedNames

  predicate Has(t: Table, columns: seq<string>) {
    forall i :: 0 <= i < |columns| ==> columns[i] in t.columns
  }

  predicate SoundConstraint(t: Table, tables: set<string>, n: string)
    requires n in t.constraints
  {
    var c := t.constraints[n];
    && Has(t, c.columns)
    && (c.kind in {PrimaryKey, Unique, Exclusion} ==> n in t.indexes && t.indexes[n] == Index(c.columns, true))
    && (c.kind == ForeignKey ==> c.body in tables)
  }

  /**
    Indexes and constraints are over columns of the table, a constraint that needs
    an index has it, and foreign keys refer to tables.
   */
  ghost predicate SoundTable(t: Table, tables: set<string>) {
    && (forall n :: n in t.indexes ==> Has(t, t.indexes[n].columns))
    && (forall n :: n in t.constraints ==> SoundConstraint(t, tables, n))
  }

  ghost predicate Sound(s: Schema) {
    forall n :: n in s ==> SoundTable(s[n], s.Keys)
  }

  // ----- One statement

  /** A column comes where there is none of the name and no row would be left without a value. */
  lemma AddColumnIff(op: Op, t: Table, tables: set<string>)
    requires op.AddColumn? && SoundTable(t, tables)
    ensures var c := Changed(op, t).columns[op.column.name];
      Allowed(op, t, tables) <==> op.column.name !in t.columns && (t.rows == Empty || c.nullable || c.hasDefault)
    ensures Allowed(op, t, tables) ==> SoundTable(Changed(op, t), tables)
  {
    var u := Changed(op, t);
    assert forall columns: seq<string> :: Has(t, columns) ==> Has(u, columns);
    forall n | n in u.constraints ensures SoundConstraint(u, tables, n) { assert SoundConstraint(t, tables, n); }
  }

  /** An index or a constraint comes when its name is free and the table is sound with it. */
  lemma NewObjectIff(op: Op, t: Table, tables: set<string>)
    requires (op.CreateIndex? || op.AddConstraint?) && SoundTable(t, tables)
    ensures op.CreateIndex? ==>
      (Allowed(op, t, tables) <==> op.name !in t.indexes && SoundTable(Changed(op, t), tables))
    ensures op.AddConstraint? ==>
      (Allowed(op, t, tables) <==>
        && op.name !in t.constraints && (op.definition.kind in {PrimaryKey, Unique, Exclusion} ==> op.name !in t.indexes)
        && SoundTable(Changed(op, t), tables))
  {
    var u := Changed(op, t);
    assert forall columns: seq<string> :: HasColumns(t, columns) <==> Has(t, columns);
    assert forall columns: seq<string> :: Has(t, columns) <==> Has(u, columns);
    forall n | n in t.constraints && (op.AddConstraint? ==> n != op.name)
      ensures n in u.constraints && (Allowed(op, t, tables) ==> SoundConstraint(u, tables, n))
    {
      assert SoundConstraint(t, tables, n);
    }
    if SoundTable(u, tables) {
      if op.CreateIndex? { assert u.indexes[op.name].columns == op.columns; } else { assert SoundConstraint(u, tables, op.name); }
    }
  }

  /** It comes alone, but for the index that a constraint needs. */
  lemma NewObjectComesAlone(op: Op, t: Table, tables: set<string>, n: string)
    requires (op.CreateIndex? || op.AddConstraint?) && Allowed(op, t, tables)
    ensures var u := Changed(op, t);
      && u.columns == t.columns && u.rows == t.rows
      && (n in t.indexes ==> n in u.indexes && u.indexes[n] == t.indexes[n])
      && (n in t.constraints ==> n in u.constraints && u.constraints[n] == t.constraints[n])
      && (n in u.indexes && n !in t.indexes <==>
            n == op.name && (op.CreateIndex? || op.definition.kind in {PrimaryKey, Unique, Exclusion}))
      && (n in u.constraints && n !in t.constraints <==> n == op.name && op.AddConstraint?)
  {
  }

  /** An index goes when the table is sound without it; constraints and columns go when they are there. */
  lemma DropIff(op: Op, t: Table, tables: set<string>)
    requires (op.DropIndex? || op.DropConstraint? || op.DropColumn?) && SoundTable(t, tables)
    ensures op.DropIndex? ==> (Allowed(op, t, tables) <==> op.name in t.indexes && SoundTable(Changed(op, t), tables))
    ensures op.DropConstraint? ==> (Allowed(op, t, tables) <==> op.name in t.constraints)
    ensures op.DropColumn? ==> (Allowed(op, t, tables) <==> op.name in t.columns)
    ensures Allowed(op, t, tables) ==> SoundTable(Changed(op, t), tables)
  {
    var u := Changed(op, t);
    forall n | n in u.constraints && Allowed(op, t, tables) ensures SoundConstraint(u, tables, n) {
      assert SoundConstraint(t, tables, n);
      assert u.constraints[n] == t.constraints[n];
    }
    if op.DropIndex? && op.name in t.constraints && SoundTable(u, tables) { assert SoundConstraint(u, tables, op.name); }
  }

  /**
    What goes along: with a constraint the index it needs, with a column the indexes
    and constraints over it, and nothing else.
   */
  lemma DropTakesAlong(op: Op, t: Table, tables: set<string>, n: string)
    requires (op.DropConstraint? || op.DropColumn?) && SoundTable(t, tables) && Allowed(op, t, tables)
    ensures var u := Changed(op, t);
      && (op.DropColumn? && n in t.indexes ==> (n in u.indexes <==> Has(u, t.indexes[n].columns)))
      && (op.DropColumn? && n in t.constraints ==> (n in u.constraints <==> Has(u, t.constraints[n].columns)))
      && (op.DropConstraint? && n in t.constraints ==> (n in u.constraints <==> n != op.name))
      && (op.DropConstraint? && n in t.indexes ==>
            (n !in u.indexes <==> n == op.name && t.constraints[n].kind in {PrimaryKey, Unique, Exclusion}))
      && u.columns == if op.DropColumn? then t.columns - {op.name} else t.columns
  {
    if n in t.constraints { assert SoundConstraint(t, tables, n); }
  }

  /** A new table has its system columns, of which the timestamps alone have a default. */
  lemma NewTableExact(name: string, system: seq<DesiredColumn>, c: DesiredColumn)
    requires DistinctColumns(system) && c in system
    ensures var timestamp := c.name == "created_at" || c.name == "updated_at";
      && c.name in NewTable(name, system).columns
      && NewTable(name, system).columns[c.name] == Column(c.ty, !c.required, timestamp, if timestamp then "now()" else "")
  {
    SystemColumnsExact(system);
  }

  // ----- Whole schemas

  /** A table can be dropped exactly when the schema is sound without it. */
  lemma DropTableIff(s: Schema, name: string)
    requires Sound(s) && name in s
    ensures Exec(DropTable(name), s).Some? <==> Sound(s - {name})
  {
    var left := s - {name};
    if Exec(DropTable(name), s).Some? {
      forall m | m in left ensures SoundTable(left[m], left.Keys) {
        forall n | n in left[m].constraints ensures SoundConstraint(left[m], left.Keys, n) {
          assert SoundConstraint(s[m], s.Keys, n);
          assert !RefersTo(s[m], name);
        }
      }
    } else {
      var m :| m in s && m != name && RefersTo(s[m], name);
      var n :| n in s[m].constraints && s[m].constraints[n].kind.ForeignKey? && s[m].constraints[n].body == name;
      assert m in left && !SoundConstraint(left[m], left.Keys, n);
    }
  }

  /** A statement is about one table; one that creates it runs exactly when there is none of the name. */
  lemma StatementIsLocal(op: Op, s: Schema, m: string)
    requires m in s
    ensures op.CreateTable? ==> (Exec(op, s).Some? <==> forall n :: n in s ==> n != op.table)
    ensures Exec(op, s).Some? && m != op.table ==> m in Exec(op, s).value && Exec(op, s).value[m] == s[m]
    ensures op.DropTable? && Exec(op, s).Some? ==> op.table !in Exec(op, s).value
  {
  }

  /** Every new table brings a column for its primary key. */
  predicate KeyedTables(ops: seq<Op>) {
    forall op :: op in ops && op.CreateTable? ==> "id" in SchemaModel.Names(op.system)
  }

  lemma CreateKeepsSound(op: Op, s: Schema)
    requires op.CreateTable? && Sound(s) && Exec(op, s).Some? && "id" in SchemaModel.Names(op.system)
    ensures Sound(Exec(op, s).value)
  {
    var s' := Exec(op, s).value;
    HasSystemColumn(op.system, "id");
    forall m | m in s' ensures SoundTable(s'[m], s'.Keys) {
      if m != op.table {
        forall n | n in s'[m].constraints ensures SoundConstraint(s'[m], s'.Keys, n) {
          assert SoundConstraint(s[m], s.Keys, n);
        }
      }
    }
  }

  lemma {:induction false} HasSystemColumn(system: seq<DesiredColumn>, name: string)
    requires name in SchemaModel.Names(system)
    ensures name in SystemColumns(system)
  {
    var front := system[..|system| - 1];
    var i :| 0 <= i < |system| && system[i].name == name;
    if i < |front| {
      assert front[i].name == name;
      HasSystemColumn(front, name);
    }
  }

  lemma ExecKeepsSound(op: Op, s: Schema)
    requires Sound(s) && Exec(op, s).Some? && KeyedTables([op])
    ensures Sound(Exec(op, s).value)
  {
    assert op in [op];
    if op.CreateTable? {
      CreateKeepsSound(op, s);
    } else if op.DropTable? {
      DropTableIff(s, op.table);
    } else {
      var t := s[op.table];
      if op.AddColumn? { AddColumnIff(op, t, s.Keys); }
      else if op.CreateIndex? || op.AddConstraint? { NewObjectIff(op, t, s.Keys); }
      else if op.SetDefault? { DefaultKeepsSound(op, t, s.Keys); }
      else { DropIff(op, t, s.Keys); }
      assert s[op.table := Changed(op, t)].Keys == s.Keys;
    }
  }

  lemma DefaultKeepsSound(op: Op, t: Table, tables: set<string>)
    requires op.SetDefault? && SoundTable(t, tables)
    ensures Allowed(op, t, tables) <==> op.name in t.columns
    ensures SoundTable(Changed(op, t), tables)
  {
    var u := Changed(op, t);
    assert u.columns.Keys == t.columns.Keys;
    assert forall columns: seq<string> :: Has(t, columns) ==> Has(u, columns);
    forall n | n in u.constraints ensures SoundConstraint(u, tables, n) { assert SoundConstraint(t, tables, n); }
  }

  lemma {:induction false} ExecAllKeepsSound(ops: seq<Op>, s: Schema)
    requires Sound(s) && ExecAll(ops, s).Some? && KeyedTables(ops)
    ensures Sound(ExecAll(ops, s).value)
  {
    if ops != [] {
      var front, op := ops[..|ops| - 1], ops[|ops| - 1];
      assert op in ops && forall o :: o in front ==> o in ops;
      ExecAllKeepsSound(front, s);
      ExecKeepsSound(op, ExecAll(front, s).value);
    }
  }

  lemma SyncTablesHaveKeys(desired: seq<DesiredTable>, live: Schema)
    requires forall d :: d in desired ==> "id" in SchemaModel.Names(d.system)
    ensures KeyedTables(PlanFor(desired, live).operations)
  {
    forall op | op in PlanFor(desired, live).operations && op.CreateTable? ensures "id" in SchemaModel.Names(op.system) {
      PlanContainsExactly(desired, live, op);
      var d :| d in desired && TablePlans(live, d, op);
      CreatesOnlyItself(live, d, op);
    }
  }

  /** Whatever a sync executes leaves a sound schema. */
  lemma SyncKeepsSound(desired: seq<DesiredTable>, live: Schema, s: Schema)
    requires forall d :: d in desired ==> "id" in SchemaModel.Names(d.system)
    requires Sound(live) && ExecAll(PlanFor(desired, live).operations, live) == Some(s)
    ensures Sound(s)
  {
    SyncTablesHaveKeys(desired, live);
    ExecAllKeepsSound(PlanFor(desired, live).operations, live);
  }

  lemma CreatesOnlyItself(live: Schema, d: DesiredTable, op: Op)
    requires TablePlans(live, d, op) && op.CreateTable?
    ensures op == CreateTable(d.name, d.system)
  {
  }

  lemma {:induction false} PrunePhaseOnlyDrops(p: PrunePhase, live: Schema, ds: seq<DesiredTable>)
    ensures forall op :: op in PrunePhaseOps(p, live, ds) ==> !op.CreateTable?
  {
    if ds != [] {
      PrunePhaseOnlyDrops(p, live, ds[..|ds| - 1]);
      PruneOpsOnTable(p, live, ds[|ds| - 1]);
    }
  }

  lemma PruneOnlyDrops(desired: seq<DesiredTable>, live: Schema)
    ensures KeyedTables(PruneFor(desired, live).operations)
  {
    var ds := Ordered(desired);
    var a, b, c := PrunePhaseOps(PruneConstraints, live, ds), PrunePhaseOps(PruneIndexes, live, ds),
      PrunePhaseOps(PruneColumns, live, ds);
    var gone := DropTables(Sorted(ExtraTableSet(desired, live)));
    PrunePhaseOnlyDrops(PruneConstraints, live, ds);
    PrunePhaseOnlyDrops(PruneIndexes, live, ds);
    PrunePhaseOnlyDrops(PruneColumns, live, ds);
    forall op: Op | op in a + b + c + gone ensures !op.CreateTable? {
      if op in gone { var i :| 0 <= i < |gone| && gone[i] == op; }
    }
    assert PruneFor(desired, live).operations == a + b + c + gone;
  }

  /** So does a prune. */
  lemma PruneKeepsSound(desired: seq<DesiredTable>, live: Schema, s: Schema)
    requires Sound(live) && ExecAll(PruneFor(desired, live).operations, live) == Some(s)
    ensures Sound(s)
  {
    PruneOnlyDrops(desired, live);
    ExecAllKeepsSound(PruneFor(desired, live).operations, live);
  }
}
