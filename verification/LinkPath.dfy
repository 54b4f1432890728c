/**
  Dotted link paths compiled to nested correlated subqueries, and what the
  subqueries evaluate to when aliases are reused.
 */
module LinkPath {
  import opened Wrappers
  import opened StorageNames

  // ----- Metadata

  /** A listable field; a link names its target, in the owner's app unless it says otherwise. */
  datatype Field = Field(column: string, isLink: bool, app: string, entity: string)

  datatype Layout = Layout(app: string, table: string, fields: map<string, Field>)

  type Layouts = map<(string, string), Layout>

  datatype PathError = FieldRequired | EmptySegment | FieldInvalid(name: string) | NotALink(name: string)
                     | TargetInvalid | LayoutMissing(app: string, entity: string)

  function TargetApp(l: Layout, f: Field): string {
    if Blank(f.app) then l.app else f.app
  }

  function TargetTable(l: Layout, f: Field): string {
    TableName(TargetApp(l, f), f.entity)
  }

  // ----- Expressions

  datatype Alias = Rec | Path(number: nat)

  /** Sub selects a value from the row of a table, under an alias, whose id equals a value. */
  datatype Expr =
    | Bare(column: string)
    | Col(source: Alias, column: string)
    | Sub(select: Expr, table: string, alias: Alias, id: Expr)

  /** How many path aliases the text of an alias holds. */
  function PathAliasNumber(source: Alias): nat {
    if source.Rec? then 0 else 1
  }

  /** Which alias the next hop takes, and which the last one when it is itself a link. */
  datatype Policy = Policy(hop: Alias -> Alias, last: Alias -> Alias)

  function ByAliasText(): Policy {
    Policy(s => Path(PathAliasNumber(s) + 1), s => Path(PathAliasNumber(s)))
  }

  function RecordFieldPath(p: Policy, layouts: Layouts, l: Layout, parts: seq<string>): Result<Expr, PathError> {
    if parts == [] then Err(FieldRequired)
    else if exists i :: 0 <= i < |parts| && Blank(parts[i]) then Err(EmptySegment)
    else PathParts(p, layouts, l, Rec, parts, false)
  }

  function PathParts(p: Policy, layouts: Layouts, l: Layout, source: Alias, parts: seq<string>, nested: bool)
    : Result<Expr, PathError>
    decreases |parts|
  {
    if parts == [] then Err(FieldRequired)
    else if parts[0] !in l.fields then Err(FieldInvalid(parts[0]))
    else
      var f := l.fields[parts[0]];
      if |parts| == 1 then
        if !nested then Ok(Bare(f.column))
        else if !f.isLink then Ok(Col(source, f.column))
        else if Blank(f.entity) then Err(TargetInvalid)
        else Ok(Sub(Col(p.last(source), "name"), TargetTable(l, f), p.last(source), Col(source, f.column)))
      else if !f.isLink then Err(NotALink(parts[0]))
      else if Blank(f.entity) then Err(TargetInvalid)
      else if (TargetApp(l, f), f.entity) !in layouts then Err(LayoutMissing(TargetApp(l, f), f.entity))
      else
        var target := layouts[(TargetApp(l, f), f.entity)];
        var child := PathParts(p, layouts, target, p.hop(source), parts[1..], true);
        if child.Err? then child
        else Ok(Sub(child.value, target.table, p.hop(source), Col(source, f.column)))
  }

  // ----- Evaluation

  /** Failed is the error of a subquery that finds more than one row, or of an unknown alias. */
  datatype Value = Null | Int(n: int) | Text(s: string) | Failed

  type Row = string -> Value

  type Tables = string -> seq<Row>

  type Env = map<Alias, Row>

  function Eval(e: Expr, env: Env, db: Tables): Value
    decreases e, 0, 0
  {
    match e
    case Bare(c) => if Rec in env then env[Rec](c) else Failed
    case Col(a, c) => if a in env then env[a](c) else Failed
    case Sub(select, table, alias, id) =>
      var found := Matching(id, alias, env, db, db(table));
      if found.None? || |found.value| > 1 then Failed
      else if found.value == [] then Null
      else Eval(select, env[alias := found.value[0]], db)
  }

  /** The rows whose id equals the value, each tried with the alias bound to it. */
  function Matching(id: Expr, alias: Alias, env: Env, db: Tables, rows: seq<Row>): Option<seq<Row>>
    decreases id, 1, |rows|
  {
    if rows == [] then Some([])
    else
      var before, row := Matching(id, alias, env, db, rows[..|rows| - 1]), rows[|rows| - 1];
      var v := Eval(id, env[alias := row], db);
      if before.None? || v.Failed? then None
      else Some(before.value + if !v.Null? && row("id") == v then [row] else [])
  }

  // ----- Walking the links

  function Find(rows: seq<Row>, v: Value): Option<Row> {
    if rows == [] || v.Null? then None
    else if rows[|rows| - 1]("id") == v then Some(rows[|rows| - 1])
    else Find(rows[..|rows| - 1], v)
  }

  /** The value at the end of a path: each link leads to the row it names, and a nested last link to that row's name. */
  function Walk(layouts: Layouts, l: Layout, row: Row, parts: seq<string>, nested: bool, db: Tables): Value
    decreases |parts|
  {
    if parts == [] || parts[0] !in l.fields then Null
    else
      var f := l.fields[parts[0]];
      if |parts| == 1 then
        if !nested || !f.isLink then row(f.column)
        else
          var target := Find(db(TargetTable(l, f)), row(f.column));
          if target.None? then Null else target.value("name")
      else if (TargetApp(l, f), f.entity) !in layouts then Null
      else
        var target := layouts[(TargetApp(l, f), f.entity)];
        var next := Find(db(target.table), row(f.column));
        if next.None? then Null else Walk(layouts, target, next.value, parts[1..], true, db)
  }

  ghost predicate Keyed(rows: seq<Row>) {
    && (forall i :: 0 <= i < |rows| ==> rows[i]("id").Int?)
    && (forall i, j :: 0 <= i < j < |rows| ==> rows[i]("id") != rows[j]("id"))
  }

  /** Every table has its primary key, and stored values are not errors. */
  ghost predicate IsDatabase(db: Tables) {
    (forall t :: Keyed(db(t))) && (forall t, i :: 0 <= i < |db(t)| ==> IsRow(db(t)[i]))
  }

  ghost predicate IsRow(row: Row) {
    forall c :: !row(c).Failed?
  }

  // ----- Routes: where a path leads, from metadata alone

  /** The Entity a link leads to: of the app it names, whatever the owner's, or of the owner's app when it names none. */
  ghost predicate LeadsTo(owner: string, f: Field, app: string, entity: string) {
    && entity == f.entity
    && (if exists c :: c in f.app && c !in {' ', '\t', '\n', '\r'} then app == f.app else app == owner)
  }

  ghost predicate LinkTo(layouts: Layouts, l: Layout, name: string, next: Layout) {
    && name in l.fields && l.fields[name].isLink && !Blank(l.fields[name].entity)
    && exists k :: k in layouts && LeadsTo(l.app, l.fields[name], k.0, k.1) && next == layouts[k]
  }

  ghost predicate HasFields(ls: seq<Layout>, parts: seq<string>) {
    |ls| == |parts| > 0 && forall i :: 0 <= i < |parts| ==> parts[i] in ls[i].fields
  }

  function FieldAt(ls: seq<Layout>, parts: seq<string>, i: nat): Field
    requires HasFields(ls, parts) && i < |parts|
  {
    ls[i].fields[parts[i]]
  }

  function LastField(ls: seq<Layout>, parts: seq<string>): Field
    requires HasFields(ls, parts)
  {
    FieldAt(ls, parts, |parts| - 1)
  }

  /** The layouts along a path: each part is a field of its layout, and each but the last a link to the next. */
  ghost predicate IsRoute(layouts: Layouts, ls: seq<Layout>, parts: seq<string>) {
    HasFields(ls, parts) && forall i :: 0 <= i < |parts| - 1 ==> LinkTo(layouts, ls[i], parts[i], ls[i + 1])
  }

  lemma TargetExact(l: Layout, f: Field, app: string, entity: string)
    ensures LeadsTo(l.app, f, app, entity) <==> app == TargetApp(l, f) && entity == f.entity
  {
  }

  lemma RouteRest(layouts: Layouts, ls: seq<Layout>, parts: seq<string>)
    requires IsRoute(layouts, ls, parts) && |parts| > 1
    ensures IsRoute(layouts, ls[1..], parts[1..]) && LinkTo(layouts, ls[0], parts[0], ls[1])
    ensures LastField(ls[1..], parts[1..]) == LastField(ls, parts)
  {
    forall i | 0 <= i < |parts| - 2 ensures LinkTo(layouts, ls[1..][i], parts[1..][i], ls[1..][i + 1]) {
      assert LinkTo(layouts, ls[i + 1], parts[i + 1], ls[i + 2]);
    }
  }

  lemma LinkToIsTarget(layouts: Layouts, l: Layout, name: string, next: Layout)
    ensures LinkTo(layouts, l, name, next) <==>
      && name in l.fields && l.fields[name].isLink && !Blank(l.fields[name].entity)
      && (TargetApp(l, l.fields[name]), l.fields[name].entity) in layouts
      && next == layouts[(TargetApp(l, l.fields[name]), l.fields[name].entity)]
  {
    if name in l.fields {
      var f := l.fields[name];
      forall k: (string, string) ensures LeadsTo(l.app, f, k.0, k.1) <==> k == (TargetApp(l, f), f.entity) {
        TargetExact(l, f, k.0, k.1);
      }
    }
  }

  /** A route whose last field, when it is a link behind another, names its target. */
  ghost predicate IsWholeRoute(layouts: Layouts, l: Layout, ls: seq<Layout>, parts: seq<string>, nested: bool) {
    && IsRoute(layouts, ls, parts) && ls[0] == l
    && ((nested || |parts| > 1) && LastField(ls, parts).isLink ==> !Blank(LastField(ls, parts).entity))
  }

  lemma {:induction false} CompiledHasRoute(p: Policy, layouts: Layouts, l: Layout, source: Alias, parts: seq<string>,
                                            nested: bool) returns (ls: seq<Layout>)
    requires PathParts(p, layouts, l, source, parts, nested).Ok?
    ensures IsWholeRoute(layouts, l, ls, parts, nested)
    decreases |parts|
  {
    if |parts| == 1 {
      ls := [l];
    } else {
      var f := l.fields[parts[0]];
      var target := layouts[(TargetApp(l, f), f.entity)];
      var rest := CompiledHasRoute(p, layouts, target, p.hop(source), parts[1..], true);
      RouteExtends(layouts, l, rest, parts);
      ls := [l] + rest;
    }
  }

  lemma {:induction false} RouteCompiles(p: Policy, layouts: Layouts, l: Layout, source: Alias, parts: seq<string>,
                                         nested: bool, ls: seq<Layout>)
    requires IsWholeRoute(layouts, l, ls, parts, nested)
    ensures PathParts(p, layouts, l, source, parts, nested).Ok?
    decreases |parts|
  {
    if |parts| > 1 {
      RouteRest(layouts, ls, parts);
      LinkToIsTarget(layouts, l, parts[0], ls[1]);
      RouteCompiles(p, layouts, ls[1], p.hop(source), parts[1..], true, ls[1..]);
    }
  }

  lemma RouteExtends(layouts: Layouts, l: Layout, rest: seq<Layout>, parts: seq<string>)
    requires |parts| > 1 && IsRoute(layouts, rest, parts[1..])
    requires parts[0] in l.fields && l.fields[parts[0]].isLink && !Blank(l.fields[parts[0]].entity)
    requires (TargetApp(l, l.fields[parts[0]]), l.fields[parts[0]].entity) in layouts
    requires rest[0] == layouts[(TargetApp(l, l.fields[parts[0]]), l.fields[parts[0]].entity)]
    ensures IsRoute(layouts, [l] + rest, parts) && LastField([l] + rest, parts) == LastField(rest, parts[1..])
  {
    var ls := [l] + rest;
    LinkToIsTarget(layouts, l, parts[0], rest[0]);
    forall i | 0 <= i < |parts| - 1 ensures LinkTo(layouts, ls[i], parts[i], ls[i + 1]) {
      if i > 0 { assert LinkTo(layouts, rest[i - 1], parts[1..][i - 1], rest[i]); }
    }
  }

  lemma {:induction false} EndsInLinkExact(layouts: Layouts, ls: seq<Layout>, parts: seq<string>)
    requires IsRoute(layouts, ls, parts)
    ensures EndsInLink(layouts, ls[0], parts) <==> LastField(ls, parts).isLink
    decreases |parts|
  {
    if |parts| > 1 {
      RouteRest(layouts, ls, parts);
      LinkToIsTarget(layouts, ls[0], parts[0], ls[1]);
      EndsInLinkExact(layouts, ls[1..], parts[1..]);
    }
  }

  /** A path compiles exactly when no part is blank and it has such a route from its layout. */
  lemma PathCompilesIff(p: Policy, layouts: Layouts, l: Layout, parts: seq<string>)
    ensures RecordFieldPath(p, layouts, l, parts).Ok? <==>
      && (forall i :: 0 <= i < |parts| ==> !Blank(parts[i]))
      && exists ls :: IsWholeRoute(layouts, l, ls, parts, false)
  {
    if RecordFieldPath(p, layouts, l, parts).Ok? { var ls := CompiledHasRoute(p, layouts, l, Rec, parts, false); }
    if ls :| IsWholeRoute(layouts, l, ls, parts, false) { RouteCompiles(p, layouts, l, Rec, parts, false, ls); }
  }

  /** The rows met along a route: each is the one of the next table that the link before it names. */
  ghost predicate IsTrail(ls: seq<Layout>, parts: seq<string>, db: Tables, rows: seq<Row>)
    requires HasFields(ls, parts)
  {
    0 < |rows| <= |parts| && forall i :: 0 <= i < |rows| - 1 ==> StepTo(ls, parts, db, i, rows[i], rows[i + 1])
  }

  ghost predicate StepTo(ls: seq<Layout>, parts: seq<string>, db: Tables, i: nat, row: Row, next: Row)
    requires HasFields(ls, parts) && i < |parts| - 1
  {
    Names(row(FieldAt(ls, parts, i).column), db(ls[i + 1].table), next)
  }

  /** The value is the id of the row, which is one of the table's. */
  ghost predicate Names(v: Value, table: seq<Row>, row: Row) {
    v != Null && row("id") == v && exists i :: 0 <= i < |table| && table[i] == row
  }

  ghost predicate NamesNone(v: Value, table: seq<Row>) {
    forall row :: !Names(v, table, row)
  }

  lemma {:induction false} FindMeans(table: seq<Row>, v: Value)
    ensures Find(table, v).None? <==> NamesNone(v, table)
    ensures Find(table, v).Some? ==> Names(v, table, Find(table, v).value)
    ensures Keyed(table) ==> forall row :: Names(v, table, row) ==> Find(table, v) == Some(row)
  {
    FindNone(table, v);
    if Find(table, v).Some? {
      assert v != Null && Names(v, table, Find(table, v).value);
    }
  }

  /** The last table: that of the Entity which the last link leads to, by its storage name. */
  ghost predicate LastTable(l: Layout, f: Field, table: string) {
    exists app :: LeadsTo(l.app, f, app, f.entity) && table == TableName(app, f.entity)
  }

  /** The walk follows the links of the route, row by row, and ends at the last field, or at the name behind it. */
  lemma {:induction false} WalkFollowsRoute(layouts: Layouts, ls: seq<Layout>, parts: seq<string>, nested: bool, db: Tables,
                                            rows: seq<Row>)
    requires IsRoute(layouts, ls, parts) && IsDatabase(db) && IsTrail(ls, parts, db, rows)
    ensures WalkEnds(ls, parts, nested, db, rows, Walk(layouts, ls[0], rows[0], parts, nested, db))
    decreases |parts|
  {
    if |parts| == 1 {
      LastWalked(layouts, ls[0], parts, nested, db, rows[0]);
    } else {
      RouteRest(layouts, ls, parts);
      LinkToIsTarget(layouts, ls[0], parts[0], ls[1]);
      FindMeans(db(ls[1].table), rows[0](FieldAt(ls, parts, 0).column));
      if |rows| > 1 {
        TrailRest(ls, parts, db, rows);
        WalkFollowsRoute(layouts, ls[1..], parts[1..], true, db, rows[1..]);
      }
    }
  }

  /** The value at the end of a trail: null when it breaks off, else the last field's, or the name of the row it links to. */
  ghost predicate WalkEnds(ls: seq<Layout>, parts: seq<string>, nested: bool, db: Tables, rows: seq<Row>, v: Value)
    requires HasFields(ls, parts) && 0 < |rows| <= |parts|
  {
    var last, f := rows[|rows| - 1], LastField(ls, parts);
    if |rows| < |parts| then NamesNone(last(FieldAt(ls, parts, |rows| - 1).column), db(ls[|rows|].table)) ==> v == Null
    else if !f.isLink || (|parts| == 1 && !nested) then v == last(f.column)
    else
      forall table :: LastTable(ls[|ls| - 1], f, table) ==>
        && (forall row :: Names(last(f.column), db(table), row) ==> v == row("name"))
        && (NamesNone(last(f.column), db(table)) ==> v == Null)
  }

  lemma LastWalked(layouts: Layouts, l: Layout, parts: seq<string>, nested: bool, db: Tables, row: Row)
    requires |parts| == 1 && parts[0] in l.fields && IsDatabase(db)
    ensures WalkEnds([l], parts, nested, db, [row], Walk(layouts, l, row, parts, nested, db))
  {
    var f := l.fields[parts[0]];
    forall table | LastTable(l, f, table) ensures table == TargetTable(l, f) {
      var app :| LeadsTo(l.app, f, app, f.entity) && table == TableName(app, f.entity);
      TargetExact(l, f, app, f.entity);
    }
    FindMeans(db(TargetTable(l, f)), row(f.column));
  }

  lemma TrailRest(ls: seq<Layout>, parts: seq<string>, db: Tables, rows: seq<Row>)
    requires HasFields(ls, parts) && |parts| > 1 && IsTrail(ls, parts, db, rows) && |rows| > 1
    ensures HasFields(ls[1..], parts[1..]) && IsTrail(ls[1..], parts[1..], db, rows[1..])
    ensures StepTo(ls, parts, db, 0, rows[0], rows[1])
    ensures forall i :: 0 <= i < |parts| - 1 ==> FieldAt(ls[1..], parts[1..], i) == FieldAt(ls, parts, i + 1)
  {
    assert HasFields(ls[1..], parts[1..]);
    forall i | 0 <= i < |rows[1..]| - 1 ensures StepTo(ls[1..], parts[1..], db, i, rows[1..][i], rows[1..][i + 1]) {
      assert StepTo(ls, parts, db, i + 1, rows[i + 1], rows[i + 2]);
    }
  }

  // ----- Fresh aliases are enough

  /** No subquery of the path takes the alias that its own condition refers to. */
  predicate FreshAlong(p: Policy, source: Alias, hops: nat, endsInLink: bool, nested: bool)
    decreases hops
  {
    if hops <= 1 then nested && endsInLink ==> p.last(source) != source
    else p.hop(source) != source && FreshAlong(p, p.hop(source), hops - 1, endsInLink, true)
  }

  function EndsInLink(layouts: Layouts, l: Layout, parts: seq<string>): bool
    decreases |parts|
  {
    if parts == [] || parts[0] !in l.fields then false
    else
      var f := l.fields[parts[0]];
      if |parts| == 1 then f.isLink
      else if (TargetApp(l, f), f.entity) !in layouts then false
      else EndsInLink(layouts, layouts[(TargetApp(l, f), f.entity)], parts[1..])
  }

  lemma {:induction false} FindNone(rows: seq<Row>, v: Value)
    ensures Find(rows, v).None? <==> v.Null? || forall i :: 0 <= i < |rows| ==> rows[i]("id") != v
    ensures Find(rows, v).Some? ==> exists i :: 0 <= i < |rows| && rows[i] == Find(rows, v).value
    ensures Find(rows, v).Some? ==> Find(rows, v).value("id") == v
  {
    if rows != [] && !v.Null? {
      var front := rows[..|rows| - 1];
      FindNone(front, v);
      assert forall i :: 0 <= i < |front| ==> front[i] == rows[i];
    }
  }

  /** When the condition refers to another alias, a subquery finds what following the link finds. */
  lemma {:induction false} FreshSubqueryFollows(source: Alias, column: string, alias: Alias, env: Env, db: Tables, rows: seq<Row>)
    requires source in env && alias != source && Keyed(rows) && !env[source](column).Failed?
    ensures var found, next := Matching(Col(source, column), alias, env, db, rows), Find(rows, env[source](column));
      found == Some(if next.Some? then [next.value] else [])
  {
    if rows != [] {
      var front, row, v := rows[..|rows| - 1], rows[|rows| - 1], env[source](column);
      assert forall i :: 0 <= i < |front| ==> front[i] == rows[i];
      FreshSubqueryFollows(source, column, alias, env, db, front);
      assert Eval(Col(source, column), env[alias := row], db) == v;
      FindNone(front, v);
      forall i | 0 <= i < |front| ensures front[i]("id") != row("id") {
        assert rows[i]("id") != rows[|rows| - 1]("id");
      }
      var before := Matching(Col(source, column), alias, env, db, front).value;
      assert before + [] == before && [] + [row] == [row];
      if Find(front, v).Some? {
        var i :| 0 <= i < |front| && front[i] == Find(front, v).value;
        assert row("id") != v;
      }
    }
  }

  lemma FreshSub(select: Expr, table: string, source: Alias, column: string, alias: Alias, env: Env, db: Tables)
    requires source in env && alias != source && Keyed(db(table)) && !env[source](column).Failed?
    ensures var next := Find(db(table), env[source](column));
      Eval(Sub(select, table, alias, Col(source, column)), env, db)
        == if next.None? then Null else Eval(select, env[alias := next.value], db)
  {
    FreshSubqueryFollows(source, column, alias, env, db, db(table));
  }

  lemma FoundIsRow(rows: seq<Row>, v: Value)
    requires Find(rows, v).Some? && forall i :: 0 <= i < |rows| ==> IsRow(rows[i])
    ensures IsRow(Find(rows, v).value)
  {
    FindNone(rows, v);
  }

  /** With fresh aliases a compiled path has the value found by walking its links, whatever its length. */
  lemma {:induction false} FreshPathWalks(p: Policy, layouts: Layouts, l: Layout, source: Alias, parts: seq<string>,
                                          nested: bool, env: Env, db: Tables)
    requires PathParts(p, layouts, l, source, parts, nested).Ok?
    requires FreshAlong(p, source, |parts|, EndsInLink(layouts, l, parts), nested)
    requires source in env && (!nested ==> source == Rec) && IsRow(env[source]) && IsDatabase(db)
    ensures Eval(PathParts(p, layouts, l, source, parts, nested).value, env, db)
         == Walk(layouts, l, env[source], parts, nested, db)
    decreases |parts|
  {
    var f := l.fields[parts[0]];
    if |parts| == 1 {
      if nested && f.isLink {
        FreshSub(Col(p.last(source), "name"), TargetTable(l, f), source, f.column, p.last(source), env, db);
      }
    } else {
      var target := layouts[(TargetApp(l, f), f.entity)];
      var child := PathParts(p, layouts, target, p.hop(source), parts[1..], true).value;
      FreshSub(child, target.table, source, f.column, p.hop(source), env, db);
      var next := Find(db(target.table), env[source](f.column));
      if next.Some? {
        FoundIsRow(db(target.table), env[source](f.column));
        FreshPathWalks(p, layouts, target, p.hop(source), parts[1..], true, env[p.hop(source) := next.value], db);
      }
    }
  }

  // ----- The code's aliases

  /** The aliases of the code stay fresh exactly along these paths. */
  predicate Uncaptured(hops: nat, endsInLink: bool) {
    hops <= 1 || (hops == 2 && !endsInLink) || hops == 3
  }

  lemma CodeFreshIff(hops: nat, endsInLink: bool)
    ensures FreshAlong(ByAliasText(), Rec, hops, endsInLink, false) <==> Uncaptured(hops, endsInLink)
  {
    var p := ByAliasText();
    assert p.hop(Rec) == Path(1) && p.hop(Path(1)) == Path(2) && p.hop(Path(2)) == Path(2);
    assert p.last(Path(1)) == Path(1) && p.last(Path(2)) == Path(1);
    if hops >= 2 {
      assert FreshAlong(p, Rec, hops, endsInLink, false) == FreshAlong(p, Path(1), hops - 1, endsInLink, true);
    }
    if hops >= 3 {
      assert FreshAlong(p, Path(1), hops - 1, endsInLink, true) == FreshAlong(p, Path(2), hops - 2, endsInLink, true);
    }
  }

  /** Two rows in every table, each naming the other in all its columns. */
  function MirrorRow(id: int): Row {
    c => if c == "id" then Int(id) else Int(3 - id)
  }

  function Mirrors(): Tables {
    _ => [MirrorRow(1), MirrorRow(2)]
  }

  /** Links are stored in columns of their own. */
  predicate LinksApart(l: Layout) {
    forall n :: n in l.fields && l.fields[n].isLink ==> l.fields[n].column != "id"
  }

  predicate AllLinksApart(layouts: Layouts) {
    forall k :: k in layouts ==> LinksApart(layouts[k])
  }

  lemma MirrorsIsDatabase()
    ensures IsDatabase(Mirrors())
  {
    forall t ensures Keyed(Mirrors()(t)) {
      assert MirrorRow(1)("id") == Int(1) && MirrorRow(2)("id") == Int(2);
    }
    forall t, i | 0 <= i < |Mirrors()(t)| ensures IsRow(Mirrors()(t)[i]) {
    }
  }

  /** A captured condition compares a row with itself, and no mirror row names itself. */
  lemma CapturedFindsNothing(column: string, alias: Alias, env: Env)
    requires column != "id"
    ensures Matching(Col(alias, column), alias, env, Mirrors(), [MirrorRow(1), MirrorRow(2)]) == Some([])
  {
    var rows := [MirrorRow(1), MirrorRow(2)];
    assert rows[..1] == [MirrorRow(1)] && rows[..1][..0] == [];
    assert MirrorRow(1)(column) == Int(2) && MirrorRow(2)(column) == Int(1);
    assert MirrorRow(1)("id") == Int(1) && MirrorRow(2)("id") == Int(2);
    forall r: Row ensures Eval(Col(alias, column), env[alias := r], Mirrors()) == r(column) { }
    assert Matching(Col(alias, column), alias, env, Mirrors(), []) == Some([]);
    assert Matching(Col(alias, column), alias, env, Mirrors(), [MirrorRow(1)]) == Some([]) by {
      assert [MirrorRow(1)][..0] == [];
      var none: seq<Row> := [];
      assert none + none == none;
    }
  }

  lemma CapturedSub(select: Expr, table: string, column: string, alias: Alias, env: Env)
    requires column != "id"
    ensures Eval(Sub(select, table, alias, Col(alias, column)), env, Mirrors()) == Null
  {
    CapturedFindsNothing(column, alias, env);
  }

  lemma MirrorFound(v: Value)
    requires v == Int(1) || v == Int(2)
    ensures Find([MirrorRow(1), MirrorRow(2)], v) == Some(MirrorRow(v.n))
  {
    var rows := [MirrorRow(1), MirrorRow(2)];
    assert rows[..1] == [MirrorRow(1)];
    assert MirrorRow(1)("id") == Int(1) && MirrorRow(2)("id") == Int(2);
  }

  /** On the mirror tables every resolved path leads to a value. */
  lemma {:induction false} WalkFinds(p: Policy, layouts: Layouts, l: Layout, source: Alias, parts: seq<string>, id: int)
    requires PathParts(p, layouts, l, source, parts, true).Ok? && id in {1, 2}
    requires LinksApart(l) && AllLinksApart(layouts)
    ensures Walk(layouts, l, MirrorRow(id), parts, true, Mirrors()) != Null
    decreases |parts|
  {
    var f := l.fields[parts[0]];
    var v := MirrorRow(id)(f.column);
    assert v.Int?;
    if f.isLink { MirrorFound(v); }
    if |parts| > 1 {
      var target := layouts[(TargetApp(l, f), f.entity)];
      WalkFinds(p, layouts, target, p.hop(source), parts[1..], v.n);
    } else if f.isLink {
      assert MirrorRow(v.n)("name").Int?;
    }
  }

  lemma LastCaptureLosesValue(p: Policy, layouts: Layouts, l: Layout, source: Alias, parts: seq<string>, nested: bool,
                              env: Env, id: int)
    requires |parts| == 1 && PathParts(p, layouts, l, source, parts, nested).Ok?
    requires !FreshAlong(p, source, 1, EndsInLink(layouts, l, parts), nested)
    requires id in {1, 2} && source in env && env[source] == MirrorRow(id) && LinksApart(l)
    ensures Eval(PathParts(p, layouts, l, source, parts, nested).value, env, Mirrors()) == Null
    ensures Walk(layouts, l, MirrorRow(id), parts, nested, Mirrors()) != Null
  {
    var f := l.fields[parts[0]];
    assert MirrorRow(id)(f.column).Int?;
    CapturedSub(Col(source, "name"), TargetTable(l, f), f.column, source, env);
    MirrorFound(MirrorRow(id)(f.column));
  }

  /** On the mirror tables a path with a capture evaluates to null, although walking it finds a value. */
  lemma {:induction false} CaptureLosesValue(p: Policy, layouts: Layouts, l: Layout, source: Alias, parts: seq<string>,
                                             nested: bool, env: Env, id: int)
    requires PathParts(p, layouts, l, source, parts, nested).Ok?
    requires !FreshAlong(p, source, |parts|, EndsInLink(layouts, l, parts), nested)
    requires id in {1, 2} && source in env && env[source] == MirrorRow(id)
    requires LinksApart(l) && AllLinksApart(layouts)
    ensures Eval(PathParts(p, layouts, l, source, parts, nested).value, env, Mirrors()) == Null
    ensures Walk(layouts, l, MirrorRow(id), parts, nested, Mirrors()) != Null
    decreases |parts|
  {
    var f := l.fields[parts[0]];
    assert MirrorRow(id)(f.column).Int?;
    if |parts| == 1 {
      LastCaptureLosesValue(p, layouts, l, source, parts, nested, env, id);
    } else {
      var target := layouts[(TargetApp(l, f), f.entity)];
      var v := MirrorRow(id)(f.column);
      MirrorFound(v);
      var child := PathParts(p, layouts, target, p.hop(source), parts[1..], true).value;
      if p.hop(source) == source {
        CapturedSub(child, target.table, f.column, source, env);
        WalkFinds(p, layouts, target, p.hop(source), parts[1..], v.n);
      } else {
        MirrorsIsDatabase();
        FreshSub(child, target.table, source, f.column, p.hop(source), env, Mirrors());
        CaptureLosesValue(p, layouts, target, p.hop(source), parts[1..], true, env[p.hop(source) := MirrorRow(v.n)], v.n);
      }
    }
  }

  /** The compiled path means what its links say, on this database and this record. */
  ghost predicate Means(e: Expr, layouts: Layouts, l: Layout, parts: seq<string>, row: Row, db: Tables) {
    Eval(e, map[Rec := row], db) == Walk(layouts, l, row, parts, false, db)
  }

  /**
    The code's numbering looks only at the immediate source. Its paths mean what
    their links say on every database exactly when they have one part, two parts
    of which the second is not a link, or three parts.
   */
  lemma CodeMeansWalkIff(layouts: Layouts, l: Layout, parts: seq<string>)
    requires RecordFieldPath(ByAliasText(), layouts, l, parts).Ok?
    requires LinksApart(l) && AllLinksApart(layouts)
    ensures var e := RecordFieldPath(ByAliasText(), layouts, l, parts).value;
      (forall db, row :: IsDatabase(db) && IsRow(row) ==> Means(e, layouts, l, parts, row, db))
        <==> Uncaptured(|parts|, EndsInLink(layouts, l, parts))
  {
    var e := RecordFieldPath(ByAliasText(), layouts, l, parts).value;
    CodeFreshIff(|parts|, EndsInLink(layouts, l, parts));
    if Uncaptured(|parts|, EndsInLink(layouts, l, parts)) {
      forall db, row | IsDatabase(db) && IsRow(row) ensures Means(e, layouts, l, parts, row, db) {
        FreshPathWalks(ByAliasText(), layouts, l, Rec, parts, false, map[Rec := row], db);
      }
    } else {
      MirrorsIsDatabase();
      CaptureLosesValue(ByAliasText(), layouts, l, Rec, parts, false, map[Rec := MirrorRow(1)], 1);
      assert IsRow(MirrorRow(1)) && !Means(e, layouts, l, parts, MirrorRow(1), Mirrors());
    }
  }

  /** On those paths the code's expression has the value at the end of the trail, with tables and rows from metadata alone. */
  lemma CompiledFollowsRoute(layouts: Layouts, ls: seq<Layout>, parts: seq<string>, db: Tables, rows: seq<Row>)
    requires IsRoute(layouts, ls, parts) && RecordFieldPath(ByAliasText(), layouts, ls[0], parts).Ok?
    requires Uncaptured(|parts|, LastField(ls, parts).isLink)
    requires IsDatabase(db) && IsTrail(ls, parts, db, rows) && IsRow(rows[0])
    ensures var e := RecordFieldPath(ByAliasText(), layouts, ls[0], parts).value;
      WalkEnds(ls, parts, false, db, rows, Eval(e, map[Rec := rows[0]], db))
  {
    EndsInLinkExact(layouts, ls, parts);
    CodeFreshIff(|parts|, EndsInLink(layouts, ls[0], parts));
    FreshPathWalks(ByAliasText(), layouts, ls[0], Rec, parts, false, map[Rec := rows[0]], db);
    WalkFollowsRoute(layouts, ls, parts, false, db, rows);
  }
}
