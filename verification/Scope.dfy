/** Row scopes: numbered predicates, shifted and conjoined into larger statements. */
module Scope {
  import opened Wrappers

  // ----- Predicates

  datatype Value = Null | Int(n: int) | Text(s: string)

  type Row = map<string, Value>

  datatype Term = Param(number: nat) | Column(name: string) | Const(value: Value)

  /**
    The parse of a predicate text: what stands between parentheses is one Paren.
    Over tests a predicate on a row that is made up from terms.
   */
  datatype Pred =
    | Yes
    | No
    | Test(name: string, terms: seq<Term>)
    | And(left: Pred, right: Pred)
    | Or(left: Pred, right: Pred)
    | Paren(inner: Pred)
    | Over(image: map<string, Term>, inner: Pred)

  /** What the named tests mean: true, as opposed to false or unknown. */
  type Tests = (string, seq<Value>) -> bool

  function TermValue(term: Term, row: Row, args: seq<Value>): Value {
    match term
    case Param(n) => if 1 <= n <= |args| then args[n - 1] else Null
    case Column(c) => if c in row then row[c] else Null
    case Const(v) => v
  }

  function Values(terms: seq<Term>, row: Row, args: seq<Value>): seq<Value> {
    seq(|terms|, i requires 0 <= i < |terms| => TermValue(terms[i], row, args))
  }

  function ImageRow(image: map<string, Term>, row: Row, args: seq<Value>): Row {
    map c | c in image :: TermValue(image[c], row, args)
  }

  predicate Eval(t: Tests, p: Pred, row: Row, args: seq<Value>) {
    match p
    case Yes => true
    case No => false
    case Test(name, terms) => t(name, Values(terms, row, args))
    case And(a, b) => Eval(t, a, row, args) && Eval(t, b, row, args)
    case Or(a, b) => Eval(t, a, row, args) || Eval(t, b, row, args)
    case Paren(q) => Eval(t, q, row, args)
    case Over(image, q) => Eval(t, q, ImageRow(image, row, args), args)
  }

  predicate TermFits(term: Term, n: nat) {
    term.Param? ==> 1 <= term.number <= n
  }

  /** All parameters of the predicate are among the first n. */
  predicate Fits(p: Pred, n: nat) {
    match p
    case Test(_, terms) => forall i :: 0 <= i < |terms| ==> TermFits(terms[i], n)
    case And(a, b) => Fits(a, n) && Fits(b, n)
    case Or(a, b) => Fits(a, n) && Fits(b, n)
    case Paren(q) => Fits(q, n)
    case Over(image, q) => (forall c :: c in image ==> TermFits(image[c], n)) && Fits(q, n)
    case _ => true
  }

  // ----- Shifting

  function ShiftTerm(term: Term, k: nat): Term {
    if term.Param? then Param(term.number + k) else term
  }

  /** Renumbers the parameters for arguments that come k places later. */
  function Shift(p: Pred, k: nat): Pred {
    match p
    case Test(name, terms) => Test(name, seq(|terms|, i requires 0 <= i < |terms| => ShiftTerm(terms[i], k)))
    case And(a, b) => And(Shift(a, k), Shift(b, k))
    case Or(a, b) => Or(Shift(a, k), Shift(b, k))
    case Paren(q) => Paren(Shift(q, k))
    case Over(image, q) => Over(map c | c in image :: ShiftTerm(image[c], k), Shift(q, k))
    case _ => p
  }

  /** A shifted predicate over a + b means what the predicate means over b. */
  lemma {:induction false} ShiftMeansSame(t: Tests, p: Pred, row: Row, a: seq<Value>, b: seq<Value>)
    requires Fits(p, |b|)
    ensures Eval(t, Shift(p, |a|), row, a + b) == Eval(t, p, row, b)
  {
    match p
    case Test(name, terms) =>
      assert forall i :: 0 <= i < |terms| ==> TermFits(terms[i], |b|);
      assert Values(Shift(p, |a|).terms, row, a + b) == Values(terms, row, b);
    case And(x, y) => ShiftMeansSame(t, x, row, a, b); ShiftMeansSame(t, y, row, a, b);
    case Or(x, y) => ShiftMeansSame(t, x, row, a, b); ShiftMeansSame(t, y, row, a, b);
    case Paren(q) => ShiftMeansSame(t, q, row, a, b);
    case Over(image, q) =>
      assert forall c :: c in image ==> TermFits(image[c], |b|);
      assert ImageRow(Shift(p, |a|).image, row, a + b) == ImageRow(image, row, b);
      ShiftMeansSame(t, q, ImageRow(image, row, b), a, b);
    case _ =>
  }

  lemma {:induction false} ShiftsAdd(p: Pred, j: nat, k: nat)
    ensures Shift(Shift(p, j), k) == Shift(p, j + k)
  {
    match p
    case And(x, y) => ShiftsAdd(x, j, k); ShiftsAdd(y, j, k);
    case Or(x, y) => ShiftsAdd(x, j, k); ShiftsAdd(y, j, k);
    case Paren(q) => ShiftsAdd(q, j, k);
    case Over(_, q) => ShiftsAdd(q, j, k);
    case _ =>
  }

  lemma {:induction false} ShiftFits(p: Pred, k: nat, n: nat)
    requires Fits(p, n)
    ensures Fits(Shift(p, k), n + k)
  {
    match p
    case Test(name, terms) => assert forall i :: 0 <= i < |terms| ==> TermFits(terms[i], n);
    case And(x, y) => ShiftFits(x, k, n); ShiftFits(y, k, n);
    case Or(x, y) => ShiftFits(x, k, n); ShiftFits(y, k, n);
    case Paren(q) => ShiftFits(q, k, n);
    case Over(image, q) =>
      assert forall c :: c in image ==> TermFits(image[c], n);
      ShiftFits(q, k, n);
    case _ =>
  }

  /** More arguments at the end change nothing. */
  lemma {:induction false} PrefixSurvives(t: Tests, p: Pred, row: Row, a: seq<Value>, b: seq<Value>)
    requires Fits(p, |a|)
    ensures Eval(t, p, row, a + b) == Eval(t, p, row, a)
  {
    match p
    case Test(name, terms) =>
      assert forall i :: 0 <= i < |terms| ==> TermFits(terms[i], |a|);
      assert Values(terms, row, a + b) == Values(terms, row, a);
    case And(x, y) => PrefixSurvives(t, x, row, a, b); PrefixSurvives(t, y, row, a, b);
    case Or(x, y) => PrefixSurvives(t, x, row, a, b); PrefixSurvives(t, y, row, a, b);
    case Paren(q) => PrefixSurvives(t, q, row, a, b);
    case Over(image, q) =>
      assert forall c :: c in image ==> TermFits(image[c], |a|);
      assert ImageRow(image, row, a + b) == ImageRow(image, row, a);
      PrefixSurvives(t, q, ImageRow(image, row, a), a, b);
    case _ =>
  }

  // ----- Clauses under construction

  /** A where clause as text: nothing yet, a predicate, or text that does not parse. */
  datatype Clause = Empty | Malformed | Whole(p: Pred)

  predicate Holds(t: Tests, c: Clause, row: Row, args: seq<Value>) {
    match c
    case Empty => true
    case Malformed => false
    case Whole(p) => Eval(t, p, row, args)
  }

  /** The text p AND (q): the conjunction binds tighter than an open disjunction in p. */
  function AppendAnd(p: Pred, q: Pred): Pred {
    if p.Or? then Or(p.left, AppendAnd(p.right, q)) else And(p, Paren(q))
  }

  function Append(c: Clause, q: Pred): Clause {
    if c.Whole? then Whole(AppendAnd(c.p, q)) else Malformed
  }

  predicate SelfDelimiting(c: Clause) {
    c.Whole? ==> !c.p.Or?
  }

  /** Some alternative of an open disjunction, other than the last, holds. */
  predicate Escapes(t: Tests, p: Pred, row: Row, args: seq<Value>) {
    p.Or? && (Eval(t, p.left, row, args) || Escapes(t, p.right, row, args))
  }

  /** Appended text conjoins, except that the alternatives before the last escape it. */
  lemma {:induction false} AppendMeans(t: Tests, p: Pred, q: Pred, row: Row, args: seq<Value>)
    ensures Eval(t, AppendAnd(p, q), row, args)
        <==> Escapes(t, p, row, args) || (Eval(t, p, row, args) && Eval(t, q, row, args))
  {
    if p.Or? { AppendMeans(t, p.right, q, row, args); }
  }

  /** What escaped before an append escapes after it, and nothing else. */
  lemma {:induction false} AppendKeepsEscapes(t: Tests, p: Pred, q: Pred, row: Row, args: seq<Value>)
    ensures Escapes(t, AppendAnd(p, q), row, args) == Escapes(t, p, row, args)
  {
    if p.Or? { AppendKeepsEscapes(t, p.right, q, row, args); }
  }

  lemma {:induction false} EscapingHolds(t: Tests, p: Pred, row: Row, args: seq<Value>)
    requires Escapes(t, p, row, args)
    ensures Eval(t, p, row, args)
  {
    if !Eval(t, p.left, row, args) { EscapingHolds(t, p.right, row, args); }
  }

  lemma {:induction false} ShiftKeepsEscapes(t: Tests, p: Pred, row: Row, a: seq<Value>, b: seq<Value>)
    requires Fits(p, |b|)
    ensures Escapes(t, Shift(p, |a|), row, a + b) == Escapes(t, p, row, b)
  {
    if p.Or? {
      ShiftMeansSame(t, p.left, row, a, b);
      ShiftKeepsEscapes(t, p.right, row, a, b);
    }
  }

  predicate ClauseEscapes(t: Tests, c: Clause, row: Row, args: seq<Value>) {
    c.Whole? && Escapes(t, c.p, row, args)
  }

  // ----- Scopes

  /** The row predicate may be absent; field predicates are numbered like it. */
  datatype RowScope = RowScope(where: Option<Pred>, args: seq<Value>, fieldRead: map<string, Pred>, fieldWrite: map<string, Pred>)

  predicate Trivial(s: RowScope) {
    s.where.None? || s.where.value.Yes?
  }

  predicate ScopeFits(s: RowScope) {
    && (s.where.Some? ==> Fits(s.where.value, |s.args|))
    && (forall f :: f in s.fieldRead ==> Fits(s.fieldRead[f], |s.args|))
    && (forall f :: f in s.fieldWrite ==> Fits(s.fieldWrite[f], |s.args|))
  }

  predicate InScope(t: Tests, s: RowScope, row: Row) {
    s.where.Some? ==> Eval(t, s.where.value, row, s.args)
  }

  /** Every restricted field of the names allows the row. */
  predicate FieldsAllow(t: Tests, s: RowScope, restricted: map<string, Pred>, names: seq<string>, row: Row) {
    forall i :: 0 <= i < |names| && names[i] in restricted ==> Eval(t, restricted[names[i]], row, s.args)
  }

  function ScopedWhere(s: RowScope, where: Clause, args: seq<Value>): Clause {
    if Trivial(s) then where
    else if where.Empty? then Whole(Shift(s.where.value, |args|))
    else if where.Malformed? then Malformed
    else Whole(And(Paren(where.p), Paren(Shift(s.where.value, |args|))))
  }

  /** The clause and the scope, both over the arguments of both. */
  lemma ScopedWhereConjoins(t: Tests, s: RowScope, where: Clause, args: seq<Value>, row: Row)
    requires ScopeFits(s) && (where.Whole? ==> Fits(where.p, |args|))
    ensures Holds(t, ScopedWhere(s, where, args), row, args + s.args)
        <==> Holds(t, where, row, args) && InScope(t, s, row)
  {
    if where.Whole? { PrefixSurvives(t, where.p, row, args, s.args); }
    if !Trivial(s) {
      ShiftMeansSame(t, s.where.value, row, args, s.args);
      if where.Whole? { BothMeans(t, where.p, Shift(s.where.value, |args|), row, args + s.args); }
    }
  }

  lemma BothMeans(t: Tests, p: Pred, q: Pred, row: Row, args: seq<Value>)
    ensures Eval(t, And(Paren(p), Paren(q)), row, args) <==> Eval(t, p, row, args) && Eval(t, q, row, args)
  {
    assert Eval(t, Paren(p), row, args) == Eval(t, p, row, args);
    assert Eval(t, Paren(q), row, args) == Eval(t, q, row, args);
  }

  /** The field name at the head of a dotted path. */
  function Head(path: string): string {
    if path == "" || path[0] == '.' then "" else [path[0]] + Head(path[1..])
  }

  /** It ends at the first dot: the path is the name itself, or the name, a dot and the rest. */
  lemma {:induction false} HeadExact(path: string)
    ensures '.' !in Head(path)
    ensures Head(path) == path || exists rest :: path == Head(path) + "." + rest
  {
    if path != "" && path[0] != '.' {
      HeadExact(path[1..]);
      assert path == [path[0]] + path[1..];
      if rest :| path[1..] == Head(path[1..]) + "." + rest { assert path == Head(path) + "." + rest; }
    } else if path != "" {
      assert path == "" + "." + path[1..];
    }
  }

  function Heads(paths: seq<string>): seq<string> {
    seq(|paths|, i requires 0 <= i < |paths| => Head(paths[i]))
  }

  predicate SomeRestricted(restricted: map<string, Pred>, names: seq<string>) {
    exists i :: 0 <= i < |names| && names[i] in restricted
  }

  /**
    What a clause with field predicates means: the base and the fields together,
    except for rows that escape from the base.
   */
  ghost predicate Restricts(r: Clause, base: Clause, s: RowScope, restricted: map<string, Pred>, names: seq<string>,
                            args: seq<Value>) {
    forall t: Tests, row: Row ::
      Holds(t, r, row, args + s.args) <==>
        || ClauseEscapes(t, base, row, args + s.args)
        || (Holds(t, base, row, args + s.args) && FieldsAllow(t, s, restricted, names, row))
  }

  ghost predicate SameEscapes(r: Clause, base: Clause) {
    forall t: Tests, row: Row, args: seq<Value> :: ClauseEscapes(t, r, row, args) == ClauseEscapes(t, base, row, args)
  }

  lemma NoFieldYet(base: Clause, s: RowScope, restricted: map<string, Pred>, args: seq<Value>)
    ensures Restricts(base, base, s, restricted, [], args)
  {
    forall t: Tests, row: Row
      ensures ClauseEscapes(t, base, row, args + s.args) ==> Holds(t, base, row, args + s.args)
    {
      if ClauseEscapes(t, base, row, args + s.args) { EscapingHolds(t, base.p, row, args + s.args); }
    }
  }

  lemma OneMoreField(r: Clause, base: Clause, s: RowScope, restricted: map<string, Pred>, names: seq<string>, i: nat,
                     args: seq<Value>)
    requires i < |names| && names[i] in restricted && Fits(restricted[names[i]], |s.args|)
    requires r.Whole? && SameEscapes(r, base) && Restricts(r, base, s, restricted, names[..i], args)
    ensures Restricts(Append(r, Shift(restricted[names[i]], |args|)), base, s, restricted, names[..i + 1], args)
    ensures SameEscapes(Append(r, Shift(restricted[names[i]], |args|)), base)
  {
    var p := restricted[names[i]];
    var next := Append(r, Shift(p, |args|));
    forall t: Tests, row: Row
      ensures Holds(t, next, row, args + s.args) <==>
        || ClauseEscapes(t, base, row, args + s.args)
        || (Holds(t, base, row, args + s.args) && FieldsAllow(t, s, restricted, names[..i + 1], row))
    {
      ShiftMeansSame(t, p, row, args, s.args);
      AppendMeans(t, r.p, Shift(p, |args|), row, args + s.args);
      FieldsSplit(t, s, restricted, names, i, row);
      assert ClauseEscapes(t, r, row, args + s.args) == ClauseEscapes(t, base, row, args + s.args);
    }
    forall t: Tests, row: Row, all: seq<Value>
      ensures ClauseEscapes(t, next, row, all) == ClauseEscapes(t, base, row, all)
    {
      AppendKeepsEscapes(t, r.p, Shift(p, |args|), row, all);
      assert ClauseEscapes(t, r, row, all) == ClauseEscapes(t, base, row, all);
    }
  }

  lemma FieldsSplit(t: Tests, s: RowScope, restricted: map<string, Pred>, names: seq<string>, i: nat, row: Row)
    requires i < |names|
    ensures FieldsAllow(t, s, restricted, names[..i + 1], row) <==>
      FieldsAllow(t, s, restricted, names[..i], row)
      && (names[i] in restricted ==> Eval(t, restricted[names[i]], row, s.args))
  {
    forall j | 0 <= j < i + 1 ensures names[..i + 1][j] == if j < i then names[..i][j] else names[i] { }
  }

  lemma NoFieldMore(r: Clause, base: Clause, s: RowScope, restricted: map<string, Pred>, names: seq<string>, i: nat,
                    args: seq<Value>)
    requires i < |names| && Restricts(r, base, s, restricted, names[..i], args)
    requires names[i] !in restricted || exists j :: 0 <= j < i && names[j] in restricted && restricted[names[j]] == restricted[names[i]]
    ensures Restricts(r, base, s, restricted, names[..i + 1], args)
  {
    forall t: Tests, row: Row
      ensures FieldsAllow(t, s, restricted, names[..i + 1], row) <==> FieldsAllow(t, s, restricted, names[..i], row)
    {
      FieldsSplit(t, s, restricted, names, i, row);
      if names[i] in restricted {
        var j :| 0 <= j < i && names[j] in restricted && restricted[names[j]] == restricted[names[i]];
        assert names[..i][j] == names[j];
      }
    }
  }

  /**
    Appends the predicate of every restricted field once. On an empty clause the
    first of them leaves text that does not parse.
   */
  method AppendFieldPredicates(base: Clause, s: RowScope, restricted: map<string, Pred>, names: seq<string>, args: seq<Value>)
      returns (r: Clause)
    requires forall f :: f in restricted ==> Fits(restricted[f], |s.args|)
    ensures SomeRestricted(restricted, names) && !base.Whole? ==> r == Malformed
    ensures !SomeRestricted(restricted, names) ==> r == base
    ensures base.Whole? ==> r.Whole? && SameEscapes(r, base)
    ensures base.Whole? || !SomeRestricted(restricted, names) ==> Restricts(r, base, s, restricted, names, args)
  {
    r := base;
    var seen: set<Pred> := {};
    NoFieldYet(base, s, restricted, args);
    assert names[..0] == [];
    for i := 0 to |names|
      invariant seen == {} <==> !SomeRestricted(restricted, names[..i])
      invariant forall p :: p in seen <==> exists j :: 0 <= j < i && names[j] in restricted && restricted[names[j]] == p
      invariant seen == {} ==> r == base
      invariant seen != {} && !base.Whole? ==> r == Malformed
      invariant base.Whole? ==> r.Whole?
      invariant base.Whole? ==> SameEscapes(r, base)
      invariant base.Whole? || seen == {} ==> Restricts(r, base, s, restricted, names[..i], args)
    {
      assert names[..i + 1] == names[..i] + [names[i]];
      if names[i] !in restricted || restricted[names[i]] in seen {
        if base.Whole? || seen == {} { NoFieldMore(r, base, s, restricted, names, i, args); }
        assert SomeRestricted(restricted, names[..i]) ==> SomeRestricted(restricted, names[..i + 1]);
        continue;
      }
      if base.Whole? { OneMoreField(r, base, s, restricted, names, i, args); }
      seen := seen + {restricted[names[i]]};
      r := Append(r, Shift(restricted[names[i]], |args|));
      assert names[..i + 1][i] in restricted;
    }
    assert names[..|names|] == names;
  }

  lemma RestrictedHeads(restricted: map<string, Pred>, paths: seq<string>)
    ensures SomeRestricted(restricted, Heads(paths)) <==> exists i :: 0 <= i < |paths| && Head(paths[i]) in restricted
  {
    assert forall i :: 0 <= i < |paths| ==> Heads(paths)[i] == Head(paths[i]);
  }

  /** A read of the fields named by dotted paths, within the scope. */
  method ScopedReadWhere(scope: Option<RowScope>, where: Clause, args: seq<Value>, paths: seq<string>)
      returns (r: Clause, all: seq<Value>)
    requires scope.Some? ==> ScopeFits(scope.value)
    ensures scope.None? ==> r == where && all == args
    ensures scope.Some? ==> all == args + scope.value.args
    ensures scope.Some? ==> Composed(r, scope.value, scope.value.fieldRead, where, args, Heads(paths))
    ensures scope.Some? && !where.Malformed? ==>
      (r.Malformed? <==>
        && where == Empty && (scope.value.where == None || scope.value.where == Some(Yes))
        && exists i :: 0 <= i < |paths| && Head(paths[i]) in scope.value.fieldRead)
  {
    if scope.None? { return where, args; }
    var base := ScopedWhere(scope.value, where, args);
    all := args + scope.value.args;
    r := AppendFieldPredicates(base, scope.value, scope.value.fieldRead, Heads(paths), args);
    RestrictedHeads(scope.value.fieldRead, paths);
  }

  /** A write of the named fields, within the scope; the names may come in any order. */
  method ScopedWriteWhere(scope: Option<RowScope>, where: Clause, args: seq<Value>, input: set<string>)
      returns (r: Clause, all: seq<Value>, ghost names: seq<string>)
    requires scope.Some? ==> ScopeFits(scope.value)
    ensures forall n :: n in names <==> n in input
    ensures scope.None? ==> r == where && all == args
    ensures scope.Some? ==> all == args + scope.value.args
    ensures scope.Some? ==> Composed(r, scope.value, scope.value.fieldWrite, where, args, names)
  {
    var order := AnyOrder(input);
    names := order;
    if scope.None? { r, all := where, args; return; }
    var base := ScopedWhere(scope.value, where, args);
    all := args + scope.value.args;
    r := AppendFieldPredicates(base, scope.value, scope.value.fieldWrite, order, args);
  }

  method AnyOrder(s: set<string>) returns (order: seq<string>)
    ensures forall n :: n in order <==> n in s
  {
    order := [];
    var rest := s;
    while rest != {}
      invariant rest <= s && forall n :: n in order <==> n in s - rest
      decreases rest
    {
      var n :| n in rest;
      order, rest := order + [n], rest - {n};
    }
  }

  /**
    How a clause with scope and field predicates comes out: it does not parse when
    a field predicate is appended to nothing; otherwise it holds for the rows that
    satisfy all its parts and for those that escape from what the field predicates
    are appended to.
   */
  ghost predicate Composed(r: Clause, s: RowScope, restricted: map<string, Pred>, where: Clause, args: seq<Value>,
                           names: seq<string>) {
    var base := ScopedWhere(s, where, args);
    && (r.Malformed? <==> base.Malformed? || (base.Empty? && SomeRestricted(restricted, names)))
    && (base.Whole? ==> r.Whole? && SameEscapes(r, base))
    && (!r.Malformed? ==> Restricts(r, base, s, restricted, names, args))
  }

  /** The parts in the reader's terms: clause, scope and field predicates, each over its own arguments. */
  predicate AllParts(t: Tests, s: RowScope, restricted: map<string, Pred>, where: Clause, args: seq<Value>,
                     names: seq<string>, row: Row) {
    Holds(t, where, row, args) && InScope(t, s, row) && FieldsAllow(t, s, restricted, names, row)
  }

  /** Every composed clause, whatever it is appended to: all its parts, or an escape. */
  lemma ComposedMeans(r: Clause, s: RowScope, restricted: map<string, Pred>, where: Clause, args: seq<Value>,
                      names: seq<string>, t: Tests, row: Row)
    requires Composed(r, s, restricted, where, args, names) && !r.Malformed?
    requires ScopeFits(s) && (where.Whole? ==> Fits(where.p, |args|))
    ensures Holds(t, r, row, args + s.args) <==>
      || ClauseEscapes(t, ScopedWhere(s, where, args), row, args + s.args)
      || AllParts(t, s, restricted, where, args, names, row)
  {
    ScopedWhereConjoins(t, s, where, args, row);
  }

  /**
    A composed clause is the conjunction of its parts at a row exactly when that
    row does not escape, or its fields are allowed anyway.
   */
  lemma ConjoinsIffNoEscape(r: Clause, s: RowScope, restricted: map<string, Pred>, where: Clause, args: seq<Value>,
                            names: seq<string>, t: Tests, row: Row)
    requires Composed(r, s, restricted, where, args, names) && !r.Malformed?
    requires ScopeFits(s) && (where.Whole? ==> Fits(where.p, |args|))
    ensures (Holds(t, r, row, args + s.args) <==> AllParts(t, s, restricted, where, args, names, row)) <==>
      (ClauseEscapes(t, ScopedWhere(s, where, args), row, args + s.args) ==> FieldsAllow(t, s, restricted, names, row))
  {
    var base := ScopedWhere(s, where, args);
    ComposedMeans(r, s, restricted, where, args, names, t, row);
    ScopedWhereConjoins(t, s, where, args, row);
    if ClauseEscapes(t, base, row, args + s.args) { EscapingHolds(t, base.p, row, args + s.args); }
  }

  /** What is appended to something self-delimiting is the conjunction of its parts at every row. */
  lemma ComposedConjoins(r: Clause, s: RowScope, restricted: map<string, Pred>, where: Clause, args: seq<Value>,
                         names: seq<string>, t: Tests, row: Row)
    requires Composed(r, s, restricted, where, args, names) && !r.Malformed?
    requires ScopeFits(s) && (where.Whole? ==> Fits(where.p, |args|))
    requires SelfDelimiting(ScopedWhere(s, where, args))
    ensures Holds(t, r, row, args + s.args) <==> AllParts(t, s, restricted, where, args, names, row)
  {
    ConjoinsIffNoEscape(r, s, restricted, where, args, names, t, row);
  }

  /** Which clauses a scope is combined with make the result self-delimiting. */
  lemma ScopedWhereDelimits(s: RowScope, where: Clause, args: seq<Value>)
    ensures SelfDelimiting(ScopedWhere(s, where, args)) <==>
      if Trivial(s) then SelfDelimiting(where)
      else where.Empty? ==> !s.where.value.Or?
  {
  }

  // ----- Tree predicates on top of a scope

  function WithTreePredicate(scope: Option<RowScope>, p: Pred, args: seq<Value>): RowScope {
    var s := if scope.Some? then scope.value else RowScope(Some(Yes), [], map[], map[]);
    var where := if s.where.None? then Yes else s.where.value;
    s.(where := Some(And(Paren(where), Paren(Shift(p, |s.args|)))), args := s.args + args)
  }

  /** A scope with a tree predicate allows what both allow; its field predicates keep their meaning. */
  lemma TreePredicateConjoins(scope: Option<RowScope>, p: Pred, args: seq<Value>, t: Tests, row: Row)
    requires (scope.Some? ==> ScopeFits(scope.value)) && Fits(p, |args|)
    ensures var s := WithTreePredicate(scope, p, args);
      && ScopeFits(s) && SelfDelimiting(Whole(s.where.value))
      && (InScope(t, s, row) <==> (scope.Some? ==> InScope(t, scope.value, row)) && Eval(t, p, row, args))
      && (forall f :: f in s.fieldRead ==>
            scope.Some? && f in scope.value.fieldRead && s.fieldRead[f] == scope.value.fieldRead[f]
            && Eval(t, s.fieldRead[f], row, s.args) == Eval(t, s.fieldRead[f], row, scope.value.args))
  {
    var was := if scope.Some? then scope.value else RowScope(Some(Yes), [], map[], map[]);
    var where := if was.where.None? then Yes else was.where.value;
    var s := WithTreePredicate(scope, p, args);
    ShiftMeansSame(t, p, row, was.args, args);
    PrefixSurvives(t, where, row, was.args, args);
    BothMeans(t, where, Shift(p, |was.args|), row, s.args);
    ShiftFits(p, |was.args|, |args|);
    FitsMore(where, |was.args|, |s.args|);
    forall f | f in s.fieldRead
      ensures Fits(s.fieldRead[f], |s.args|)
      ensures Eval(t, s.fieldRead[f], row, s.args) == Eval(t, s.fieldRead[f], row, was.args)
    {
      FitsMore(s.fieldRead[f], |was.args|, |s.args|);
      PrefixSurvives(t, s.fieldRead[f], row, was.args, args);
    }
    forall f | f in s.fieldWrite ensures Fits(s.fieldWrite[f], |s.args|) {
      FitsMore(s.fieldWrite[f], |was.args|, |s.args|);
    }
  }

  lemma {:induction false} FitsMore(p: Pred, m: nat, n: nat)
    requires Fits(p, m) && m <= n
    ensures Fits(p, n)
  {
    match p
    case Test(name, terms) => assert forall i :: 0 <= i < |terms| ==> TermFits(terms[i], m);
    case And(x, y) => FitsMore(x, m, n); FitsMore(y, m, n);
    case Or(x, y) => FitsMore(x, m, n); FitsMore(y, m, n);
    case Paren(q) => FitsMore(q, m, n);
    case Over(image, q) =>
      assert forall c :: c in image ==> TermFits(image[c], m);
      FitsMore(q, m, n);
    case _ =>
  }

  datatype TreePart = TreePart(p: Pred, args: seq<Value>)

  function Stacked(scope: RowScope, parts: seq<TreePart>): RowScope {
    if parts == [] then scope
    else WithTreePredicate(Some(Stacked(scope, parts[..|parts| - 1])), parts[|parts| - 1].p, parts[|parts| - 1].args)
  }

  /** Any stack of tree predicates on a scope means the conjunction of the scope and all of them. */
  lemma {:induction false} StackConjoins(scope: RowScope, parts: seq<TreePart>, t: Tests, row: Row)
    requires ScopeFits(scope) && forall i :: 0 <= i < |parts| ==> Fits(parts[i].p, |parts[i].args|)
    ensures ScopeFits(Stacked(scope, parts))
    ensures InScope(t, Stacked(scope, parts), row) <==>
      InScope(t, scope, row) && forall i :: 0 <= i < |parts| ==> Eval(t, parts[i].p, row, parts[i].args)
  {
    if parts != [] {
      var front, last := parts[..|parts| - 1], parts[|parts| - 1];
      assert forall i :: 0 <= i < |front| ==> front[i] == parts[i];
      StackConjoins(scope, front, t, row);
      TreePredicateConjoins(Some(Stacked(scope, front)), last.p, last.args, t, row);
    }
  }

  /** Outside a search the parent field's read predicate joins the scope's own text. */
  function WithParentRead(s: RowScope, parentField: string): RowScope {
    if parentField in s.fieldRead && s.where.Some?
    then s.(where := Some(AppendAnd(s.where.value, s.fieldRead[parentField]))) else s
  }

  lemma ParentReadConjoins(scope: Option<RowScope>, p: Pred, args: seq<Value>, parentField: string, t: Tests, row: Row)
    requires (scope.Some? ==> ScopeFits(scope.value)) && Fits(p, |args|)
    ensures var s := WithTreePredicate(scope, p, args);
      InScope(t, WithParentRead(s, parentField), row) <==>
        InScope(t, s, row) && (parentField in s.fieldRead ==> Eval(t, s.fieldRead[parentField], row, s.args))
  {
    var s := WithTreePredicate(scope, p, args);
    if parentField in s.fieldRead { AppendMeans(t, s.where.value, s.fieldRead[parentField], row, s.args); }
  }

  // ----- Scoped writes

  /** The columns a statement writes; the values are its first arguments. */
  datatype Mutation = Mutation(columns: seq<string>, values: seq<Value>)

  predicate ValidMutation(m: Mutation) {
    && |m.columns| == |m.values|
    && forall i, j :: 0 <= i < j < |m.columns| ==> m.columns[i] != m.columns[j]
  }

  /** The place of a column among those written, from 1; 0 when it is not written. */
  function PlaceOf(columns: seq<string>, c: string): nat {
    if columns == [] then 0
    else if columns[|columns| - 1] == c then |columns|
    else PlaceOf(columns[..|columns| - 1], c)
  }

  lemma {:induction false} PlaceOfExact(columns: seq<string>, c: string)
    ensures PlaceOf(columns, c) <= |columns|
    ensures PlaceOf(columns, c) == 0 <==> c !in columns
    ensures PlaceOf(columns, c) > 0 ==> columns[PlaceOf(columns, c) - 1] == c
  {
    if columns != [] { PlaceOfExact(columns[..|columns| - 1], c); }
  }

  lemma {:induction false} PlaceOfWritten(columns: seq<string>, i: nat)
    requires i < |columns| && forall j, k :: 0 <= j < k < |columns| ==> columns[j] != columns[k]
    ensures PlaceOf(columns, columns[i]) == i + 1
  {
    if i < |columns| - 1 { PlaceOfWritten(columns[..|columns| - 1], i); }
  }

  function ProposedColumns(stored: seq<string>): set<string> {
    {"name", "owner_id"} + set i | 0 <= i < |stored| :: stored[i]
  }

  function UpdateImage(m: Mutation, stored: seq<string>): map<string, Term> {
    map c | c in ProposedColumns(stored) :: if PlaceOf(m.columns, c) > 0 then Param(PlaceOf(m.columns, c)) else Column(c)
  }

  /** The scope on the row as it will be, or nothing when the scope is trivial. */
  function ProposedUpdatePredicate(s: RowScope, m: Mutation, stored: seq<string>, offset: nat): Option<Pred> {
    if Trivial(s) then None else Some(Over(UpdateImage(m, stored), Shift(s.where.value, offset)))
  }

  /** The stored row after the update. */
  function Updated(m: Mutation, row: Row, now: Value): Row {
    map c | c in row.Keys + {"updated_at"} + (set i | 0 <= i < |m.columns| :: m.columns[i]) ::
      if PlaceOf(m.columns, c) > 0 && PlaceOf(m.columns, c) <= |m.values| then m.values[PlaceOf(m.columns, c) - 1]
      else if c == "updated_at" then now
      else if c in row then row[c] else Null
  }

  /** The update writes what was submitted, stamps the row, and leaves the other columns alone. */
  lemma UpdatedExact(m: Mutation, row: Row, now: Value, i: nat, c: string)
    requires ValidMutation(m)
    ensures i < |m.columns| ==> Writes(Updated(m, row, now), m.columns[i], m.values[i])
    ensures "updated_at" !in m.columns ==> Writes(Updated(m, row, now), "updated_at", now)
    ensures c in row && c !in m.columns && c != "updated_at" ==> Writes(Updated(m, row, now), c, row[c])
  {
    if i < |m.columns| { PlaceOfWritten(m.columns, i); }
    PlaceOfExact(m.columns, "updated_at");
    PlaceOfExact(m.columns, c);
  }

  predicate Writes(row: Row, column: string, v: Value) {
    column in row && row[column] == v
  }

  predicate TermWithin(term: Term, columns: set<string>) {
    term.Column? ==> term.name in columns
  }

  /** The predicate looks at no other columns. */
  predicate Within(p: Pred, columns: set<string>) {
    match p
    case Test(_, terms) => forall i :: 0 <= i < |terms| ==> TermWithin(terms[i], columns)
    case And(a, b) => Within(a, columns) && Within(b, columns)
    case Or(a, b) => Within(a, columns) && Within(b, columns)
    case Paren(q) => Within(q, columns)
    case Over(image, q) => (forall c :: c in image ==> TermWithin(image[c], columns)) && Within(q, image.Keys)
    case _ => true
  }

  predicate AgreeOn(a: Row, b: Row, columns: set<string>) {
    forall c :: c in columns ==> TermValue(Column(c), a, []) == TermValue(Column(c), b, [])
  }

  lemma {:induction false} EvalLocal(t: Tests, p: Pred, a: Row, b: Row, columns: set<string>, args: seq<Value>)
    requires Within(p, columns) && AgreeOn(a, b, columns)
    ensures Eval(t, p, a, args) == Eval(t, p, b, args)
  {
    match p
    case Test(name, terms) =>
      forall i | 0 <= i < |terms| ensures TermValue(terms[i], a, args) == TermValue(terms[i], b, args) {
        assert TermWithin(terms[i], columns);
        if terms[i].Column? { assert terms[i].name in columns; }
      }
      assert Values(terms, a, args) == Values(terms, b, args);
    case And(x, y) => EvalLocal(t, x, a, b, columns, args); EvalLocal(t, y, a, b, columns, args);
    case Or(x, y) => EvalLocal(t, x, a, b, columns, args); EvalLocal(t, y, a, b, columns, args);
    case Paren(q) => EvalLocal(t, q, a, b, columns, args);
    case Over(image, q) =>
      forall c | c in image ensures TermValue(image[c], a, args) == TermValue(image[c], b, args) {
        assert TermWithin(image[c], columns);
        if image[c].Column? { assert image[c].name in columns; }
      }
      assert ImageRow(image, a, args) == ImageRow(image, b, args);
    case _ =>
  }

  /** The where clause of a scoped update: the id, the scope and the field predicates on the old row, the scope on the new one. */
  method UpdateWhere(s: RowScope, m: Mutation, stored: seq<string>, id: Value, input: set<string>)
      returns (r: Clause, args: seq<Value>, ghost names: seq<string>)
    requires ScopeFits(s) && ValidMutation(m)
    ensures forall n :: n in names <==> n in input
    ensures r.Whole? && args == m.values + [id] + s.args
    ensures forall t: Tests, row: Row :: Holds(t, r, row, args) <==> Admitted(t, s, m, stored, id, names, row)
  {
    var own := m.values + [id];
    var where := Whole(Test("id-is", [Column("id"), Param(|own|)]));
    r, args, names := ScopedWriteWhere(Some(s), where, own, input);
    ghost var front := r;
    var offset := |args| - |s.args|;
    var proposed := ProposedUpdatePredicate(s, m, stored, offset);
    forall t: Tests, row: Row
      ensures Holds(t, front, row, args) <==>
        Holds(t, where, row, own) && InScope(t, s, row) && FieldsAllow(t, s, s.fieldWrite, names, row)
    {
      ComposedConjoins(front, s, s.fieldWrite, where, own, names, t, row);
    }
    if proposed.Some? { r := Append(r, proposed.value); }
    forall t: Tests, row: Row ensures Holds(t, r, row, args) <==> Admitted(t, s, m, stored, id, names, row) {
      IdHolds(t, where, own, row, id);
      if proposed.Some? {
        NothingEscapes(front, s, s.fieldWrite, where, own, names, t, row, args);
        DelimitedAppend(t, front, proposed.value, row, args);
        ProposedMeans(t, s, m, stored, id, row);
      }
    }
  }

  lemma NothingEscapes(r: Clause, s: RowScope, restricted: map<string, Pred>, where: Clause, args: seq<Value>,
                       names: seq<string>, t: Tests, row: Row, all: seq<Value>)
    requires Composed(r, s, restricted, where, args, names) && !r.Malformed?
    requires var base := ScopedWhere(s, where, args); base.Whole? && SelfDelimiting(base)
    ensures r.Whole? && !ClauseEscapes(t, r, row, all)
  {
    assert ClauseEscapes(t, r, row, all) == ClauseEscapes(t, ScopedWhere(s, where, args), row, all);
  }

  lemma DelimitedAppend(t: Tests, front: Clause, q: Pred, row: Row, args: seq<Value>)
    requires front.Whole? && !ClauseEscapes(t, front, row, args)
    ensures Holds(t, Append(front, q), row, args) <==> Holds(t, front, row, args) && Eval(t, q, row, args)
  {
    AppendMeans(t, front.p, q, row, args);
  }

  lemma IdHolds(t: Tests, where: Clause, own: seq<Value>, row: Row, id: Value)
    requires own != [] && own[|own| - 1] == id && where == Whole(Test("id-is", [Column("id"), Param(|own|)]))
    ensures Holds(t, where, row, own) <==> IdIs(t, row, id)
  {
    assert Values(where.p.terms, row, own) == [TermValue(Column("id"), row, []), id];
  }

  predicate IdIs(t: Tests, row: Row, id: Value) {
    t("id-is", [TermValue(Column("id"), row, []), id])
  }

  /** The row as the update proposes it, in the columns a scope may use. */
  function Proposed(m: Mutation, stored: seq<string>, row: Row): Row {
    ImageRow(UpdateImage(m, stored), row, m.values)
  }

  /** Written columns have the written values, the others the old ones. */
  lemma ProposedExact(m: Mutation, stored: seq<string>, row: Row)
    requires ValidMutation(m)
    ensures Proposed(m, stored, row).Keys == ProposedColumns(stored)
    ensures forall i :: 0 <= i < |m.columns| && m.columns[i] in ProposedColumns(stored) ==>
      Proposed(m, stored, row)[m.columns[i]] == m.values[i]
    ensures forall c :: c in ProposedColumns(stored) && c !in m.columns ==>
      Proposed(m, stored, row)[c] == TermValue(Column(c), row, [])
    ensures forall c :: c in ProposedColumns(stored) && c !in m.columns ==>
      Proposed(m, stored, row)[c] == if c in row then row[c] else Null
  {
    forall i | 0 <= i < |m.columns| ensures PlaceOf(m.columns, m.columns[i]) == i + 1 { PlaceOfWritten(m.columns, i); }
    forall c | c !in m.columns ensures PlaceOf(m.columns, c) == 0 { PlaceOfExact(m.columns, c); }
  }

  predicate Admitted(t: Tests, s: RowScope, m: Mutation, stored: seq<string>, id: Value, names: seq<string>, row: Row) {
    && IdIs(t, row, id) && InScope(t, s, row) && FieldsAllow(t, s, s.fieldWrite, names, row)
    && InScope(t, s, Proposed(m, stored, row))
  }

  lemma ProposedMeans(t: Tests, s: RowScope, m: Mutation, stored: seq<string>, id: Value, row: Row)
    requires ScopeFits(s) && ValidMutation(m) && !Trivial(s)
    ensures var own := m.values + [id];
      Eval(t, ProposedUpdatePredicate(s, m, stored, |own|).value, row, own + s.args) <==>
        InScope(t, s, Proposed(m, stored, row))
  {
    var own := m.values + [id];
    var image := UpdateImage(m, stored);
    forall c | c in image ensures TermValue(image[c], row, own + s.args) == TermValue(image[c], row, m.values) {
      PlaceOfExact(m.columns, c);
    }
    assert ImageRow(image, row, own + s.args) == ImageRow(image, row, m.values);
    ShiftMeansSame(t, s.where.value, Proposed(m, stored, row), own, s.args);
  }

  lemma UpdatedAsProposed(m: Mutation, stored: seq<string>, row: Row, now: Value, c: string)
    requires ValidMutation(m) && c in ProposedColumns(stored) && c != "updated_at"
    ensures TermValue(Column(c), Proposed(m, stored, row), []) == TermValue(Column(c), Updated(m, row, now), [])
  {
    PlaceOfExact(m.columns, c);
    if PlaceOf(m.columns, c) > 0 { assert m.columns[PlaceOf(m.columns, c) - 1] == c; }
  }

  /**
    A scoped update changes a row only if the row is in scope before, and then it
    is in scope after, provided the scope looks only at columns the proposed row has.
   */
  lemma UpdateStaysInScope(t: Tests, s: RowScope, m: Mutation, stored: seq<string>, row: Row, now: Value)
    requires ValidMutation(m) && (s.where.Some? ==> Within(s.where.value, ProposedColumns(stored)))
    requires "updated_at" !in ProposedColumns(stored)
    ensures InScope(t, s, Proposed(m, stored, row)) <==> InScope(t, s, Updated(m, row, now))
  {
    var a, b := Proposed(m, stored, row), Updated(m, row, now);
    forall c | c in ProposedColumns(stored) ensures TermValue(Column(c), a, []) == TermValue(Column(c), b, []) {
      UpdatedAsProposed(m, stored, row, now, c);
    }
    if s.where.Some? { EvalLocal(t, s.where.value, a, b, ProposedColumns(stored), s.args); }
  }

  // ----- Scoped creates

  /** The row a create proposes: written values, then defaults, then null. */
  function CreateImage(m: Mutation, defaults: map<string, Value>, stored: seq<string>): map<string, Term> {
    map c | c in ProposedColumns(stored) ::
      if PlaceOf(m.columns, c) > 0 then Param(PlaceOf(m.columns, c))
      else if c in defaults then Const(defaults[c]) else Const(Null)
  }

  /** Written columns have the written values, the others their defaults or nothing. */
  lemma CreatedExact(m: Mutation, defaults: map<string, Value>, stored: seq<string>)
    requires ValidMutation(m)
    ensures var row := ImageRow(CreateImage(m, defaults, stored), map[], m.values);
      && row.Keys == ProposedColumns(stored)
      && (forall i :: 0 <= i < |m.columns| && m.columns[i] in ProposedColumns(stored) ==> row[m.columns[i]] == m.values[i])
      && (forall c :: c in ProposedColumns(stored) && c !in m.columns ==>
            row[c] == if c in defaults then defaults[c] else Null)
  {
    forall i | 0 <= i < |m.columns| ensures PlaceOf(m.columns, m.columns[i]) == i + 1 { PlaceOfWritten(m.columns, i); }
    forall c | c !in m.columns ensures PlaceOf(m.columns, c) == 0 { PlaceOfExact(m.columns, c); }
  }

  function AllOf(ps: seq<Pred>): Pred
    requires ps != []
  {
    if |ps| == 1 then Paren(ps[0]) else And(AllOf(ps[..|ps| - 1]), Paren(ps[|ps| - 1]))
  }

  lemma {:induction false} AllOfMeans(t: Tests, ps: seq<Pred>, row: Row, args: seq<Value>)
    requires ps != []
    ensures Eval(t, AllOf(ps), row, args) <==> forall i :: 0 <= i < |ps| ==> Eval(t, ps[i], row, args)
  {
    if |ps| > 1 {
      var front := ps[..|ps| - 1];
      AllOfMeans(t, front, row, args);
      assert forall i :: 0 <= i < |front| ==> front[i] == ps[i];
    }
  }

  /** Accepts a new row exactly when it is in scope and every restricted field it writes allows it. */
  method ValidateProposedScope(t: Tests, s: RowScope, m: Mutation, defaults: map<string, Value>, stored: seq<string>,
                               input: set<string>) returns (allowed: bool)
    requires ScopeFits(s) && ValidMutation(m)
    ensures var row := ImageRow(CreateImage(m, defaults, stored), map[], m.values);
      allowed <==> InScope(t, s, row) && forall f :: f in input && f in s.fieldWrite ==> Eval(t, s.fieldWrite[f], row, s.args)
  {
    if Trivial(s) && s.fieldWrite == map[] { return true; }
    var image := CreateImage(m, defaults, stored);
    ghost var row := ImageRow(image, map[], m.values);
    var ps := GatherPredicates(t, s, row, input);
    var where := Shift(AllOf(ps), |m.values|);
    AllOfFits(ps, |s.args|);
    CreateImageRow(m, defaults, stored, s.args);
    AllOfMeans(t, ps, row, s.args);
    ShiftMeansSame(t, AllOf(ps), row, m.values, s.args);
    allowed := Eval(t, Over(image, where), map[], m.values + s.args);
  }

  /** The scope's row predicate and the predicates of the restricted fields that are written. */
  method GatherPredicates(ghost t: Tests, s: RowScope, ghost row: Row, input: set<string>) returns (ps: seq<Pred>)
    requires ScopeFits(s)
    ensures |ps| > 0 && forall i :: 0 <= i < |ps| ==> Fits(ps[i], |s.args|)
    ensures (forall i :: 0 <= i < |ps| ==> Eval(t, ps[i], row, s.args)) <==>
      InScope(t, s, row) && forall f :: f in input && f in s.fieldWrite ==> Eval(t, s.fieldWrite[f], row, s.args)
  {
    ps := [if s.where.None? then Yes else s.where.value];
    var rest := input;
    while rest != {}
      invariant rest <= input && |ps| > 0
      invariant ps[0] == if s.where.None? then Yes else s.where.value
      invariant forall i :: 0 <= i < |ps| ==> Fits(ps[i], |s.args|)
      invariant (forall i :: 0 <= i < |ps| ==> Eval(t, ps[i], row, s.args)) <==>
        InScope(t, s, row) && forall f :: f in input - rest && f in s.fieldWrite ==> Eval(t, s.fieldWrite[f], row, s.args)
      decreases rest
    {
      var f :| f in rest;
      rest := rest - {f};
      if f in s.fieldWrite {
        ghost var was := ps;
        ps := ps + [s.fieldWrite[f]];
        assert forall i :: 0 <= i < |was| ==> ps[i] == was[i];
        assert ps[|was|] == s.fieldWrite[f];
      }
    }
  }

  lemma {:induction false} AllOfFits(ps: seq<Pred>, n: nat)
    requires ps != [] && forall i :: 0 <= i < |ps| ==> Fits(ps[i], n)
    ensures Fits(AllOf(ps), n)
  {
    if |ps| > 1 {
      var front := ps[..|ps| - 1];
      assert forall i :: 0 <= i < |front| ==> front[i] == ps[i];
      AllOfFits(front, n);
    }
  }

  lemma CreateImageRow(m: Mutation, defaults: map<string, Value>, stored: seq<string>, more: seq<Value>)
    requires ValidMutation(m)
    ensures ImageRow(CreateImage(m, defaults, stored), map[], m.values + more)
         == ImageRow(CreateImage(m, defaults, stored), map[], m.values)
  {
    var image := CreateImage(m, defaults, stored);
    forall c | c in image ensures TermValue(image[c], map[], m.values + more) == TermValue(image[c], map[], m.values) {
      PlaceOfExact(m.columns, c);
    }
  }
}
