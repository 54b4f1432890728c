/**
  Row scopes as they are compiled from an actor's grants, and what an unfiltered
  read within such a scope lets through.
 */
module Grants {
  import opened Wrappers
  import opened Scope

  /** One grant: the rows it covers, and the fields it does not allow to be read or written. */
  datatype Grant = Grant(when: Pred, denyRead: set<string>, denyWrite: set<string>)

  // ----- Compiling

  /** Alternatives, each between parentheses. */
  function OrPredicate(parts: seq<Pred>): Pred {
    if parts == [] then No
    else if |parts| == 1 then Paren(parts[0])
    else Or(Paren(parts[0]), OrPredicate(parts[1..]))
  }

  function Whens(grants: seq<Grant>): seq<Pred> {
    seq(|grants|, i requires 0 <= i < |grants| => grants[i].when)
  }

  function Denied(grants: seq<Grant>): set<string> {
    set i, f | 0 <= i < |grants| && f in grants[i].denyRead + grants[i].denyWrite :: f
  }

  /** The grants under which a field may be read, or read and written. */
  function Allowing(grants: seq<Grant>, f: string, write: bool): seq<Pred> {
    if grants == [] then []
    else
      var g := grants[|grants| - 1];
      Allowing(grants[..|grants| - 1], f, write)
      + if f in g.denyRead || (write && f in g.denyWrite) then [] else [g.when]
  }

  function FieldPredicates(grants: seq<Grant>, write: bool): map<string, Pred> {
    map f | f in Denied(grants) :: OrPredicate(Allowing(grants, f, write))
  }

  function Compiled(grants: seq<Grant>, args: seq<Value>): RowScope {
    RowScope(Some(OrPredicate(Whens(grants))), args, FieldPredicates(grants, false), FieldPredicates(grants, true))
  }

  method AllowedBy(grants: seq<Grant>, f: string) returns (read: seq<Pred>, write: seq<Pred>)
    ensures read == Allowing(grants, f, false) && write == Allowing(grants, f, true)
  {
    read, write := [], [];
    for i := 0 to |grants|
      invariant read == Allowing(grants[..i], f, false) && write == Allowing(grants[..i], f, true)
    {
      assert grants[..i + 1][..i] == grants[..i];
      var g := grants[i];
      if f !in g.denyRead { read := read + [g.when]; }
      if f !in g.denyRead && f !in g.denyWrite { write := write + [g.when]; }
    }
    assert grants[..|grants|] == grants;
  }

  method RestrictedFields(grants: seq<Grant>) returns (names: set<string>)
    ensures names == Denied(grants)
  {
    names := {};
    for i := 0 to |grants|
      invariant forall f :: f in names <==> exists k :: 0 <= k < i && f in grants[k].denyRead + grants[k].denyWrite
    {
      names := names + grants[i].denyRead + grants[i].denyWrite;
    }
  }

  method FieldScopes(grants: seq<Grant>, names: set<string>) returns (read: map<string, Pred>, write: map<string, Pred>)
    ensures read == map f | f in names :: OrPredicate(Allowing(grants, f, false))
    ensures write == map f | f in names :: OrPredicate(Allowing(grants, f, true))
  {
    read, write := map[], map[];
    var rest := names;
    while rest != {}
      invariant rest <= names && read.Keys == names - rest == write.Keys
      invariant forall f :: f in read ==> read[f] == OrPredicate(Allowing(grants, f, false))
      invariant forall f :: f in write ==> write[f] == OrPredicate(Allowing(grants, f, true))
      decreases rest
    {
      assert (forall x :: x !in rest) ==> rest == {};
      var f :| f in rest;
      var r, w := AllowedBy(grants, f);
      read, write, rest := read[f := OrPredicate(r)], write[f := OrPredicate(w)], rest - {f};
    }
  }

  /** The scope of an actor: an administrator sees everything, without grants nobody sees anything. */
  method RecordScope(administrator: bool, grants: seq<Grant>, args: seq<Value>) returns (s: RowScope)
    ensures s == if administrator then RowScope(Some(Yes), [], map[], map[])
                 else if grants == [] then RowScope(Some(No), [], map[], map[]) else Compiled(grants, args)
  {
    if administrator { return RowScope(Some(Yes), [], map[], map[]); }
    if grants == [] { return RowScope(Some(No), [], map[], map[]); }
    var predicates: seq<Pred> := [];
    for i := 0 to |grants|
      invariant predicates == Whens(grants)[..i]
    {
      predicates := predicates + [grants[i].when];
    }
    var names := RestrictedFields(grants);
    assert predicates == Whens(grants);
    var read, write := FieldScopes(grants, names);
    return RowScope(Some(OrPredicate(predicates)), args, read, write);
  }

  // ----- What a compiled scope means

  predicate GrantsFit(grants: seq<Grant>, n: nat) {
    forall i :: 0 <= i < |grants| ==> Fits(grants[i].when, n)
  }

  predicate Covers(t: Tests, g: Grant, row: Row, args: seq<Value>) {
    Eval(t, g.when, row, args)
  }

  /** Some grant other than the last covers the row. */
  predicate EarlierCovers(t: Tests, grants: seq<Grant>, row: Row, args: seq<Value>) {
    exists i :: 0 <= i < |grants| - 1 && Covers(t, grants[i], row, args)
  }

  /** Some grant that covers the row lets the field be read. */
  predicate Readable(t: Tests, grants: seq<Grant>, f: string, row: Row, args: seq<Value>) {
    exists i :: 0 <= i < |grants| && f !in grants[i].denyRead && Covers(t, grants[i], row, args)
  }

  lemma {:induction false} OrMeans(t: Tests, parts: seq<Pred>, row: Row, args: seq<Value>)
    ensures Eval(t, OrPredicate(parts), row, args) <==> exists i :: 0 <= i < |parts| && Eval(t, parts[i], row, args)
    ensures Escapes(t, OrPredicate(parts), row, args) <==>
      exists i :: 0 <= i < |parts| - 1 && Eval(t, parts[i], row, args)
  {
    if |parts| > 1 {
      var rest := parts[1..];
      OrMeans(t, rest, row, args);
      assert forall i :: 0 <= i < |rest| ==> rest[i] == parts[i + 1];
      assert forall i :: 1 <= i < |parts| ==> parts[i] == rest[i - 1];
      assert Eval(t, Paren(parts[0]), row, args) == Eval(t, parts[0], row, args);
    }
  }

  lemma {:induction false} OrFits(parts: seq<Pred>, n: nat)
    requires forall i :: 0 <= i < |parts| ==> Fits(parts[i], n)
    ensures Fits(OrPredicate(parts), n)
  {
    if |parts| > 1 {
      assert forall i :: 0 <= i < |parts| - 1 ==> parts[1..][i] == parts[i + 1];
      OrFits(parts[1..], n);
    }
  }

  lemma {:induction false} AllowingExact(grants: seq<Grant>, f: string, write: bool, p: Pred)
    ensures p in Allowing(grants, f, write) <==>
      exists i :: 0 <= i < |grants| && p == grants[i].when
               && f !in grants[i].denyRead && (write ==> f !in grants[i].denyWrite)
  {
    if grants != [] {
      var front := grants[..|grants| - 1];
      AllowingExact(front, f, write, p);
      assert forall i :: 0 <= i < |front| ==> front[i] == grants[i];
    }
  }

  lemma CompiledFits(grants: seq<Grant>, args: seq<Value>)
    requires GrantsFit(grants, |args|)
    ensures ScopeFits(Compiled(grants, args))
  {
    OrFits(Whens(grants), |args|);
    forall f, write: bool ensures Fits(OrPredicate(Allowing(grants, f, write)), |args|) {
      var parts := Allowing(grants, f, write);
      forall i | 0 <= i < |parts| ensures Fits(parts[i], |args|) { AllowingExact(grants, f, write, parts[i]); }
      OrFits(parts, |args|);
    }
  }

  /** Some grant that covers the row denies the field neither for reading nor for writing. */
  predicate Writable(t: Tests, grants: seq<Grant>, f: string, row: Row, args: seq<Value>) {
    exists i :: 0 <= i < |grants| && f !in grants[i].denyRead && f !in grants[i].denyWrite && Covers(t, grants[i], row, args)
  }

  lemma AllowingMeans(t: Tests, grants: seq<Grant>, f: string, write: bool, row: Row, args: seq<Value>)
    ensures Eval(t, OrPredicate(Allowing(grants, f, write)), row, args) <==>
      if write then Writable(t, grants, f, row, args) else Readable(t, grants, f, row, args)
  {
    var parts := Allowing(grants, f, write);
    OrMeans(t, parts, row, args);
    forall i | 0 <= i < |grants| && f !in grants[i].denyRead && (write ==> f !in grants[i].denyWrite)
      ensures grants[i].when in parts
    {
      AllowingExact(grants, f, write, grants[i].when);
    }
    if k :| 0 <= k < |parts| && Eval(t, parts[k], row, args) {
      AllowingExact(grants, f, write, parts[k]);
      var i :| 0 <= i < |grants| && parts[k] == grants[i].when && f !in grants[i].denyRead
               && (write ==> f !in grants[i].denyWrite);
      assert Covers(t, grants[i], row, args);
    }
  }

  /** A field is restricted exactly when some grant denies it, for reading or for writing. */
  lemma RestrictedIffDenied(grants: seq<Grant>, args: seq<Value>, f: string)
    ensures f in Compiled(grants, args).fieldRead <==> f in Compiled(grants, args).fieldWrite
    ensures f in Compiled(grants, args).fieldRead <==>
      exists i :: 0 <= i < |grants| && (f in grants[i].denyRead || f in grants[i].denyWrite)
  {
    if i :| 0 <= i < |grants| && (f in grants[i].denyRead || f in grants[i].denyWrite) {
      assert f in grants[i].denyRead + grants[i].denyWrite;
    }
  }

  /** A restricted field may be read in a row exactly when a grant that covers the row does not deny it. */
  lemma FieldReadMeans(t: Tests, grants: seq<Grant>, f: string, row: Row, args: seq<Value>)
    requires f in Denied(grants)
    ensures Eval(t, Compiled(grants, args).fieldRead[f], row, args) <==> Readable(t, grants, f, row, args)
  {
    AllowingMeans(t, grants, f, false, row, args);
  }

  /** It may be written exactly when a grant that covers the row denies it neither for reading nor for writing. */
  lemma FieldWriteMeans(t: Tests, grants: seq<Grant>, f: string, row: Row, args: seq<Value>)
    requires f in Denied(grants)
    ensures Eval(t, Compiled(grants, args).fieldWrite[f], row, args) <==> Writable(t, grants, f, row, args)
  {
    AllowingMeans(t, grants, f, true, row, args);
  }

  /** Some grant covers the row. */
  predicate Covered(t: Tests, grants: seq<Grant>, row: Row, args: seq<Value>) {
    exists i :: 0 <= i < |grants| && Covers(t, grants[i], row, args)
  }

  /** In a covered row, restricted or not, a field passes exactly when it is readable, or writable. */
  lemma FieldPasses(t: Tests, grants: seq<Grant>, f: string, row: Row, args: seq<Value>)
    requires Covered(t, grants, row, args)
    ensures var s := Compiled(grants, args);
      && ((f in s.fieldRead ==> Eval(t, s.fieldRead[f], row, args)) <==> Readable(t, grants, f, row, args))
      && ((f in s.fieldWrite ==> Eval(t, s.fieldWrite[f], row, args)) <==> Writable(t, grants, f, row, args))
  {
    RestrictedIffDenied(grants, args, f);
    if f in Denied(grants) {
      FieldReadMeans(t, grants, f, row, args);
      FieldWriteMeans(t, grants, f, row, args);
    } else {
      var i :| 0 <= i < |grants| && Covers(t, grants[i], row, args);
      assert f !in grants[i].denyRead && f !in grants[i].denyWrite;
    }
  }

  lemma WhensMean(t: Tests, grants: seq<Grant>, row: Row, args: seq<Value>)
    ensures InScope(t, Compiled(grants, args), row) <==> Covered(t, grants, row, args)
    ensures Escapes(t, OrPredicate(Whens(grants)), row, args) <==> EarlierCovers(t, grants, row, args)
  {
    var parts := Whens(grants);
    OrMeans(t, parts, row, args);
    assert forall i :: 0 <= i < |grants| ==> Eval(t, parts[i], row, args) == Covers(t, grants[i], row, args);
  }

  lemma FieldsReadable(t: Tests, grants: seq<Grant>, names: seq<string>, row: Row, args: seq<Value>)
    requires Covered(t, grants, row, args)
    ensures FieldsAllow(t, Compiled(grants, args), Compiled(grants, args).fieldRead, names, row)
       <==> forall k :: 0 <= k < |names| ==> Readable(t, grants, names[k], row, args)
  {
    forall k | 0 <= k < |names|
      ensures (names[k] in Compiled(grants, args).fieldRead ==>
                Eval(t, Compiled(grants, args).fieldRead[names[k]], row, args)) <==> Readable(t, grants, names[k], row, args)
    {
      FieldPasses(t, grants, names[k], row, args);
    }
  }

  // ----- Reads within a compiled scope

  /** What a read has to let through: covered rows in which every named field may be read. */
  predicate ShouldRead(t: Tests, grants: seq<Grant>, names: seq<string>, row: Row, args: seq<Value>) {
    Covered(t, grants, row, args) && forall k :: 0 <= k < |names| ==> Readable(t, grants, names[k], row, args)
  }

  /**
    A read without filters lets a row through exactly when some grant but the last
    covers it, or it should be let through.
   */
  method UnfilteredRead(grants: seq<Grant>, args: seq<Value>, paths: seq<string>) returns (r: Clause, all: seq<Value>)
    requires grants != [] && GrantsFit(grants, |args|)
    ensures r.Whole? && all == args
    ensures forall t: Tests, row: Row :: Holds(t, r, row, all) <==>
      EarlierCovers(t, grants, row, args) || ShouldRead(t, grants, Heads(paths), row, args)
  {
    var s := RecordScope(false, grants, args);
    CompiledFits(grants, args);
    r, all := ScopedReadWhere(Some(s), Empty, [], paths);
    assert [] + args == args;
    forall t: Tests, row: Row
      ensures Holds(t, r, row, all) <==>
        EarlierCovers(t, grants, row, args) || ShouldRead(t, grants, Heads(paths), row, args)
    {
      UnfilteredMeans(r, grants, args, Heads(paths), t, row);
    }
  }

  lemma UnfilteredMeans(r: Clause, grants: seq<Grant>, args: seq<Value>, names: seq<string>, t: Tests, row: Row)
    requires grants != [] && GrantsFit(grants, |args|)
    requires var s := Compiled(grants, args);
      Composed(r, s, s.fieldRead, Empty, [], names)
    ensures r.Whole?
    ensures Holds(t, r, row, args) <==> EarlierCovers(t, grants, row, args) || ShouldRead(t, grants, names, row, args)
  {
    var s := Compiled(grants, args);
    CompiledFits(grants, args);
    assert [] + args == args;
    ComposedMeans(r, s, s.fieldRead, Empty, [], names, t, row);
    ShiftKeepsEscapes(t, s.where.value, row, [], args);
    WhensMean(t, grants, row, args);
    if Covered(t, grants, row, args) { FieldsReadable(t, grants, names, row, args); }
  }

  /** With a filter the read lets through what it should, among the rows of the filter. */
  lemma FilteredMeans(r: Clause, grants: seq<Grant>, args: seq<Value>, where: Pred, own: seq<Value>, names: seq<string>,
                      t: Tests, row: Row)
    requires grants != [] && GrantsFit(grants, |args|) && Fits(where, |own|)
    requires var s := Compiled(grants, args);
      Composed(r, s, s.fieldRead, Whole(where), own, names)
    ensures r.Whole?
    ensures Holds(t, r, row, own + args) <==> Eval(t, where, row, own) && ShouldRead(t, grants, names, row, args)
  {
    var s := Compiled(grants, args);
    CompiledFits(grants, args);
    ComposedConjoins(r, s, s.fieldRead, Whole(where), own, names, t, row);
    WhensMean(t, grants, row, args);
    if Covered(t, grants, row, args) { FieldsReadable(t, grants, names, row, args); }
  }

  /** No grant but the last denies a field that the read names. */
  predicate OnlyLastDenies(grants: seq<Grant>, names: seq<string>) {
    forall k, i :: 0 <= k < |names| && 0 <= i < |grants| - 1 ==> names[k] !in grants[i].denyRead
  }

  /** The grant can be the only one that covers a row. */
  ghost predicate StandsAlone(grants: seq<Grant>, i: nat, args: seq<Value>)
    requires i < |grants|
  {
    exists t: Tests, row: Row :: CoveredOnlyBy(t, grants, i, row, args)
  }

  predicate CoveredOnlyBy(t: Tests, grants: seq<Grant>, i: nat, row: Row, args: seq<Value>)
    requires i < |grants|
  {
    forall j :: 0 <= j < |grants| ==> (Covers(t, grants[j], row, args) <==> j == i)
  }

  /** Composition is right at every row, whatever the tests mean. */
  ghost predicate AlwaysRight(grants: seq<Grant>, names: seq<string>, args: seq<Value>) {
    forall t: Tests, row: Row :: Right(t, grants, names, row, args)
  }

  predicate Right(t: Tests, grants: seq<Grant>, names: seq<string>, row: Row, args: seq<Value>) {
    EarlierCovers(t, grants, row, args) ==> ShouldRead(t, grants, names, row, args)
  }

  /** When no grant but the last denies a named field, an unfiltered read is right at every row. */
  lemma OnlyLastDeniesIsRight(grants: seq<Grant>, names: seq<string>, args: seq<Value>)
    requires OnlyLastDenies(grants, names)
    ensures AlwaysRight(grants, names, args)
  {
    forall t: Tests, row: Row | EarlierCovers(t, grants, row, args) ensures ShouldRead(t, grants, names, row, args) {
      var i :| 0 <= i < |grants| - 1 && Covers(t, grants[i], row, args);
      assert Covered(t, grants, row, args);
      forall k | 0 <= k < |names| ensures Readable(t, grants, names[k], row, args) {
        assert names[k] !in grants[i].denyRead;
      }
    }
  }

  /**
    An unfiltered read is right at every row exactly when no grant but the last
    denies a field it names, for grants each of which can cover a row alone.
   */
  lemma UnfilteredIsRightIff(grants: seq<Grant>, names: seq<string>, args: seq<Value>)
    requires forall i :: 0 <= i < |grants| - 1 ==> StandsAlone(grants, i, args)
    ensures AlwaysRight(grants, names, args) <==> OnlyLastDenies(grants, names)
  {
    if OnlyLastDenies(grants, names) {
      OnlyLastDeniesIsRight(grants, names, args);
    } else {
      var k, i :| 0 <= k < |names| && 0 <= i < |grants| - 1 && names[k] in grants[i].denyRead;
      assert StandsAlone(grants, i, args);
      var t: Tests, row: Row :| CoveredOnlyBy(t, grants, i, row, args);
      assert Covers(t, grants[i], row, args) && names[k] in grants[i].denyRead + grants[i].denyWrite;
      assert names[k] in Denied(grants);
      assert !Readable(t, grants, names[k], row, args);
      assert !Right(t, grants, names, row, args);
    }
  }

  // ----- Writes within a compiled scope

  /** What a write of the fields needs at a row: a grant covers it, and each field is writable there. */
  predicate MayWrite(t: Tests, grants: seq<Grant>, input: set<string>, row: Row, args: seq<Value>) {
    Covered(t, grants, row, args) && forall f :: f in input ==> Writable(t, grants, f, row, args)
  }

  lemma FieldsWritable(t: Tests, grants: seq<Grant>, names: seq<string>, input: set<string>, row: Row, args: seq<Value>)
    requires Covered(t, grants, row, args) && forall n :: n in names <==> n in input
    ensures FieldsAllow(t, Compiled(grants, args), Compiled(grants, args).fieldWrite, names, row)
       <==> MayWrite(t, grants, input, row, args)
  {
    forall k | 0 <= k < |names|
      ensures (names[k] in Compiled(grants, args).fieldWrite ==>
                Eval(t, Compiled(grants, args).fieldWrite[names[k]], row, args)) <==> Writable(t, grants, names[k], row, args)
    {
      FieldPasses(t, grants, names[k], row, args);
    }
    forall f | f in input ensures exists k :: 0 <= k < |names| && names[k] == f { assert f in names; }
    forall k | 0 <= k < |names| ensures names[k] in input { assert names[k] in names; }
  }

  /**
    An update of an actor who is no administrator matches a row exactly when the id is
    the row's, the actor may write every submitted field there, and the row as
    proposed is covered again. Without grants it matches nothing.
   */
  method GrantedUpdate(grants: seq<Grant>, args: seq<Value>, m: Mutation, stored: seq<string>, id: Value, input: set<string>)
      returns (r: Clause, all: seq<Value>)
    requires GrantsFit(grants, |args|) && ValidMutation(m)
    ensures r.Whole? && all == m.values + [id] + if grants == [] then [] else args
    ensures forall t: Tests, row: Row :: Holds(t, r, row, all) <==>
      && IdIs(t, row, id) && MayWrite(t, grants, input, row, args)
      && Covered(t, grants, Proposed(m, stored, row), args)
  {
    var s := RecordScope(false, grants, args);
    CompiledFits(grants, args);
    ghost var names;
    r, all, names := UpdateWhere(s, m, stored, id, input);
    forall t: Tests, row: Row
      ensures Holds(t, r, row, all) <==>
        && IdIs(t, row, id) && MayWrite(t, grants, input, row, args)
        && Covered(t, grants, Proposed(m, stored, row), args)
    {
      assert Holds(t, r, row, all) <==> Admitted(t, s, m, stored, id, names, row);
      if grants != [] {
        WhensMean(t, grants, row, args);
        WhensMean(t, grants, Proposed(m, stored, row), args);
        if Covered(t, grants, row, args) { FieldsWritable(t, grants, names, input, row, args); }
      }
    }
  }

  /** A create of such an actor is accepted exactly when the actor may write every submitted field in the new row. */
  method GrantedCreate(t: Tests, grants: seq<Grant>, args: seq<Value>, m: Mutation, defaults: map<string, Value>,
                       stored: seq<string>, input: set<string>) returns (allowed: bool)
    requires GrantsFit(grants, |args|) && ValidMutation(m)
    ensures allowed <==> MayWrite(t, grants, input, ImageRow(CreateImage(m, defaults, stored), map[], m.values), args)
  {
    var s := RecordScope(false, grants, args);
    CompiledFits(grants, args);
    allowed := ValidateProposedScope(t, s, m, defaults, stored, input);
    ghost var row := ImageRow(CreateImage(m, defaults, stored), map[], m.values);
    if grants != [] {
      WhensMean(t, grants, row, args);
      if Covered(t, grants, row, args) {
        forall f | f in input
          ensures (f in s.fieldWrite ==> Eval(t, s.fieldWrite[f], row, s.args)) <==> Writable(t, grants, f, row, args)
        {
          FieldPasses(t, grants, f, row, args);
        }
      }
    }
  }

  // ----- Two grants

  /** The first of two grants denies a field that the second allows. */
  const TEAM_AND_MANAGER: seq<Grant> :=
    [Grant(Test("team", []), {"pay"}, {}), Grant(Test("manager", []), {}, {})]

  /** A read sorted by that field yields the rows of the first grant, although it may not be read there. */
  method SortByDeniedField() returns (r: Clause, all: seq<Value>)
    ensures r.Whole? && all == []
    ensures forall t: Tests, row: Row :: t("team", []) && !t("manager", []) ==>
      Holds(t, r, row, all) && !ShouldRead(t, TEAM_AND_MANAGER, ["pay"], row, all)
  {
    r, all := UnfilteredRead(TEAM_AND_MANAGER, [], ["pay"]);
    PayIsItsHead();
    forall t: Tests, row: Row | t("team", []) && !t("manager", [])
      ensures Holds(t, r, row, all) && !ShouldRead(t, TEAM_AND_MANAGER, ["pay"], row, all)
    {
      TeamRow(t, row);
    }
  }

  lemma PayIsItsHead()
    ensures Heads(["pay"]) == ["pay"]
  {
    assert "pay"[1..] == "ay" && "ay"[1..] == "y" && "y"[1..] == "";
    assert Head("y") == "y" && Head("ay") == "ay" && Head("pay") == "pay";
  }

  lemma TeamRow(t: Tests, row: Row)
    requires t("team", []) && !t("manager", [])
    ensures EarlierCovers(t, TEAM_AND_MANAGER, row, []) && !ShouldRead(t, TEAM_AND_MANAGER, ["pay"], row, [])
  {
    var first := TEAM_AND_MANAGER[0];
    assert Values([], row, []) == [];
    assert Covers(t, first, row, []) && !Covers(t, TEAM_AND_MANAGER[1], row, []);
    assert "pay" in first.denyRead + first.denyWrite && "pay" in Denied(TEAM_AND_MANAGER);
    assert ["pay"][0] == "pay" && !Readable(t, TEAM_AND_MANAGER, "pay", row, []);
  }
}
