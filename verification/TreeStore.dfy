/**
  Tree mutations as one session performs them: take the structural lock, check
  the parent or the children against the current table, then write.
 */
module TreeStore {
  import opened Wrappers
  import opened TreeTable

  datatype Outcome =
    | Done
    | NoTransaction
    | NotFound
    | LinkNameRequired
    | LinkTargetMissing
    | AccessDenied
    | WouldCreateCycle
    | HasChildren
    | NameTaken
    | InvalidHierarchy

  /** The submitted value of the parent field, if any. */
  datatype ParentInput = Unchanged | Null | NotAName | Named(name: string)

  /** The rows a policy lets its caller read; no policy means no restriction. */
  type ReadScope = Option<set<Id>>

  predicate Visible(scope: ReadScope, x: Id) {
    scope.Some? ==> x in scope.value
  }

  // ----- The closures of the recursive queries, computed by rounds

  /** Ancestors of `start`, itself included, as the cycle check gathers them. */
  method AncestorClosure(t: Table, start: Id) returns (found: set<Id>)
    ensures forall y :: y in found <==> Reaches(t, start, y)
  {
    found := if start in t then {start} else {};
    var working := found;
    assert start in t ==> Climb(t, start, 0) == Some(start);
    while working != {}
      invariant working <= found <= t.Keys
      invariant start in t ==> start in found
      invariant forall y :: y in found ==> Reaches(t, start, y)
      invariant forall y :: y in found - working && t[y].Some? && t[y].value in t ==> t[y].value in found
      decreases t.Keys - found, working
    {
      var parents := set y | y in working && t[y].Some? && t[y].value in t :: t[y].value;
      forall p | p in parents ensures Reaches(t, start, p) {
        var y :| y in working && t[y] == Some(p);
        assert Climb(t, y, 1) == Some(p);
        ReachesTransitive(t, start, y, p);
      }
      working := parents - found;
      found := found + working;
    }
    forall y | Reaches(t, start, y) ensures y in found {
      var n: nat :| Climb(t, start, n) == Some(y);
      ClosedUpward(t, found, start, n);
    }
  }

  lemma {:induction false} ClosedUpward(t: Table, s: set<Id>, x: Id, n: nat)
    requires Climb(t, x, n).Some? && x in s
    requires forall y :: y in s && y in t && t[y].Some? && t[y].value in t ==> t[y].value in s
    ensures Climb(t, x, n).value in s
    decreases n
  {
    if n != 0 {
      ClimbLands(t, t[x].value, n - 1);
      ClosedUpward(t, s, t[x].value, n - 1);
    }
  }

  /** The subtree of `root`, as the search exclusion and the descendants query gather it. */
  method SubtreeClosure(t: Table, root: Id) returns (found: set<Id>)
    ensures forall y :: y in found <==> Below(t, root, y)
  {
    var seed := set n | n in t && n == root;
    found := DescendantClosure(t, seed);
    forall y ensures LeadsTo(t, y, seed) <==> Below(t, root, y) {
      if LeadsTo(t, y, seed) {
        var n: nat :| ClimbMeets(t, y, n, seed);
        GenerationIsClimb(t, root, y, n);
      }
      if Below(t, root, y) {
        var n: nat :| y in Generation(t, root, n);
        GenerationIsClimb(t, root, y, n);
        ClimbLands(t, y, n);
        assert ClimbMeets(t, y, n, seed);
      }
    }
  }

  predicate ClimbMeets(t: Table, y: Id, n: nat, s: set<Id>) {
    var a := Climb(t, y, n);
    a.Some? && a.value in s
  }

  ghost predicate LeadsTo(t: Table, y: Id, s: set<Id>) {
    exists n: nat :: ClimbMeets(t, y, n, s)
  }

  /** Every row from which climbing meets one of the seed rows. */
  method DescendantClosure(t: Table, seed: set<Id>) returns (found: set<Id>)
    requires seed <= t.Keys
    ensures found <= t.Keys
    ensures forall y :: y in found <==> LeadsTo(t, y, seed)
  {
    found := seed;
    var working := seed;
    assert forall y :: y in seed ==> ClimbMeets(t, y, 0, seed);
    while working != {}
      invariant seed <= found <= t.Keys && working <= found
      invariant forall y :: y in found ==> LeadsTo(t, y, seed)
      invariant forall y :: y in t && t[y].Some? && t[y].value in found - working ==> y in found
      decreases t.Keys - found, working
    {
      var children := set y | y in t && t[y].Some? && t[y].value in working;
      forall y | y in children ensures LeadsTo(t, y, seed) {
        var n: nat :| ClimbMeets(t, t[y].value, n, seed);
        assert ClimbMeets(t, y, n + 1, seed);
      }
      working := children - found;
      found := found + working;
    }
    forall y, n: nat | ClimbMeets(t, y, n, seed) ensures y in found {
      ClosedDownward(t, found, y, n);
    }
  }

  lemma {:induction false} ClosedDownward(t: Table, s: set<Id>, y: Id, n: nat)
    requires Climb(t, y, n).Some? && Climb(t, y, n).value in s
    requires forall z :: z in t && t[z].Some? && t[z].value in s ==> z in s
    ensures y in s
    decreases n
  {
    if n != 0 { ClosedDownward(t, s, t[y].value, n - 1); }
  }

  lemma RootedIsLeadsTo(t: Table, roots: set<Id>)
    requires roots == set x | x in t && t[x].None?
    ensures forall x :: LeadsTo(t, x, roots) <==> Rooted(t, x)
  {
    forall x, n: nat ensures ClimbMeets(t, x, n, roots) <==> IsRootAt(t, x, n) {
    }
    forall x ensures LeadsTo(t, x, roots) <==> Rooted(t, x) {
      if LeadsTo(t, x, roots) {
        var n: nat :| ClimbMeets(t, x, n, roots);
        assert IsRootAt(t, x, n);
      }
      if Rooted(t, x) {
        var n: nat :| IsRootAt(t, x, n);
        assert ClimbMeets(t, x, n, roots);
      }
    }
  }

  /** Activation: existing data becomes a tree exactly when it already is a forest. */
  method ValidateTreeData(tables: seq<Table>) returns (r: Outcome)
    ensures r == if forall i :: 0 <= i < |tables| ==> Forest(tables[i]) then Done else InvalidHierarchy
  {
    for i := 0 to |tables|
      invariant forall j :: 0 <= j < i ==> Forest(tables[j])
    {
      var t := tables[i];
      var roots := set x | x in t && t[x].None?;
      var reachable := DescendantClosure(t, roots);
      RootedIsLeadsTo(t, roots);
      CoveredIffForest(t);
      if exists x :: x in t && x !in reachable {
        return InvalidHierarchy;
      }
    }
    return Done;
  }

  // ----- The mutation guards

  /** What the parent check decides, in the order in which it decides it. */
  ghost function ParentVerdict(t: Table, names: map<string, Id>, id: Id, input: ParentInput,
                               scope: ReadScope, destination: ReadScope): Outcome {
    match input
    case Unchanged => Done
    case Null => Done
    case NotAName => LinkNameRequired
    case Named(name) =>
      if name !in names then LinkTargetMissing
      else if scope.Some? && destination.None? then AccessDenied
      else if !Visible(destination, names[name]) || names[name] !in t then AccessDenied
      else if Reaches(t, names[name], id) then WouldCreateCycle
      else Done
  }

  /**
    What a row has to be for a Record to stand under it: known by the name and
    stored, open to the caller's destination policy, which a scoped caller must
    have, and not below the Record itself.
   */
  ghost predicate MayHoldChild(t: Table, names: map<string, Id>, id: Id, name: string,
                               scope: ReadScope, destination: ReadScope) {
    && name in names && names[name] in t
    && (destination.Some? ==> names[name] in destination.value)
    && (scope.Some? ==> destination.Some?)
    && !Below(t, id, names[name])
  }

  /** A submitted parent that may be written: none, or a row that may hold the Record. */
  ghost predicate ParentAllowed(t: Table, names: map<string, Id>, id: Id, input: ParentInput,
                                scope: ReadScope, destination: ReadScope) {
    input.Unchanged? || input.Null? || (input.Named? && MayHoldChild(t, names, id, input.name, scope, destination))
  }

  /** The parent a row has after the input was written. */
  predicate ParentWritten(names: map<string, Id>, input: ParentInput, was: Option<Id>, now: Option<Id>) {
    && (input.Unchanged? ==> now == was)
    && (input.Null? ==> now == None)
    && (input.Named? ==> input.name in names && now == Some(names[input.name]))
  }

  function NewParent(names: map<string, Id>, input: ParentInput, current: Option<Id>): Option<Id> {
    match input
    case Unchanged => current
    case Named(name) => if name in names then Some(names[name]) else None
    case _ => None
  }

  /** Another Record has the new name. */
  predicate NameClashes(names: map<string, Id>, id: Id, name: Option<string>) {
    name.Some? && name.value in names && names[name.value] != id
  }

  function Renamed(names: map<string, Id>, id: Id, name: Option<string>): map<string, Id> {
    if name.None? then names else (map n | n in names && names[n] != id :: names[n])[name.value := id]
  }

  /** The rows and the lock as the session that runs one transaction sees them. */
  class Session {
    const transactional: bool
    var locked: bool
    var parents: Table
    var names: map<string, Id>

    ghost predicate Valid()
      reads this
    {
      Forest(parents) && names.Values <= parents.Keys
    }

    constructor (transactional: bool, parents: Table, names: map<string, Id>)
      requires Forest(parents) && names.Values <= parents.Keys
      ensures Valid() && this.parents == parents && this.names == names
      ensures this.transactional == transactional && !locked
    {
      this.transactional := transactional;
      this.locked := false;
      this.parents := parents;
      this.names := names;
    }

    /** The lock is held to the end of the transaction; without one there is nothing to hold it. */
    method LockTree() returns (r: Outcome)
      modifies this`locked
      ensures r == if transactional then Done else NoTransaction
      ensures locked == (old(locked) || transactional)
    {
      if !transactional {
        return NoTransaction;
      }
      locked := true;
      return Done;
    }

    method ValidateTreeParent(id: Id, input: ParentInput, scope: ReadScope, destination: ReadScope)
        returns (r: Outcome)
      ensures r == ParentVerdict(parents, names, id, input, scope, destination)
    {
      match input
      case Unchanged => return Done;
      case Null => return Done;
      case NotAName => return LinkNameRequired;
      case Named(name) =>
        if name !in names { return LinkTargetMissing; }
        var parent := names[name];
        if scope.Some? && destination.None? { return AccessDenied; }
        if !Visible(destination, parent) || parent !in parents { return AccessDenied; }
        var ancestors := AncestorClosure(parents, parent);
        if id in ancestors { return WouldCreateCycle; }
        return Done;
    }

    method RestrictTreeDelete(id: Id) returns (r: Outcome)
      ensures r == if HasChild(parents, id) then HasChildren else Done
    {
      if exists c :: c in parents && parents[c] == Some(id) { return HasChildren; }
      return Done;
    }

    /** Inserts a Record. The sequence supplies an unused positive id. */
    method Create(id: Id, name: string, input: ParentInput, scope: ReadScope, destination: ReadScope)
        returns (r: Outcome)
      requires Valid() && 0 < id && id !in parents
      requires forall x :: x in parents ==> 0 < x
      modifies this
      ensures Valid()
      ensures r == if !transactional then NoTransaction
                   else if old(ParentVerdict(parents, names, 0, input, scope, destination)) != Done
                   then old(ParentVerdict(parents, names, 0, input, scope, destination))
                   else if name in old(names) then NameTaken else Done
      ensures r == Done <==>
        transactional && old(ParentAllowed(parents, names, 0, input, scope, destination)) && name !in old(names)
      ensures r == Done ==>
        var op := Op.Create(id, NewParent(old(names), input, None));
        && locked && Guard(old(parents), op) && parents == ApplyOp(old(parents), op)
        && id in parents && ParentWritten(old(names), input, None, parents[id])
        && names == old(names)[name := id]
      ensures r != Done ==> parents == old(parents) && names == old(names)
    {
      r := LockTree();
      if r != Done { return; }
      ParentAllowedIffDone(parents, names, 0, input, scope, destination);
      r := ValidateTreeParent(0, input, scope, destination);
      if r != Done { return; }
      if name in names { return NameTaken; }
      var parent := NewParent(names, input, None);
      GuardKeepsForest(parents, Op.Create(id, parent));
      parents := parents[id := parent];
      names := names[name := id];
    }

    /** Updates a Record, which may move it and may give it another name. */
    method Move(id: Id, input: ParentInput, name: Option<string>, scope: ReadScope, destination: ReadScope)
        returns (r: Outcome)
      requires Valid()
      modifies this
      ensures Valid()
      ensures r == if !transactional then NoTransaction
                   else if id !in old(parents) || !Visible(scope, id) then NotFound
                   else if old(ParentVerdict(parents, names, id, input, scope, destination)) != Done
                   then old(ParentVerdict(parents, names, id, input, scope, destination))
                   else if old(NameClashes(names, id, name)) then NameTaken else Done
      ensures r == Done <==>
        && transactional && id in old(parents) && (scope.Some? ==> id in scope.value)
        && old(ParentAllowed(parents, names, id, input, scope, destination))
        && (name.Some? ==> name.value !in old(names) || old(names)[name.value] == id)
      ensures r == Done ==>
        id in old(parents) &&
        var op := Op.Move(id, NewParent(old(names), input, old(parents)[id]));
        && locked && Guard(old(parents), op) && parents == ApplyOp(old(parents), op)
        && id in parents && ParentWritten(old(names), input, old(parents)[id], parents[id])
        && names == Renamed(old(names), id, name)
      ensures r != Done ==> parents == old(parents) && names == old(names)
    {
      r := LockTree();
      if r != Done { return; }
      if id !in parents || !Visible(scope, id) { return NotFound; }
      ParentAllowedIffDone(parents, names, id, input, scope, destination);
      r := ValidateTreeParent(id, input, scope, destination);
      if r != Done { return; }
      if NameClashes(names, id, name) { return NameTaken; }
      var parent := NewParent(names, input, parents[id]);
      ParentDoneIsGuarded(parents, names, id, input, scope, destination);
      GuardKeepsForest(parents, Op.Move(id, parent));
      parents := parents[id := parent];
      names := Renamed(names, id, name);
    }

    method Delete(id: Id, scope: ReadScope) returns (r: Outcome)
      requires Valid()
      modifies this
      ensures Valid()
      ensures r == if !transactional then NoTransaction
                   else if id !in old(parents) || !Visible(scope, id) then NotFound
                   else if old(HasChild(parents, id)) then HasChildren
                   else Done
      ensures r == Done <==>
        && transactional && id in old(parents) && (scope.Some? ==> id in scope.value)
        && forall c :: c in old(parents) ==> old(parents)[c] != Some(id)
      ensures r == Done ==>
        && locked && Guard(old(parents), Op.Delete(id)) && parents == ApplyOp(old(parents), Op.Delete(id))
        && names == map n | n in old(names) && old(names)[n] != id :: old(names)[n]
      ensures r != Done ==> parents == old(parents) && names == old(names)
    {
      r := LockTree();
      if r != Done { return; }
      if id !in parents || !Visible(scope, id) { return NotFound; }
      r := RestrictTreeDelete(id);
      if r != Done { return; }
      GuardKeepsForest(parents, Op.Delete(id));
      parents := parents - {id};
      names := map n | n in names && names[n] != id :: names[n];
    }
  }

  // ----- What the guards amount to

  /**
    For every scope and destination, the parent check accepts exactly the inputs
    that may be written, and each refusal has its own reason.
   */
  lemma ParentAllowedIffDone(t: Table, names: map<string, Id>, id: Id, input: ParentInput,
                             scope: ReadScope, destination: ReadScope)
    ensures var r := ParentVerdict(t, names, id, input, scope, destination);
      && (r == Done <==> ParentAllowed(t, names, id, input, scope, destination))
      && (r == LinkNameRequired <==> input.NotAName?)
      && (r == LinkTargetMissing <==> input.Named? && input.name !in names)
      && (r == AccessDenied <==> input.Named? && Closed(t, names, input.name, scope, destination))
      && (r == WouldCreateCycle <==>
            input.Named? && input.name in names && !Closed(t, names, input.name, scope, destination)
            && Below(t, id, names[input.name]))
  {
    if input.Named? && input.name in names { ExclusionMatchesCycleCheck(t, id, names[input.name]); }
  }

  /** A known name whose row is not stored or not open to the caller. */
  predicate Closed(t: Table, names: map<string, Id>, name: string, scope: ReadScope, destination: ReadScope) {
    && name in names
    && (names[name] !in t || (scope.Some? && destination.None?)
        || (destination.Some? && names[name] !in destination.value))
  }

  /**
    A change of name leaves every other Record its name exactly when it does not
    clash; the Record then has the new name and no other.
   */
  lemma RenameExact(names: map<string, Id>, id: Id, name: string)
    ensures var now := Renamed(names, id, Some(name));
      && (!NameClashes(names, id, Some(name)) <==>
            (forall n :: n in names && names[n] != id ==> n in now && now[n] == names[n]))
      && (forall n :: n in now && now[n] == id <==> n == name)
      && (forall n :: n in now && n != name ==> n in names && names[n] == now[n])
    ensures Renamed(names, id, None) == names
  {
  }

  /** On a forest, a parent check that is passed is the guard of the move it lets through. */
  lemma ParentDoneIsGuarded(t: Table, names: map<string, Id>, id: Id, input: ParentInput,
                            scope: ReadScope, destination: ReadScope)
    requires Forest(t) && id in t && ParentVerdict(t, names, id, input, scope, destination) == Done
    ensures Guard(t, Op.Move(id, NewParent(names, input, t[id])))
  {
    if input.Unchanged? && t[id].Some? {
      var p := t[id].value;
      forall n: nat ensures Climb(t, p, n) != Some(id) {
        assert Climb(t, id, n + 1) == Climb(t, p, n);
      }
    }
  }

  /**
    Apart from access, a move is refused exactly when the moved row would break
    the forest: no legal move is refused and no illegal one is let through.
   */
  lemma MoveGuardExact(t: Table, names: map<string, Id>, id: Id, name: string, scope: ReadScope, destination: ReadScope)
    requires Forest(t) && id in t && name in names && !Closed(t, names, name, scope, destination)
    ensures ParentVerdict(t, names, id, Named(name), scope, destination)
         == if Forest(t[id := Some(names[name])]) then Done else WouldCreateCycle
  {
    MoveKeepsForest(t, id, names[name]);
  }

  /** The id 0 that stands for a Record not inserted yet never looks like an ancestor. */
  lemma CreateNeverSeesCycle(t: Table, names: map<string, Id>, input: ParentInput,
                             scope: ReadScope, destination: ReadScope)
    requires forall x :: x in t ==> 0 < x
    ensures ParentVerdict(t, names, 0, input, scope, destination) != WouldCreateCycle
  {
    if input.Named? && input.name in names && Reaches(t, names[input.name], 0) {
      var n: nat :| Climb(t, names[input.name], n) == Some(0);
      ClimbLands(t, names[input.name], n);
    }
  }

  /**
    The destinations a search offers when it excludes the subtree of `x` are
    exactly the ones the guard accepts when `x` is moved, on any table.
   */
  lemma OfferedIffAccepted(t: Table, names: map<string, Id>, x: Id, name: string, scope: ReadScope, destination: ReadScope)
    requires name in names && (scope.Some? ==> destination.Some?)
    ensures (names[name] in t && Visible(destination, names[name]) && !Below(t, x, names[name]))
       <==> ParentVerdict(t, names, x, Named(name), scope, destination) == Done
  {
    ExclusionMatchesCycleCheck(t, x, names[name]);
  }
}
