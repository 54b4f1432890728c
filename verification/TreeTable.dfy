/** The parent links of one Tree Entity, their closures and the forest invariant. */
module TreeTable {
  // A table may be arbitrary: a parent link may name a missing row, and links may
  // form a cycle. `Forest` is the invariant the guards are there to keep.

  import opened Wrappers

  type Id = int

  /** One row per Record: its optional parent. */
  type Table = map<Id, Option<Id>>

  /** The `n`-th ancestor of `x`, as long as every row on the way exists. */
  function Climb(t: Table, x: Id, n: nat): Option<Id>
    decreases n
  {
    if x !in t then None
    else if n == 0 then Some(x)
    else if t[x].None? then None
    else Climb(t, t[x].value, n - 1)
  }

  ghost predicate Reaches(t: Table, x: Id, y: Id) {
    exists n: nat :: Climb(t, x, n) == Some(y)
  }

  ghost predicate ParentsExist(t: Table) {
    forall x :: x in t && t[x].Some? ==> t[x].value in t
  }

  ghost predicate Acyclic(t: Table) {
    forall x, n: nat :: 0 < n ==> Climb(t, x, n) != Some(x)
  }

  ghost predicate Forest(t: Table) {
    ParentsExist(t) && Acyclic(t)
  }

  /** The `k`-th generation below `x`, one round of the downward query per step. */
  function Generation(t: Table, x: Id, k: nat): set<Id> {
    if k == 0 then set n | n in t && n == x
    else var above := Generation(t, x, k - 1); set n | n in t && t[n].Some? && t[n].value in above
  }

  ghost predicate Below(t: Table, x: Id, y: Id) {
    exists k: nat :: y in Generation(t, x, k)
  }

  ghost predicate Rooted(t: Table, x: Id) {
    exists n: nat :: IsRootAt(t, x, n)
  }

  predicate IsRootAt(t: Table, x: Id, n: nat) {
    var a := Climb(t, x, n);
    a.Some? && a.value in t && t[a.value].None?
  }

  // ----- Climbing

  lemma {:induction false} ClimbLands(t: Table, x: Id, n: nat)
    requires Climb(t, x, n).Some?
    ensures x in t && Climb(t, x, n).value in t
    decreases n
  {
    if n != 0 { ClimbLands(t, t[x].value, n - 1); }
  }

  lemma {:induction false} ClimbSum(t: Table, x: Id, m: nat, n: nat)
    requires Climb(t, x, m).Some?
    ensures Climb(t, x, m + n) == Climb(t, Climb(t, x, m).value, n)
    decreases m
  {
    if m != 0 { ClimbSum(t, t[x].value, m - 1, n); }
  }

  lemma ReachesTransitive(t: Table, x: Id, y: Id, z: Id)
    requires Reaches(t, x, y) && Reaches(t, y, z)
    ensures Reaches(t, x, z)
  {
    var m: nat :| Climb(t, x, m) == Some(y);
    var n: nat :| Climb(t, y, n) == Some(z);
    ClimbSum(t, x, m, n);
  }

  /** The downward generations and the upward climb are the same relation. */
  lemma {:induction false} GenerationIsClimb(t: Table, x: Id, y: Id, k: nat)
    ensures y in Generation(t, x, k) <==> Climb(t, y, k) == Some(x)
    decreases k
  {
    if k != 0 && y in t && t[y].Some? {
      GenerationIsClimb(t, x, t[y].value, k - 1);
    }
  }

  /**
    A Record offered by a tree search that excludes the subtree of `x` is exactly
    a destination whose ancestors do not contain `x`. Holds on every table.
   */
  lemma ExclusionMatchesCycleCheck(t: Table, x: Id, p: Id)
    ensures Below(t, x, p) <==> Reaches(t, p, x)
  {
    if Below(t, x, p) {
      var k: nat :| p in Generation(t, x, k);
      GenerationIsClimb(t, x, p, k);
    }
    if Reaches(t, p, x) {
      var k: nat :| Climb(t, p, k) == Some(x);
      GenerationIsClimb(t, x, p, k);
    }
  }

  // ----- Roots

  /** The rows a climb from `x` can meet. */
  ghost function AncestorSet(t: Table, x: Id): set<Id> {
    set y | y in t && Reaches(t, x, y)
  }

  lemma AncestorsShrink(t: Table, x: Id)
    requires Forest(t) && x in t && t[x].Some?
    ensures AncestorSet(t, t[x].value) < AncestorSet(t, x)
  {
    var p := t[x].value;
    assert Climb(t, x, 0) == Some(x);
    forall y | y in AncestorSet(t, p)
      ensures y in AncestorSet(t, x)
    {
      var n: nat :| Climb(t, p, n) == Some(y);
      assert Climb(t, x, n + 1) == Some(y);
    }
    forall n: nat ensures Climb(t, p, n) != Some(x) {
      assert Climb(t, x, n + 1) == Climb(t, p, n);
    }
    assert x in AncestorSet(t, x) - AncestorSet(t, p);
  }

  lemma {:induction false} ForestRooted(t: Table, x: Id)
    requires Forest(t) && x in t
    ensures Rooted(t, x)
    decreases AncestorSet(t, x)
  {
    if t[x].None? {
      assert IsRootAt(t, x, 0);
    } else {
      AncestorsShrink(t, x);
      ForestRooted(t, t[x].value);
      var n: nat :| IsRootAt(t, t[x].value, n);
      assert IsRootAt(t, x, n + 1);
    }
  }

  /** Every row met by climbing from a row on a cycle has a parent. */
  lemma {:induction false} CycleHasNoRoot(t: Table, x: Id, n: nat, k: nat)
    requires 0 < n && Climb(t, x, n) == Some(x)
    ensures !IsRootAt(t, x, k)
    decreases k
  {
    if k != 0 && t[x].Some? {
      var p := t[x].value;
      assert Climb(t, p, n - 1) == Some(x);
      ClimbSum(t, p, n - 1, 1);
      ClimbLands(t, p, n - 1);
      assert Climb(t, x, 1) == Some(p);
      CycleHasNoRoot(t, p, n, k - 1);
    }
  }

  /** Reachability of every row from a root row is exactly the forest property. */
  lemma CoveredIffForest(t: Table)
    ensures (forall x :: x in t ==> Rooted(t, x)) <==> Forest(t)
  {
    if Forest(t) {
      forall x | x in t ensures Rooted(t, x) { ForestRooted(t, x); }
    }
    if forall x :: x in t ==> Rooted(t, x) {
      forall x | x in t && t[x].Some? ensures t[x].value in t {
        var n: nat :| IsRootAt(t, x, n);
        assert n != 0;
        ClimbLands(t, t[x].value, n - 1);
      }
      forall x, n: nat | 0 < n ensures Climb(t, x, n) != Some(x) {
        if Climb(t, x, n) == Some(x) {
          ClimbLands(t, x, n);
          var k: nat :| IsRootAt(t, x, k);
          CycleHasNoRoot(t, x, n, k);
        }
      }
    }
  }

  // ----- One changed row

  ghost predicate AgreeExceptAt(t: Table, u: Table, x: Id) {
    forall y :: y != x ==> (y in t <==> y in u) && (y in t ==> t[y] == u[y])
  }

  /** A climb survives a change at `x` unless it meets `x` first, in both tables. */
  lemma {:induction false} ClimbAgreesUntil(t: Table, u: Table, x: Id, a: Id, n: nat) returns (m: nat)
    requires AgreeExceptAt(t, u, x) && x in u
    requires Climb(t, a, n).Some?
    ensures m <= n
    ensures Climb(u, a, m) == Some(x) || Climb(u, a, n) == Climb(t, a, n)
    decreases n
  {
    if a == x {
      m := 0;
    } else if n == 0 {
      m := 0;
    } else {
      m := ClimbAgreesUntil(t, u, x, t[a].value, n - 1);
      m := m + 1;
    }
  }

  /**
    On a forest, linking `x` to the existing row `p` keeps the forest exactly
    when `x` is not among the ancestors of `p` (`p` itself included).
   */
  lemma MoveKeepsForest(t: Table, x: Id, p: Id)
    requires Forest(t) && x in t && p in t
    ensures Forest(t[x := Some(p)]) <==> !Reaches(t, p, x)
  {
    var u := t[x := Some(p)];
    if Reaches(t, p, x) {
      var n: nat :| Climb(t, p, n) == Some(x);
      var m := ClimbAgreesUntil(t, u, x, p, n);
      var k := if Climb(u, p, m) == Some(x) then m else n;
      assert Climb(u, x, k + 1) == Some(x);
    } else {
      forall y, n: nat | 0 < n ensures Climb(u, y, n) != Some(y) {
        if Climb(u, y, n) == Some(y) { MoveCycle(t, x, p, y, n); }
      }
    }
  }

  /** A cycle created by the new link runs through it, so `p` already reached `x`. */
  lemma MoveCycle(t: Table, x: Id, p: Id, y: Id, n: nat)
    requires Forest(t) && x in t && p in t && 0 < n
    requires Climb(t[x := Some(p)], y, n) == Some(y)
    ensures Reaches(t, p, x)
  {
    var u := t[x := Some(p)];
    var m := ClimbAgreesUntil(u, t, x, y, n);
    assert Climb(t, y, n) != Some(y);
    assert Climb(t, y, m) == Some(x);
    var k := ClimbAgreesUntil(t, u, x, y, m);
    var h := if Climb(u, y, k) == Some(x) then k else m;
    CycleRotates(u, y, n, h);
    assert Climb(u, p, n - 1) == Some(x);
    var j := ClimbAgreesUntil(u, t, x, p, n - 1);
  }

  /** Every row met while climbing along a cycle lies on a cycle of that length. */
  lemma {:induction false} CycleRotates(t: Table, x: Id, n: nat, k: nat)
    requires 0 < n && Climb(t, x, n) == Some(x) && Climb(t, x, k).Some?
    ensures Climb(t, Climb(t, x, k).value, n) == Climb(t, x, k)
  {
    ClimbSum(t, x, n, k);
    ClimbSum(t, x, k, n);
    assert n + k == k + n;
  }

  /** Making `x` a root needs no check at all. */
  lemma RootKeepsForest(t: Table, x: Id)
    requires Forest(t)
    ensures Forest(t[x := None])
  {
    var u := t[x := None];
    forall y, n: nat | 0 < n ensures Climb(u, y, n) != Some(y) {
      RootedAvoidsCycle(t, u, x, y, n);
    }
  }

  /** A cycle in the table where `x` is a root never meets `x`. */
  lemma {:induction false} RootedAvoidsCycle(t: Table, u: Table, x: Id, y: Id, n: nat)
    requires Forest(t) && u == t[x := None] && 0 < n
    ensures Climb(u, y, n) != Some(y)
  {
    if Climb(u, y, n) == Some(y) {
      forall k: nat ensures Climb(u, y, k) != Some(x) {
        if Climb(u, y, k) == Some(x) { CycleHasNoRoot(u, y, n, k); }
      }
      ClimbAvoiding(u, t, x, y, n);
    }
  }

  lemma {:induction false} ClimbAvoiding(t: Table, u: Table, x: Id, a: Id, n: nat)
    requires AgreeExceptAt(t, u, x)
    requires Climb(t, a, n).Some?
    requires forall k: nat :: k < n ==> Climb(t, a, k) != Some(x)
    requires Climb(t, a, n) != Some(x)
    ensures Climb(u, a, n) == Climb(t, a, n)
    decreases n
  {
    if n == 0 {
      assert a != x;
    } else {
      assert Climb(t, a, 0) != Some(x);
      forall k: nat | k < n - 1 ensures Climb(t, t[a].value, k) != Some(x) {
        assert Climb(t, a, k + 1) == Climb(t, t[a].value, k);
      }
      ClimbAvoiding(t, u, x, t[a].value, n - 1);
    }
  }

  /** A new row under an existing one, or a new root, keeps the forest. */
  lemma CreateKeepsForest(t: Table, x: Id, parent: Option<Id>)
    requires Forest(t) && x !in t
    ensures Forest(t[x := parent]) <==> (parent.Some? ==> parent.value in t)
  {
    RootKeepsForest(t, x);
    var base, u := t[x := None], t[x := parent];
    assert u == base[x := parent];
    if parent.Some? {
      var p := parent.value;
      assert x in u && u[x] == Some(p);
      if p in t {
        if Reaches(base, p, x) {
          var n: nat :| Climb(base, p, n) == Some(x);
          NobodyReachesNewRow(t, x, p, n);
        }
        MoveKeepsForest(base, x, p);
      } else if p == x {
        assert Climb(u, x, 0) == Some(x) && Climb(u, x, 1) == Some(x);
        assert !Acyclic(u);
      } else {
        assert u[x].value !in u;
        assert !ParentsExist(u);
      }
    }
  }

  lemma {:induction false} NobodyReachesNewRow(t: Table, x: Id, y: Id, n: nat)
    requires ParentsExist(t) && x !in t && y in t
    ensures Climb(t[x := None], y, n) != Some(x)
    decreases n
  {
    if n != 0 && t[y].Some? {
      NobodyReachesNewRow(t, x, t[y].value, n - 1);
    }
  }

  predicate HasChild(t: Table, x: Id) {
    exists c :: c in t && t[c] == Some(x)
  }

  /** Deleting a row keeps the forest exactly when the row has no children. */
  lemma DeleteKeepsForest(t: Table, x: Id)
    requires Forest(t) && x in t
    ensures Forest(t - {x}) <==> !HasChild(t, x)
  {
    var u := t - {x};
    if HasChild(t, x) {
      var c :| c in t && t[c] == Some(x);
      assert Climb(t, x, 1) != Some(x);
      assert c != x;
      assert c in u && u[c].value !in u;
    } else {
      forall y, n: nat | 0 < n ensures Climb(u, y, n) != Some(y) {
        if Climb(u, y, n).Some? { ClimbInSubtable(u, t, y, n); }
      }
    }
  }

  lemma {:induction false} ClimbInSubtable(u: Table, t: Table, y: Id, n: nat)
    requires forall z :: z in u ==> z in t && t[z] == u[z]
    requires Climb(u, y, n).Some?
    ensures Climb(t, y, n) == Climb(u, y, n)
    decreases n
  {
    if n != 0 { ClimbInSubtable(u, t, u[y].value, n - 1); }
  }

  // ----- Mutations

  datatype Op = Create(id: Id, parent: Option<Id>) | Move(id: Id, parent: Option<Id>) | Delete(id: Id)

  /** What the source checks before the write, read from the given table. */
  ghost predicate Guard(t: Table, op: Op) {
    match op
    case Create(id, parent) => id !in t && (parent.Some? ==> parent.value in t)
    case Move(id, parent) => id in t && (parent.Some? ==> parent.value in t && !Reaches(t, parent.value, id))
    case Delete(id) => id in t && !HasChild(t, id)
  }

  function ApplyOp(t: Table, op: Op): Table {
    match op
    case Create(id, parent) => t[id := parent]
    case Move(id, parent) => t[id := parent]
    case Delete(id) => t - {id}
  }

  lemma GuardKeepsForest(t: Table, op: Op)
    requires Forest(t) && Guard(t, op)
    ensures Forest(ApplyOp(t, op))
  {
    match op
    case Create(id, parent) => CreateKeepsForest(t, id, parent);
    case Move(id, parent) =>
      if parent.Some? { MoveKeepsForest(t, id, parent.value); } else { RootKeepsForest(t, id); }
    case Delete(id) => DeleteKeepsForest(t, id);
  }
}
