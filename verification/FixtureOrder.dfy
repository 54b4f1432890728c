/**
  The order in which Fixture files are applied: dependencies first, or a report of
  exactly the files that cannot be ordered.
 */
module FixtureOrder {
  import opened Wrappers

  /** A Fixture file fills one Entity; its records link to others. */
  datatype FixtureFile = FixtureFile(entity: string, targets: set<string>)

  /** What each file depends on: every other file of an Entity that it links to. */
  type Dependencies = seq<set<nat>>

  predicate ValidDependencies(deps: Dependencies) {
    forall i :: 0 <= i < |deps| ==> forall d :: d in deps[i] ==> d < |deps|
  }

  predicate DependsOn(files: seq<FixtureFile>, i: nat, j: nat)
    requires i < |files| && j < |files|
  {
    i != j && files[j].entity in files[i].targets
  }

  ghost predicate Describes(deps: Dependencies, files: seq<FixtureFile>) {
    && |deps| == |files|
    && forall i :: 0 <= i < |files| ==> forall j :: j in deps[i] <==> 0 <= j < |files| && DependsOn(files, i, j)
  }

  /** A round of files each of which links to the Entity of the next, a different file. */
  ghost predicate LinkCycle(files: seq<FixtureFile>) {
    exists p :: IsLinkCycle(files, p)
  }

  predicate IsLinkCycle(files: seq<FixtureFile>, p: seq<nat>) {
    && |p| > 1 && p[0] == p[|p| - 1] && (forall k :: 0 <= k < |p| ==> p[k] < |files|)
    && forall k :: 0 <= k < |p| - 1 ==> p[k] != p[k + 1] && files[p[k + 1]].entity in files[p[k]].targets
  }

  // ----- Walks

  /** Each step of the walk goes from a file to one it depends on. */
  predicate Walk(deps: Dependencies, p: seq<nat>) {
    && p != [] && (forall k :: 0 <= k < |p| ==> p[k] < |deps|)
    && forall k :: 0 <= k < |p| - 1 ==> p[k + 1] in deps[p[k]]
  }

  predicate Repeats(p: seq<nat>) {
    exists a, b :: 0 <= a < b < |p| && p[a] == p[b]
  }

  /** From the file one can follow dependencies into a cycle. */
  ghost predicate ReachesCycle(deps: Dependencies, i: nat) {
    exists p :: Walk(deps, p) && p[0] == i && Repeats(p)
  }

  ghost predicate HasCycle(deps: Dependencies) {
    exists p: seq<nat> :: Walk(deps, p) && |p| > 1 && p[0] == p[|p| - 1]
  }

  // ----- The greedy order

  /** No file twice, and each after everything it depends on. */
  predicate DependenciesFirst(deps: Dependencies, ordered: seq<nat>) {
    && (forall a :: 0 <= a < |ordered| ==> ordered[a] < |deps|)
    && (forall a, b :: 0 <= a < b < |ordered| ==> ordered[a] != ordered[b])
    && (forall a, d :: 0 <= a < |ordered| && d in deps[ordered[a]] ==> d in ordered[..a])
  }

  /** Every file of the set waits for another one of it. */
  predicate AllWait(deps: Dependencies, stuck: set<nat>) {
    forall i :: i in stuck ==> i < |deps| && deps[i] * stuck != {}
  }

  /** Takes files whose dependencies are all taken, round by round, until none is left or a round takes none. */
  method OrderByDependencies(deps: Dependencies) returns (r: Result<seq<nat>, set<nat>>)
    requires ValidDependencies(deps)
    ensures r.Ok? ==> DependenciesFirst(deps, r.value) && forall i :: 0 <= i < |deps| ==> i in r.value
    ensures r.Err? ==> r.error != {} && forall i :: i in r.error <==> 0 <= i < |deps| && ReachesCycle(deps, i)
    ensures r.Ok? <==> !HasCycle(deps)
  {
    var pending := AllFiles(deps);
    var ordered: seq<nat> := [];
    while pending != {}
      invariant Split(deps, pending, ordered)
      decreases |pending|
    {
      ghost var before := pending;
      var progressed;
      pending, ordered, progressed := TakeRound(deps, pending, ordered);
      if !progressed {
        StuckExactly(deps, pending, ordered);
        return Err(pending);
      }
      SmallerSet(pending, before);
    }
    OrderedHasNoCycle(deps, ordered);
    return Ok(ordered);
  }

  /** One round over all files; without progress, every pending file waits for another. */
  method TakeRound(deps: Dependencies, waiting: set<nat>, taken: seq<nat>)
      returns (pending: set<nat>, ordered: seq<nat>, progressed: bool)
    requires ValidDependencies(deps) && Split(deps, waiting, taken)
    ensures Split(deps, pending, ordered)
    ensures if progressed then pending < waiting else pending == waiting && AllWait(deps, pending)
  {
    pending, ordered, progressed := waiting, taken, false;
    for i := 0 to |deps|
      invariant Split(deps, pending, ordered)
      invariant if progressed then pending < waiting else pending == waiting
      invariant !progressed ==> forall k :: k in pending && k < i ==> deps[k] * pending != {}
    {
      if i in pending && deps[i] * pending == {} {
        TakeOne(deps, pending, ordered, i);
        ordered, pending := ordered + [i], pending - {i};
        progressed := true;
      }
    }
  }

  lemma SmallerSet(a: set<nat>, b: set<nat>)
    requires a < b
    ensures |a| < |b|
  {
    assert b == a + (b - a) && b - a != {};
  }

  /** Every file is either pending or ordered. */
  predicate Split(deps: Dependencies, pending: set<nat>, ordered: seq<nat>) {
    && DependenciesFirst(deps, ordered)
    && (forall i :: i in pending ==> i < |deps| && i !in ordered)
    && (forall i :: 0 <= i < |deps| ==> i in pending || i in ordered)
  }

  lemma TakeOne(deps: Dependencies, pending: set<nat>, ordered: seq<nat>, i: nat)
    requires Split(deps, pending, ordered) && ValidDependencies(deps) && i in pending && deps[i] * pending == {}
    ensures Split(deps, pending - {i}, ordered + [i])
  {
    var all := ordered + [i];
    forall a, d | 0 <= a < |all| && d in deps[all[a]] ensures d in all[..a] {
      if a < |ordered| {
        assert all[..a] == ordered[..a];
      } else {
        assert all[..a] == ordered;
        assert d !in deps[i] * pending;
      }
    }
  }

  lemma {:induction false} WalkOfLength(deps: Dependencies, stuck: set<nat>, i: nat, n: nat) returns (p: seq<nat>)
    requires AllWait(deps, stuck) && i in stuck
    ensures Walk(deps, p) && |p| == n + 1 && p[0] == i
    decreases n
  {
    if n == 0 {
      p := [i];
    } else {
      var waits := deps[i] * stuck;
      assert (forall x :: x !in waits) ==> waits == {};
      var next :| next in waits;
      var rest := WalkOfLength(deps, stuck, next, n - 1);
      p := [i] + rest;
      forall k | 0 <= k < |p| - 1 ensures p[k + 1] in deps[p[k]] {
        if k > 0 { assert rest[k - 1 + 1] in deps[rest[k - 1]]; }
      }
    }
  }

  function Numbers(n: nat): (s: set<nat>)
    ensures forall x: nat :: x in s <==> x < n
    ensures |s| == n
  {
    if n == 0 then {} else Numbers(n - 1) + {n - 1}
  }

  function AllFiles(deps: Dependencies): (s: set<nat>)
    ensures forall i: nat :: i in s <==> i < |deps|
  {
    Numbers(|deps|)
  }

  function Members(p: seq<nat>): (s: set<nat>)
    ensures forall x :: x in s <==> x in p
    ensures |s| <= |p|
  {
    if p == [] then {} else Members(p[..|p| - 1]) + {p[|p| - 1]}
  }

  lemma {:induction false} DistinctFits(p: seq<nat>, s: set<nat>)
    requires !Repeats(p) && forall k :: 0 <= k < |p| ==> p[k] in s
    ensures |p| <= |s|
  {
    if p != [] {
      var front, last := p[..|p| - 1], p[|p| - 1];
      forall a, b | 0 <= a < b < |front| ensures front[a] != front[b] {
        assert p[a] != p[b];
      }
      forall k | 0 <= k < |front| ensures front[k] in s - {last} {
        assert p[k] != p[|p| - 1];
      }
      DistinctFits(front, s - {last});
    }
  }

  /** A walk longer than there are files visits one of them twice. */
  lemma LongWalkRepeats(deps: Dependencies, p: seq<nat>)
    requires Walk(deps, p) && |p| > |deps|
    ensures Repeats(p)
  {
    if !Repeats(p) {
      DistinctFits(p, Numbers(|deps|));
    }
  }

  /** From an ordered file every walk goes back through the order, so it never repeats. */
  lemma {:induction false} WalkGoesBack(deps: Dependencies, ordered: seq<nat>, p: seq<nat>, a: nat)
    requires DependenciesFirst(deps, ordered) && Walk(deps, p) && a < |ordered| && p[0] == ordered[a]
    ensures forall k :: 0 <= k < |p| ==> p[k] in ordered[..a + 1]
    ensures !Repeats(p)
    decreases |p|
  {
    assert ordered[..a + 1][a] == ordered[a];
    if |p| > 1 {
      var rest := p[1..];
      assert p[0 + 1] in deps[p[0]];
      var b :| 0 <= b < a && ordered[..a][b] == rest[0];
      forall k | 0 <= k < |rest| - 1 ensures rest[k + 1] in deps[rest[k]] {
        assert p[(k + 1) + 1] in deps[p[k + 1]];
      }
      WalkGoesBack(deps, ordered, rest, b);
      forall k | 0 < k < |p| ensures p[k] in ordered[..a + 1] && p[k] != p[0] {
        assert rest[k - 1] in ordered[..b + 1];
        var c :| 0 <= c < b + 1 && ordered[..b + 1][c] == rest[k - 1];
        assert ordered[..a + 1][c] == p[k];
      }
      forall x, y | 0 <= x < y < |p| ensures p[x] != p[y] {
        if x > 0 { assert rest[x - 1] != rest[y - 1]; }
      }
    }
  }

  /** The files left over when a round takes none are exactly those that reach a cycle. */
  lemma StuckExactly(deps: Dependencies, stuck: set<nat>, ordered: seq<nat>)
    requires Split(deps, stuck, ordered) && AllWait(deps, stuck) && stuck != {}
    ensures forall i :: i in stuck <==> 0 <= i < |deps| && ReachesCycle(deps, i)
    ensures HasCycle(deps)
  {
    forall i | 0 <= i < |deps| ensures i in stuck <==> ReachesCycle(deps, i) {
      if i in stuck {
        var p := WalkOfLength(deps, stuck, i, |deps|);
        LongWalkRepeats(deps, p);
      } else {
        var a :| 0 <= a < |ordered| && ordered[a] == i;
        forall p | Walk(deps, p) && p[0] == i ensures !Repeats(p) { WalkGoesBack(deps, ordered, p, a); }
      }
    }
    assert (forall x :: x !in stuck) ==> stuck == {};
    var i :| i in stuck;
    RepeatIsCycle(deps, i);
  }

  lemma RepeatIsCycle(deps: Dependencies, i: nat)
    requires ReachesCycle(deps, i)
    ensures HasCycle(deps)
  {
    var p :| Walk(deps, p) && p[0] == i && Repeats(p);
    var a, b :| 0 <= a < b < |p| && p[a] == p[b];
    var loop := p[a..b + 1];
    forall k | 0 <= k < |loop| - 1 ensures loop[k + 1] in deps[loop[k]] {
      assert p[(a + k) + 1] in deps[p[a + k]];
    }
    assert Walk(deps, loop) && loop[0] == loop[|loop| - 1];
  }

  lemma OrderedHasNoCycle(deps: Dependencies, ordered: seq<nat>)
    requires DependenciesFirst(deps, ordered) && forall i :: 0 <= i < |deps| ==> i in ordered
    ensures !HasCycle(deps)
  {
    forall p: seq<nat> | Walk(deps, p) && |p| > 1 ensures p[0] != p[|p| - 1] {
      assert p[0] in ordered;
      var a :| 0 <= a < |ordered| && ordered[a] == p[0];
      WalkGoesBack(deps, ordered, p, a);
    }
  }

  // ----- Files

  method FindDependencies(files: seq<FixtureFile>) returns (deps: Dependencies)
    ensures Describes(deps, files)
  {
    deps := [];
    for i := 0 to |files|
      invariant |deps| == i
      invariant forall k :: 0 <= k < i ==> forall j :: j in deps[k] <==> 0 <= j < |files| && DependsOn(files, k, j)
    {
      var mine: set<nat> := {};
      for j := 0 to |files|
        invariant forall x :: x in mine <==> 0 <= x < j && DependsOn(files, i, x)
      {
        if files[j].entity in files[i].targets && j != i { mine := mine + {j}; }
      }
      deps := deps + [mine];
    }
  }

  /**
    Orders the files, or names those that reach a dependency cycle. A file that
    links to its own Entity does not wait for itself.
   */
  method OrderPreparedFiles(files: seq<FixtureFile>) returns (r: Result<seq<nat>, set<nat>>)
    ensures exists deps :: Describes(deps, files)
    ensures forall deps :: Describes(deps, files) ==>
      && (r.Ok? <==> !HasCycle(deps))
      && (r.Err? ==> forall i :: i in r.error <==> 0 <= i < |files| && ReachesCycle(deps, i))
    ensures r.Ok? ==>
      && |r.value| == |files| && (forall i :: 0 <= i < |files| ==> i in r.value)
      && (forall a :: 0 <= a < |r.value| ==> r.value[a] < |files|)
      && (forall a, b :: 0 <= a < b < |r.value| ==> r.value[a] != r.value[b] && !DependsOn(files, r.value[a], r.value[b]))
      && (forall a, b :: 0 <= a < b < |r.value| ==> files[r.value[b]].entity !in files[r.value[a]].targets)
    ensures r.Ok? <==> !LinkCycle(files)
  {
    var deps := FindDependencies(files);
    CyclesAreLinkCycles(deps, files);
    forall other | Describes(other, files) ensures other == deps { SameDependencies(deps, other, files); }
    r := OrderByDependencies(deps);
    if r.Ok? { OrderOfFiles(deps, files, r.value); }
  }

  lemma CyclesAreLinkCycles(deps: Dependencies, files: seq<FixtureFile>)
    requires Describes(deps, files)
    ensures HasCycle(deps) <==> LinkCycle(files)
  {
    if HasCycle(deps) {
      var p: seq<nat> :| Walk(deps, p) && |p| > 1 && p[0] == p[|p| - 1];
      forall k | 0 <= k < |p| - 1 ensures p[k] != p[k + 1] && files[p[k + 1]].entity in files[p[k]].targets {
        assert DependsOn(files, p[k], p[k + 1]);
      }
      assert IsLinkCycle(files, p);
    }
    if p: seq<nat> :| IsLinkCycle(files, p) {
      forall k | 0 <= k < |p| - 1 ensures p[k + 1] in deps[p[k]] { assert DependsOn(files, p[k], p[k + 1]); }
      assert Walk(deps, p);
    }
  }

  lemma SameDependencies(a: Dependencies, b: Dependencies, files: seq<FixtureFile>)
    requires Describes(a, files) && Describes(b, files)
    ensures a == b
  {
    forall i | 0 <= i < |a| ensures a[i] == b[i] {
      forall j ensures j in a[i] <==> j in b[i] { }
    }
  }

  lemma OrderOfFiles(deps: Dependencies, files: seq<FixtureFile>, ordered: seq<nat>)
    requires Describes(deps, files) && DependenciesFirst(deps, ordered) && forall i :: 0 <= i < |deps| ==> i in ordered
    ensures |ordered| == |files|
    ensures forall a, b :: 0 <= a < b < |ordered| ==> !DependsOn(files, ordered[a], ordered[b])
  {
    forall a, b | 0 <= a < b < |ordered| ensures !DependsOn(files, ordered[a], ordered[b]) {
      assert forall c :: 0 <= c < a ==> ordered[..a][c] == ordered[c] && ordered[c] != ordered[b];
      assert ordered[b] !in ordered[..a];
      assert ordered[b] in deps[ordered[a]] <==> DependsOn(files, ordered[a], ordered[b]);
    }
    assert !Repeats(ordered);
    DistinctFits(ordered, Numbers(|files|));
    CoversAll(ordered, |files|);
  }

  lemma CoversAll(ordered: seq<nat>, n: nat)
    requires forall i :: 0 <= i < n ==> i in ordered
    ensures |ordered| >= n
  {
    assert Numbers(n) <= Members(ordered);
    assert Members(ordered) == Numbers(n) + (Members(ordered) - Numbers(n));
  }
}
