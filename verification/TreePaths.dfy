/**
  Root-to-node paths: the bounded recursive query, the rows it delivers in an
  order the database is free to choose, and their assembly into paths.
 */
module TreePaths {
  import opened Wrappers
  import opened TreeTable

  const MAX_DEPTH: nat := 2500
  const MAX_ROWS: nat := 10000

  datatype PathRow = PathRow(origin: Id, id: Id, parent: Option<Id>, cycle: bool, depth: nat)

  datatype Step = Step(id: Id, parent: Option<Id>, depth: nat)

  datatype PathError = TooLarge | ContainsCycle

  // ----- The rows of the query

  /**
    The rows of one origin from its current row `x` on. `trail` holds the ids
    climbed so far, `x` last; a row is extended unless it closes a cycle or its
    trail has outgrown the bound.
   */
  function RowsFrom(t: Table, origin: Id, x: Id, trail: seq<Id>): seq<PathRow>
    requires x in t && 0 < |trail| <= MAX_DEPTH + 1
    decreases MAX_DEPTH + 1 - |trail|
  {
    var row := PathRow(origin, x, t[x], x in trail[..|trail| - 1], |trail|);
    if row.cycle || MAX_DEPTH < |trail| || t[x].None? || t[x].value !in t then [row]
    else [row] + RowsFrom(t, origin, t[x].value, trail + [t[x].value])
  }

  /** The requested ids that are rows, each once. */
  function Origins(t: Table, ids: seq<Id>): (r: seq<Id>)
    ensures forall x :: x in r <==> x in ids && x in t
    ensures forall i, j :: 0 <= i < j < |r| ==> r[i] != r[j]
  {
    if ids == [] then []
    else if ids[0] in t && ids[0] !in ids[1..] then [ids[0]] + Origins(t, ids[1..])
    else Origins(t, ids[1..])
  }

  function AllRows(t: Table, origins: seq<Id>): seq<PathRow>
    requires forall x :: x in origins ==> x in t
  {
    if origins == [] then []
    else RowsFrom(t, origins[0], origins[0], [origins[0]]) + AllRows(t, origins[1..])
  }

  /** Any `MAX_ROWS + 1` of the rows, or all of them, in any order. */
  ghost predicate Delivers(rows: seq<PathRow>, all: seq<PathRow>) {
    && multiset(rows) <= multiset(all)
    && |rows| == if |all| <= MAX_ROWS + 1 then |all| else MAX_ROWS + 1
  }

  predicate RowOk(row: PathRow) {
    !row.cycle && row.depth <= MAX_DEPTH
  }

  predicate PathOk(t: Table, x: Id)
    requires x in t
  {
    forall row :: row in RowsFrom(t, x, x, [x]) ==> RowOk(row)
  }

  function Total(t: Table, origins: seq<Id>): nat
    requires forall x :: x in origins ==> x in t
  {
    if origins == [] then 0 else |RowsFrom(t, origins[0], origins[0], [origins[0]])| + Total(t, origins[1..])
  }

  lemma {:induction false} RowsFromShape(t: Table, origin: Id, x: Id, trail: seq<Id>)
    requires x in t && 0 < |trail| <= MAX_DEPTH + 1
    ensures var rows := RowsFrom(t, origin, x, trail);
      && rows != []
      && forall i :: 0 <= i < |rows| ==> rows[i].origin == origin && rows[i].depth == |trail| + i && rows[i].id in t
    decreases MAX_DEPTH + 1 - |trail|
  {
    if |trail| <= MAX_DEPTH && t[x].Some? && t[x].value in t {
      RowsFromShape(t, origin, t[x].value, trail + [t[x].value]);
    }
  }

  predicate OnlyLastCycles(rows: seq<PathRow>) {
    forall i :: 0 <= i < |rows| - 1 ==> !rows[i].cycle
  }

  /** An origin's rows end with the first one that was met before: no row but the last can be a cycle row. */
  lemma {:induction false} CycleRowIsLast(t: Table, origin: Id, x: Id, trail: seq<Id>)
    requires x in t && 0 < |trail| <= MAX_DEPTH + 1
    ensures OnlyLastCycles(RowsFrom(t, origin, x, trail))
    decreases MAX_DEPTH + 1 - |trail|
  {
    if |trail| <= MAX_DEPTH && t[x].Some? && t[x].value in t && x !in trail[..|trail| - 1] {
      var rest := RowsFrom(t, origin, t[x].value, trail + [t[x].value]);
      CycleRowIsLast(t, origin, t[x].value, trail + [t[x].value]);
      InFrontOfRows(RowsFrom(t, origin, x, trail)[0], rest);
    }
  }

  lemma InFrontOfRows(row: PathRow, rest: seq<PathRow>)
    requires OnlyLastCycles(rest) && !row.cycle
    ensures OnlyLastCycles([row] + rest)
  {
  }

  lemma {:induction false} AllRowsCount(t: Table, origins: seq<Id>, row: PathRow)
    requires forall x :: x in origins ==> x in t
    requires forall i, j :: 0 <= i < j < |origins| ==> origins[i] != origins[j]
    ensures |AllRows(t, origins)| == Total(t, origins)
    ensures multiset(AllRows(t, origins))[row] ==
      if row.origin in origins then multiset(RowsFrom(t, row.origin, row.origin, [row.origin]))[row] else 0
  {
    if origins != [] {
      var o := origins[0];
      RowsFromShape(t, o, o, [o]);
      AllRowsCount(t, origins[1..], row);
      assert row.origin != o ==> row !in RowsFrom(t, o, o, [o]);
    }
  }

  // ----- Assembly

  function ToStep(row: PathRow): Step {
    Step(row.id, row.parent, row.depth)
  }

  /** The steps that arrived for one origin, in arrival order. */
  function StepsOf(rows: seq<PathRow>, origin: Id): seq<Step> {
    if rows == [] then []
    else
      var before := StepsOf(rows[..|rows| - 1], origin);
      var last := rows[|rows| - 1];
      if last.origin == origin then before + [ToStep(last)] else before
  }

  ghost predicate DeepestFirst(s: seq<Step>) {
    forall i, j :: 0 <= i < j < |s| ==> s[j].depth <= s[i].depth
  }

  method InsertStep(sorted: seq<Step>, step: Step) returns (r: seq<Step>)
    requires DeepestFirst(sorted)
    ensures DeepestFirst(r) && multiset(r) == multiset(sorted) + multiset{step}
  {
    var at := 0;
    while at < |sorted| && step.depth <= sorted[at].depth
      invariant at <= |sorted|
      invariant forall k :: 0 <= k < at ==> step.depth <= sorted[k].depth
    {
      at := at + 1;
    }
    var shallower := sorted[at..];
    assert forall k :: 0 <= k < |shallower| ==> shallower[k] == sorted[at + k];
    JoinedInOrder(sorted[..at], step, shallower);
    SameSteps(sorted, at, step);
    r := sorted[..at] + [step] + shallower;
  }

  lemma SameSteps(sorted: seq<Step>, at: nat, step: Step)
    requires at <= |sorted|
    ensures multiset(sorted[..at] + [step] + sorted[at..]) == multiset(sorted) + multiset{step}
  {
    assert sorted == sorted[..at] + sorted[at..];
  }

  lemma JoinedInOrder(a: seq<Step>, step: Step, b: seq<Step>)
    requires DeepestFirst(a) && DeepestFirst(b)
    requires forall k :: 0 <= k < |a| ==> step.depth <= a[k].depth
    requires forall k :: 0 <= k < |b| ==> b[k].depth <= step.depth
    ensures DeepestFirst(a + [step] + b)
  {
    var r := a + [step] + b;
    forall i, j | 0 <= i < j < |r| ensures r[j].depth <= r[i].depth {
      assert i > |a| ==> r[i] == b[i - |a| - 1];
      assert j > |a| ==> r[j] == b[j - |a| - 1];
    }
  }

  method SortDeepestFirst(s: seq<Step>) returns (r: seq<Step>)
    ensures DeepestFirst(r) && multiset(r) == multiset(s)
  {
    r := [];
    for i := 0 to |s|
      invariant DeepestFirst(r) && multiset(r) == multiset(s[..i])
    {
      assert s[..i + 1] == s[..i] + [s[i]];
      r := InsertStep(r, s[i]);
    }
    assert s[..|s|] == s;
  }

  method SortEach(arrived: map<Id, seq<Step>>) returns (paths: map<Id, seq<Step>>)
    ensures paths.Keys == arrived.Keys
    ensures forall x :: x in paths ==> DeepestFirst(paths[x]) && multiset(paths[x]) == multiset(arrived[x])
  {
    paths := arrived;
    var pending := arrived.Keys;
    while pending != {}
      invariant pending <= arrived.Keys
      invariant paths.Keys == arrived.Keys
      invariant forall x :: x in pending ==> paths[x] == arrived[x]
      invariant forall x :: x in arrived.Keys - pending ==>
        DeepestFirst(paths[x]) && multiset(paths[x]) == multiset(arrived[x])
    {
      assert (forall x :: x !in pending) ==> pending == {};
      var x :| x in pending;
      var sorted := SortDeepestFirst(paths[x]);
      paths := paths[x := sorted];
      pending := pending - {x};
    }
  }

  /** The steps of a climb, root first. */
  function RootFirst(rows: seq<PathRow>): seq<Step> {
    if rows == [] then [] else RootFirst(rows[1..]) + [ToStep(rows[0])]
  }

  /** The path the general computation gives for `x`. */
  function PathOf(t: Table, x: Id): seq<Step>
    requires x in t
  {
    RootFirst(RowsFrom(t, x, x, [x]))
  }

  lemma {:induction false} RootFirstAt(rows: seq<PathRow>, i: nat)
    requires i < |rows|
    ensures |RootFirst(rows)| == |rows|
    ensures RootFirst(rows)[i] == ToStep(rows[|rows| - 1 - i])
  {
    if |rows| != 1 { RootFirstAt(rows[1..], if i < |rows| - 1 then i else 0); }
  }

  function RowOf(origin: Id, step: Step): PathRow {
    PathRow(origin, step.id, step.parent, false, step.depth)
  }

  lemma {:induction false} RootFirstCount(rows: seq<PathRow>, origin: Id, step: Step)
    requires forall row :: row in rows ==> row.origin == origin && !row.cycle
    ensures multiset(RootFirst(rows))[step] == multiset(rows)[RowOf(origin, step)]
  {
    if rows != [] {
      RootFirstCount(rows[1..], origin, step);
      assert rows == [rows[0]] + rows[1..];
    }
  }

  lemma {:induction false} StepsOfCount(rows: seq<PathRow>, origin: Id, step: Step)
    requires forall row :: row in rows ==> !row.cycle
    ensures multiset(StepsOf(rows, origin))[step] == multiset(rows)[RowOf(origin, step)]
  {
    if rows != [] {
      StepsOfCount(rows[..|rows| - 1], origin, step);
      assert rows == rows[..|rows| - 1] + [rows[|rows| - 1]];
    }
  }

  predicate StrictlyDeepestFirst(s: seq<Step>) {
    forall i, j :: 0 <= i < j < |s| ==> s[j].depth < s[i].depth
  }

  lemma HeadsAgree(a: seq<Step>, b: seq<Step>)
    requires DeepestFirst(a) && StrictlyDeepestFirst(b) && multiset(a) == multiset(b) && b != []
    ensures a != [] && a[0] == b[0]
  {
    assert b[0] in multiset(a);
    assert a[0] in multiset(b);
  }

  lemma TailCount<T>(s: seq<T>)
    requires s != []
    ensures multiset(s[1..]) == multiset(s) - multiset{s[0]}
  {
    assert s == [s[0]] + s[1..];
  }

  lemma {:induction false} SortedUnique(a: seq<Step>, b: seq<Step>)
    requires DeepestFirst(a) && StrictlyDeepestFirst(b) && multiset(a) == multiset(b)
    ensures a == b
  {
    if b != [] {
      HeadsAgree(a, b);
      TailCount(a);
      TailCount(b);
      SortedUnique(a[1..], b[1..]);
      assert a == [a[0]] + a[1..] && b == [b[0]] + b[1..];
    } else {
      assert |a| == |multiset(a)|;
    }
  }

  lemma SubMultisetOfSameSize<T>(a: multiset<T>, b: multiset<T>)
    requires a <= b && |a| == |b|
    ensures a == b
  {
    assert b == a + (b - a);
  }

  /** A bad row among the delivered ones betrays a path that is not acceptable. */
  lemma BadRowNotOk(t: Table, origins: seq<Id>, row: PathRow)
    requires forall x :: x in origins ==> x in t
    requires forall i, j :: 0 <= i < j < |origins| ==> origins[i] != origins[j]
    requires row in AllRows(t, origins) && !RowOk(row)
    ensures row.origin in origins && !PathOk(t, row.origin)
  {
    AllRowsCount(t, origins, row);
    assert multiset(AllRows(t, origins))[row] > 0;
    assert row in RowsFrom(t, row.origin, row.origin, [row.origin]);
  }

  ghost predicate Arrived(t: Table, origins: seq<Id>, rows: seq<PathRow>) {
    && (forall y :: y in origins ==> y in t)
    && (forall i, j :: 0 <= i < j < |origins| ==> origins[i] != origins[j])
    && multiset(rows) == multiset(AllRows(t, origins))
    && (forall row :: row in rows ==> RowOk(row))
  }

  lemma ArrivedCount(t: Table, origins: seq<Id>, rows: seq<PathRow>, x: Id, step: Step)
    requires Arrived(t, origins, rows)
    ensures multiset(StepsOf(rows, x))[step]
         == if x in origins then multiset(RowsFrom(t, x, x, [x]))[RowOf(x, step)] else 0
  {
    StepsOfCount(rows, x, step);
    AllRowsCount(t, origins, RowOf(x, step));
  }

  /** When only acceptable rows arrived, a requested row's path is acceptable. */
  lemma ArrivedOk(t: Table, origins: seq<Id>, rows: seq<PathRow>, x: Id)
    requires Arrived(t, origins, rows) && x in origins
    ensures PathOk(t, x)
  {
    forall row | row in RowsFrom(t, x, x, [x]) ensures RowOk(row) {
      RowsFromShape(t, x, x, [x]);
      AllRowsCount(t, origins, row);
      assert row in multiset(rows);
    }
  }

  /** What arrived for a requested row is, up to order, its path. */
  lemma ArrivedPath(t: Table, origins: seq<Id>, rows: seq<PathRow>, x: Id)
    requires Arrived(t, origins, rows) && x in origins
    ensures multiset(StepsOf(rows, x)) == multiset(PathOf(t, x)) && StepsOf(rows, x) != []
  {
    var mine := RowsFrom(t, x, x, [x]);
    RowsFromShape(t, x, x, [x]);
    ArrivedOk(t, origins, rows, x);
    forall step: Step ensures multiset(StepsOf(rows, x))[step] == multiset(PathOf(t, x))[step] {
      ArrivedCount(t, origins, rows, x, step);
      RootFirstCount(mine, x, step);
    }
    RootFirstAt(mine, 0);
    assert |multiset(PathOf(t, x))| == |mine|;
    assert |multiset(StepsOf(rows, x))| == |StepsOf(rows, x)|;
  }

  lemma NothingElseArrived(t: Table, origins: seq<Id>, rows: seq<PathRow>, x: Id)
    requires Arrived(t, origins, rows) && x !in origins
    ensures StepsOf(rows, x) == []
  {
    var steps := StepsOf(rows, x);
    forall step: Step ensures multiset(steps)[step] == 0 { ArrivedCount(t, origins, rows, x, step); }
    assert multiset(steps) == multiset{};
    assert |steps| == |multiset(steps)|;
  }

  lemma ArrivedSteps(t: Table, origins: seq<Id>, rows: seq<PathRow>, x: Id)
    requires Arrived(t, origins, rows)
    ensures x in origins ==> PathOk(t, x) && multiset(StepsOf(rows, x)) == multiset(PathOf(t, x))
    ensures x in origins <==> StepsOf(rows, x) != []
  {
    if x in origins {
      ArrivedPath(t, origins, rows, x);
      ArrivedOk(t, origins, rows, x);
    } else {
      NothingElseArrived(t, origins, rows, x);
    }
  }

  lemma PathOfSorted(t: Table, x: Id)
    requires x in t
    ensures StrictlyDeepestFirst(PathOf(t, x))
  {
    var rows := RowsFrom(t, x, x, [x]);
    RowsFromShape(t, x, x, [x]);
    forall i, j | 0 <= i < j < |PathOf(t, x)| ensures PathOf(t, x)[j].depth < PathOf(t, x)[i].depth {
      RootFirstAt(rows, 0);
      RootFirstAt(rows, i);
      RootFirstAt(rows, j);
    }
  }

  /** Reads rows as they arrive, until one of the bounds or a cycle stops the read. */
  method ReadRows(rows: seq<PathRow>) returns (r: Result<map<Id, seq<Step>>, PathError>)
    ensures r.Ok? <==> |rows| <= MAX_ROWS && forall row :: row in rows ==> RowOk(row)
    ensures r.Ok? ==> forall x :: x in r.value <==> StepsOf(rows, x) != []
    ensures r.Ok? ==> forall x :: x in r.value ==> r.value[x] == StepsOf(rows, x)
    ensures r == Err(ContainsCycle) ==> exists row :: row in rows && row.cycle
  {
    var paths: map<Id, seq<Step>> := map[];
    var count := 0;
    for i := 0 to |rows|
      invariant count == i <= MAX_ROWS
      invariant forall k :: 0 <= k < i ==> RowOk(rows[k])
      invariant forall x :: x in paths <==> StepsOf(rows[..i], x) != []
      invariant forall x :: x in paths ==> paths[x] == StepsOf(rows[..i], x)
    {
      var row := rows[i];
      count := count + 1;
      assert row in rows;
      if MAX_ROWS < count || MAX_DEPTH < row.depth { return Err(TooLarge); }
      if row.cycle { return Err(ContainsCycle); }
      assert rows[..i + 1][..i] == rows[..i];
      var soFar := if row.origin in paths then paths[row.origin] else [];
      paths := paths[row.origin := soFar + [ToStep(row)]];
    }
    assert rows[..|rows|] == rows;
    return Ok(paths);
  }

  /** The delivered rows pass exactly when no path is cyclic or too deep and there are not too many rows. */
  lemma DeliveredRowsTell(t: Table, origins: seq<Id>, rows: seq<PathRow>)
    requires forall x :: x in origins ==> x in t
    requires forall i, j :: 0 <= i < j < |origins| ==> origins[i] != origins[j]
    requires Delivers(rows, AllRows(t, origins))
    ensures (|rows| <= MAX_ROWS && forall row :: row in rows ==> RowOk(row))
       <==> Total(t, origins) <= MAX_ROWS && forall x :: x in origins ==> PathOk(t, x)
    ensures |rows| <= MAX_ROWS ==> multiset(rows) == multiset(AllRows(t, origins))
  {
    var all := AllRows(t, origins);
    AllRowsCount(t, origins, PathRow(0, 0, None, false, 0));
    if |rows| <= MAX_ROWS {
      assert |multiset(rows)| == |rows| && |multiset(all)| == |all|;
      SubMultisetOfSameSize(multiset(rows), multiset(all));
      forall row | row in rows && !RowOk(row)
        ensures row.origin in origins && !PathOk(t, row.origin)
      {
        assert row in multiset(all);
        BadRowNotOk(t, origins, row);
      }
      if forall row :: row in rows ==> RowOk(row) {
        forall x | x in origins ensures PathOk(t, x) { ArrivedSteps(t, origins, rows, x); }
      }
    }
  }

  /**
    Reads the delivered rows, refuses an oversized or cyclic result, and sorts
    each origin's steps. An empty request reads nothing.
   */
  method TreePaths(t: Table, ids: seq<Id>, rows: seq<PathRow>) returns (r: Result<map<Id, seq<Step>>, PathError>)
    requires Delivers(rows, AllRows(t, Origins(t, ids)))
    ensures r.Ok? <==> Total(t, Origins(t, ids)) <= MAX_ROWS && forall x :: x in ids && x in t ==> PathOk(t, x)
    ensures r.Ok? ==> forall x :: x in r.value <==> x in ids && x in t
    ensures r.Ok? ==> forall x :: x in r.value ==> r.value[x] == PathOf(t, x)
  {
    var origins := Origins(t, ids);
    if ids == [] {
      return Ok(map[]);
    }
    DeliveredRowsTell(t, origins, rows);
    r := ReadRows(rows);
    if r.Err? {
      return;
    }
    var paths := SortEach(r.value);
    forall x ensures PathReady(t, origins, paths, x) {
      ArrivedSteps(t, origins, rows, x);
      if x in paths {
        PathOfSorted(t, x);
        SortedUnique(paths[x], PathOf(t, x));
      }
    }
    forall x | x in paths ensures x in t && paths[x] == PathOf(t, x) {
      assert PathReady(t, origins, paths, x);
    }
    forall x ensures x in paths <==> x in ids && x in t {
      assert PathReady(t, origins, paths, x);
    }
    return Ok(paths);
  }

  ghost predicate PathReady(t: Table, origins: seq<Id>, paths: map<Id, seq<Step>>, x: Id) {
    && (x in paths <==> x in origins)
    && (x in paths ==> x in t && paths[x] == PathOf(t, x))
  }

  // ----- On a forest

  /** A complete chain: from a root, along parent links, to `x`. */
  predicate IsChain(t: Table, c: seq<Id>, x: Id) {
    && c != [] && c[|c| - 1] == x
    && (forall i :: 0 <= i < |c| ==> c[i] in t)
    && t[c[0]].None?
    && (forall i :: 0 < i < |c| ==> t[c[i]] == Some(c[i - 1]))
  }

  ghost function Chain(t: Table, x: Id): (c: seq<Id>)
    requires Forest(t) && x in t
    ensures IsChain(t, c, x)
    decreases AncestorSet(t, x)
  {
    if t[x].None? then [x]
    else
      AncestorsShrink(t, x);
      Chain(t, t[x].value) + [x]
  }

  lemma ChainTop(t: Table, c: seq<Id>, x: Id)
    requires IsChain(t, c, x)
    ensures |c| == 1 <==> t[x].None?
    ensures 1 < |c| ==> t[x] == Some(c[|c| - 2])
  {
    var last := |c| - 1;
    assert c[last] == x;
    if last > 0 { assert t[c[last]] == Some(c[last - 1]); }
  }

  lemma {:induction false} ChainUnique(t: Table, c: seq<Id>, d: seq<Id>, x: Id)
    requires IsChain(t, c, x) && IsChain(t, d, x)
    ensures c == d
  {
    ChainTop(t, c, x);
    ChainTop(t, d, x);
    if t[x].Some? {
      ChainUnique(t, c[..|c| - 1], d[..|d| - 1], c[|c| - 2]);
      assert c == c[..|c| - 1] + [x] && d == d[..|d| - 1] + [x];
    } else {
      assert c == [x] && d == [x];
    }
  }

  ghost predicate Under(t: Table, y: Id, x: Id) {
    exists n: nat :: 0 < n && Climb(t, y, n) == Some(x)
  }

  ghost predicate StrictlyBelow(t: Table, trail: seq<Id>, x: Id) {
    forall i :: 0 <= i < |trail| - 1 ==> Under(t, trail[i], x)
  }

  lemma StrictlyBelowExtends(t: Table, trail: seq<Id>, x: Id)
    requires trail != [] && trail[|trail| - 1] == x && x in t && t[x].Some? && t[x].value in t
    requires StrictlyBelow(t, trail, x)
    ensures StrictlyBelow(t, trail + [t[x].value], t[x].value)
  {
    var p := t[x].value;
    assert Climb(t, x, 1) == Some(p);
    forall i | 0 <= i < |trail| ensures Under(t, trail[i], p) {
      if i < |trail| - 1 {
        assert Under(t, trail[i], x);
        var n: nat :| 0 < n && Climb(t, trail[i], n) == Some(x);
        ClimbSum(t, trail[i], n, 1);
        assert Climb(t, trail[i], n + 1) == Some(p);
      }
    }
  }

  /** On a forest the query walks the chain upwards, never flags a cycle, and stops at the root or the bound. */
  lemma {:induction false} RowsFollowChain(t: Table, origin: Id, x: Id, trail: seq<Id>)
    requires Forest(t) && x in t && 0 < |trail| <= MAX_DEPTH + 1 && trail[|trail| - 1] == x
    requires StrictlyBelow(t, trail, x)
    ensures var rows, c := RowsFrom(t, origin, x, trail), Chain(t, x);
      && |rows| == (if |c| <= MAX_DEPTH + 2 - |trail| then |c| else MAX_DEPTH + 2 - |trail|)
      && forall i :: 0 <= i < |rows| ==>
           rows[i] == PathRow(origin, c[|c| - 1 - i], t[c[|c| - 1 - i]], false, |trail| + i)
    decreases MAX_DEPTH + 1 - |trail|
  {
    var rows, c := RowsFrom(t, origin, x, trail), Chain(t, x);
    assert x !in trail[..|trail| - 1];
    if |trail| <= MAX_DEPTH && t[x].Some? {
      var p := t[x].value;
      AncestorsShrink(t, x);
      StrictlyBelowExtends(t, trail, x);
      RowsFollowChain(t, origin, p, trail + [p]);
      var upper := Chain(t, p);
      assert c == upper + [x];
      assert rows == [rows[0]] + RowsFrom(t, origin, p, trail + [p]);
    }
  }

  /** A complete chain as steps: each row, its parent, and its distance from the requested node. */
  function ChainSteps(t: Table, c: seq<Id>): seq<Step>
    requires forall i :: 0 <= i < |c| ==> c[i] in t
  {
    seq(|c|, i requires 0 <= i < |c| => Step(c[i], t[c[i]], |c| - i))
  }

  lemma ForestPath(t: Table, x: Id)
    requires Forest(t) && x in t
    ensures PathOk(t, x) <==> |Chain(t, x)| <= MAX_DEPTH
    ensures PathOk(t, x) ==> PathOf(t, x) == ChainSteps(t, Chain(t, x))
    ensures |Chain(t, x)| <= MAX_DEPTH ==> |RowsFrom(t, x, x, [x])| == |Chain(t, x)|
  {
    var rows, c := RowsFrom(t, x, x, [x]), Chain(t, x);
    RowsFollowChain(t, x, x, [x]);
    assert MAX_DEPTH < |c| ==> !RowOk(rows[MAX_DEPTH]);
    RootFirstAt(rows, 0);
    forall i | 0 <= i < |rows| && PathOk(t, x) ensures PathOf(t, x)[i] == ChainSteps(t, c)[i] {
      RootFirstAt(rows, i);
    }
  }

  ghost function ChainTotal(t: Table, origins: seq<Id>): nat
    requires Forest(t) && forall x :: x in origins ==> x in t
  {
    if origins == [] then 0 else |Chain(t, origins[0])| + ChainTotal(t, origins[1..])
  }

  lemma {:induction false} TotalOnForest(t: Table, origins: seq<Id>)
    requires Forest(t) && forall x :: x in origins ==> x in t && |Chain(t, x)| <= MAX_DEPTH
    ensures Total(t, origins) == ChainTotal(t, origins)
  {
    if origins != [] {
      ForestPath(t, origins[0]);
      TotalOnForest(t, origins[1..]);
    }
  }

  lemma ForestAccepts(t: Table, ids: seq<Id>)
    requires Forest(t) && forall x :: x in ids ==> x in t
    ensures (Total(t, Origins(t, ids)) <= MAX_ROWS && forall x :: x in ids ==> PathOk(t, x))
       <==> (ChainTotal(t, Origins(t, ids)) <= MAX_ROWS && forall x :: x in ids ==> |Chain(t, x)| <= MAX_DEPTH)
  {
    forall x | x in ids ensures PathOk(t, x) <==> |Chain(t, x)| <= MAX_DEPTH { ForestPath(t, x); }
    if forall x :: x in ids ==> |Chain(t, x)| <= MAX_DEPTH {
      TotalOnForest(t, Origins(t, ids));
    }
  }

  /**
    On a forest, for at least one requested id and only existing ones, the
    request is answered exactly when every chain has at most 2500 nodes and all
    of them together at most 10000; the answer is then the complete chains.
   */
  method ForestPaths(t: Table, ids: seq<Id>, rows: seq<PathRow>) returns (r: Result<map<Id, seq<Step>>, PathError>)
    requires Forest(t) && ids != [] && forall x :: x in ids ==> x in t
    requires Delivers(rows, AllRows(t, Origins(t, ids)))
    ensures r.Ok? <==> ChainTotal(t, Origins(t, ids)) <= MAX_ROWS && forall x :: x in ids ==> |Chain(t, x)| <= MAX_DEPTH
    ensures r.Ok? <==> ChainTotal(t, Origins(t, ids)) <= 10000 && forall x :: x in ids ==> |Chain(t, x)| <= 2500
    ensures r.Ok? ==> forall x :: x in r.value <==> x in ids
    ensures r.Ok? ==> forall x :: x in r.value ==> r.value[x] == ChainSteps(t, Chain(t, x))
  {
    ForestAccepts(t, ids);
    r := TreePaths(t, ids, rows);
    if r.Ok? {
      forall x | x in r.value ensures r.value[x] == ChainSteps(t, Chain(t, x)) { ForestPath(t, x); }
    }
  }

  lemma ForestHasNoCycleRow(t: Table, origins: seq<Id>, rows: seq<PathRow>)
    requires Forest(t) && forall x :: x in origins ==> x in t
    requires forall i, j :: 0 <= i < j < |origins| ==> origins[i] != origins[j]
    requires Delivers(rows, AllRows(t, origins))
    ensures forall row :: row in rows ==> !row.cycle
  {
    forall row | row in rows ensures !row.cycle {
      assert row in multiset(rows);
      AllRowsCount(t, origins, row);
      RowsFollowChain(t, row.origin, row.origin, [row.origin]);
    }
  }

  // ----- The roots and children shortcuts

  /** What a path shows: the rows and their parents, without the depth used for sorting. */
  function Links(steps: seq<Step>): seq<(Id, Option<Id>)> {
    seq(|steps|, i requires 0 <= i < |steps| => (steps[i].id, steps[i].parent))
  }

  function RootShortcut(x: Id): seq<Step> {
    [Step(x, None, 0)]
  }

  function ChildShortcut(anchorPath: seq<Step>, anchor: Id, x: Id): seq<Step> {
    anchorPath + [Step(x, Some(anchor), 0)]
  }

  lemma RootShortcutAgrees(t: Table, x: Id)
    requires x in t && t[x].None?
    ensures Links(RootShortcut(x)) == Links(PathOf(t, x))
  {
    assert RowsFrom(t, x, x, [x]) == [PathRow(x, x, None, false, 1)];
    RootFirstAt(RowsFrom(t, x, x, [x]), 0);
  }

  /** The same rows for another origin, each one step less deep. */
  ghost predicate OneShallower(lower: seq<PathRow>, upper: seq<PathRow>, b: Id) {
    && |lower| == |upper|
    && forall i :: 0 <= i < |lower| ==>
         0 < lower[i].depth && upper[i] == lower[i].(origin := b, depth := lower[i].depth - 1)
  }

  /** Starting one row lower lengthens every trail by one and changes nothing else. */
  lemma {:induction false} LongerTrail(t: Table, a: Id, b: Id, x: Id, trail: seq<Id>, first: Id)
    requires x in t && 0 < |trail| <= MAX_DEPTH
    requires forall row :: row in RowsFrom(t, a, x, [first] + trail) ==> RowOk(row)
    ensures OneShallower(RowsFrom(t, a, x, [first] + trail), RowsFrom(t, b, x, trail), b)
    decreases MAX_DEPTH - |trail|
  {
    var long := [first] + trail;
    var lower, upper := RowsFrom(t, a, x, long), RowsFrom(t, b, x, trail);
    assert lower[0] in lower && RowOk(lower[0]);
    assert long[..|long| - 1] == [first] + trail[..|trail| - 1];
    if |trail| < MAX_DEPTH && t[x].Some? && t[x].value in t {
      var p := t[x].value;
      assert long + [p] == [first] + (trail + [p]);
      var next, above := RowsFrom(t, a, p, long + [p]), RowsFrom(t, b, p, trail + [p]);
      assert lower == [lower[0]] + next && upper == [upper[0]] + above;
      RowsOkBelow(lower[0], next);
      LongerTrail(t, a, b, p, trail + [p], first);
      ShallowerInFront(lower[0], next, upper[0], above, b);
    } else if t[x].Some? && t[x].value in t {
      DeepRow(t, a, x, long);
    }
  }

  lemma RowsOkBelow(row: PathRow, next: seq<PathRow>)
    requires forall r :: r in [row] + next ==> RowOk(r)
    ensures forall r :: r in next ==> RowOk(r)
  {
    forall r | r in next ensures RowOk(r) { assert r in [row] + next; }
  }

  lemma ShallowerInFront(row: PathRow, next: seq<PathRow>, up: PathRow, above: seq<PathRow>, b: Id)
    requires OneShallower(next, above, b) && 0 < row.depth && up == row.(origin := b, depth := row.depth - 1)
    ensures OneShallower([row] + next, [up] + above, b)
  {
  }

  /** A trail beyond the bound gives a row that is not accepted. */
  lemma DeepRow(t: Table, a: Id, x: Id, long: seq<Id>)
    requires x in t && |long| == MAX_DEPTH + 1
    ensures !RowOk(RowsFrom(t, a, x, long)[0])
  {
  }

  lemma {:induction false} LinksOfRows(a: seq<PathRow>, b: seq<PathRow>)
    requires |a| == |b| && forall i :: 0 <= i < |a| ==> a[i].id == b[i].id && a[i].parent == b[i].parent
    ensures Links(RootFirst(a)) == Links(RootFirst(b))
  {
    if a != [] {
      LinksOfRows(a[1..], b[1..]);
      assert Links(RootFirst(a)) == Links(RootFirst(a[1..])) + [(a[0].id, a[0].parent)];
      assert Links(RootFirst(b)) == Links(RootFirst(b[1..])) + [(b[0].id, b[0].parent)];
    }
  }

  /** Whenever the general computation accepts a child, the shortcut shows the same path. */
  lemma ChildShortcutAgrees(t: Table, anchor: Id, x: Id)
    requires x in t && anchor in t && t[x] == Some(anchor) && PathOk(t, x)
    ensures PathOk(t, anchor)
    ensures Links(ChildShortcut(PathOf(t, anchor), anchor, x)) == Links(PathOf(t, x))
  {
    var lower := RowsFrom(t, x, anchor, [x] + [anchor]);
    var theirs := RowsFrom(t, anchor, anchor, [anchor]);
    var mine := RowsFrom(t, x, x, [x]);
    assert forall row :: row in lower ==> row in mine;
    LongerTrail(t, x, anchor, anchor, [anchor], x);
    forall row | row in theirs ensures RowOk(row) {
      var i :| 0 <= i < |theirs| && theirs[i] == row;
      assert lower[i] in lower;
    }
    LinksOfRows(lower, theirs);
    ChildLinks(mine, lower, theirs, anchor, x);
  }

  lemma ChildLinks(mine: seq<PathRow>, lower: seq<PathRow>, theirs: seq<PathRow>, anchor: Id, x: Id)
    requires mine == [PathRow(x, x, Some(anchor), false, 1)] + lower
    requires Links(RootFirst(lower)) == Links(RootFirst(theirs))
    ensures Links(ChildShortcut(RootFirst(theirs), anchor, x)) == Links(RootFirst(mine))
  {
    assert mine[1..] == lower;
    assert Links(RootFirst(mine)) == Links(RootFirst(lower)) + [(x, Some(anchor))];
  }
}
