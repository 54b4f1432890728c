/**
  The patch plan against the ledger: which patches are applied, which are
  pending, and which operations belong to which pending patch.
 */
module PatchRunner {
  import opened Wrappers
  import opened SchemaModel
  import opened PatchPlan

  datatype Outcome = Applied | Baselined

  datatype Run = Run(app: string, id: string, path: string, phase: Phase, checksum: string, outcome: Outcome)

  type Key = (string, string)

  /** The recorded run of each patch identity. */
  function ByPatch(runs: seq<Run>): map<Key, Run> {
    if runs == [] then map[]
    else var r := runs[|runs| - 1]; ByPatch(runs[..|runs| - 1])[(r.app, r.id) := r]
  }

  lemma {:induction false} ByPatchKeys(runs: seq<Run>)
    ensures forall k :: k in ByPatch(runs) <==> exists i :: 0 <= i < |runs| && (runs[i].app, runs[i].id) == k
    ensures forall k :: k in ByPatch(runs) ==> ByPatch(runs)[k] in runs && (ByPatch(runs)[k].app, ByPatch(runs)[k].id) == k
  {
    if runs != [] {
      var front := runs[..|runs| - 1];
      ByPatchKeys(front);
      forall k ensures k in ByPatch(runs) <==> exists i :: 0 <= i < |runs| && (runs[i].app, runs[i].id) == k {
        if k in ByPatch(front) {
          var i :| 0 <= i < |front| && (front[i].app, front[i].id) == k;
          assert (runs[i].app, runs[i].id) == k;
        }
        if i :| 0 <= i < |runs| && (runs[i].app, runs[i].id) == k {
          if i < |front| { assert front[i] == runs[i]; }
        }
      }
    }
  }

  // ----- Applied and pending

  datatype Verdict = OtherPhase | ChangedFile | Recorded | Pending

  function VerdictOf(p: Patch, recorded: map<Key, Run>, phase: Phase): Verdict {
    if p.phase != phase then OtherPhase
    else if (p.app, p.id) !in recorded then Pending
    else if recorded[(p.app, p.id)].checksum != p.checksum then ChangedFile
    else Recorded
  }

  function Unrecorded(ps: seq<Patch>, recorded: map<Key, Run>, phase: Phase): seq<Patch> {
    if ps == [] then []
    else
      var p := ps[|ps| - 1];
      Unrecorded(ps[..|ps| - 1], recorded, phase) + if VerdictOf(p, recorded, phase).Pending? then [p] else []
  }

  datatype AppliedPatch = AppliedPatch(patch: Patch, run: Run)

  function AlreadyApplied(ps: seq<Patch>, recorded: map<Key, Run>, phase: Phase): seq<AppliedPatch> {
    if ps == [] then []
    else
      var p := ps[|ps| - 1];
      AlreadyApplied(ps[..|ps| - 1], recorded, phase)
      + if VerdictOf(p, recorded, phase).Recorded? then [AppliedPatch(p, recorded[(p.app, p.id)])] else []
  }

  /** A patch of the phase is pending when it has no ledger entry, and applied when the entry has its checksum. */
  lemma {:induction false} SplitExact(ps: seq<Patch>, recorded: map<Key, Run>, phase: Phase, p: Patch, run: Run)
    ensures p in Unrecorded(ps, recorded, phase) <==> p in ps && p.phase == phase && (p.app, p.id) !in recorded
    ensures AppliedPatch(p, run) in AlreadyApplied(ps, recorded, phase) <==>
      && p in ps && p.phase == phase && (p.app, p.id) in recorded
      && recorded[(p.app, p.id)] == run && run.checksum == p.checksum
  {
    if ps != [] {
      SplitExact(ps[..|ps| - 1], recorded, phase, p, run);
      assert ps == ps[..|ps| - 1] + [ps[|ps| - 1]];
    }
  }

  /** Some file of the phase no longer matches its ledger entry. */
  ghost predicate SomeChanged(ps: seq<Patch>, recorded: map<Key, Run>, phase: Phase) {
    exists i :: 0 <= i < |ps| && VerdictOf(ps[i], recorded, phase).ChangedFile?
  }

  // ----- Regrouping

  datatype PlannedPatch = PlannedPatch(patch: Patch, operations: seq<PlannedOp>)

  predicate Belongs(o: PlannedOp, p: Patch) {
    o.app == p.app && o.id == p.id
  }

  /** The last of the patches that an operation may belong to; a later index entry replaces an earlier one. */
  function IndexOf(ps: seq<Patch>, o: PlannedOp): int {
    if ps == [] then -1
    else if Belongs(o, ps[|ps| - 1]) then |ps| - 1
    else IndexOf(ps[..|ps| - 1], o)
  }

  function Claimed(ps: seq<Patch>, ops: seq<PlannedOp>, k: int): seq<PlannedOp> {
    if ops == [] then []
    else
      var o := ops[|ops| - 1];
      Claimed(ps, ops[..|ops| - 1], k) + if IndexOf(ps, o) == k then [o] else []
  }

  function Regroup(ps: seq<Patch>, ops: seq<PlannedOp>): seq<PlannedPatch> {
    seq(|ps|, k requires 0 <= k < |ps| => PlannedPatch(ps[k], Claimed(ps, ops, k)))
  }

  function Flatten(pending: seq<PlannedPatch>): seq<PlannedOp> {
    if pending == [] then [] else Flatten(pending[..|pending| - 1]) + pending[|pending| - 1].operations
  }

  predicate DistinctPatches(ps: seq<Patch>) {
    forall i, j :: 0 <= i < j < |ps| ==> (ps[i].app, ps[i].id) != (ps[j].app, ps[j].id)
  }

  predicate OwnedBySome(ops: seq<PlannedOp>, ps: seq<Patch>) {
    forall i :: 0 <= i < |ops| ==> exists j :: 0 <= j < |ps| && Belongs(ops[i], ps[j])
  }

  /** The operations of one patch, numbered from 0. */
  predicate OperationsOf(ops: seq<PlannedOp>, p: Patch) {
    |ops| == |p.operations| && forall i :: 0 <= i < |ops| ==> Belongs(ops[i], p) && ops[i].index == i
  }

  lemma {:induction false} PatchSegment(es: Entities, p: Patch, k: nat, before: Plan) returns (segment: seq<PlannedOp>)
    requires k <= |p.operations| && PlanPatch(es, p, k, before).Ok?
    ensures PlanPatch(es, p, k, before).value.operations == before.operations + segment
    ensures |segment| == k && forall i :: 0 <= i < k ==> Belongs(segment[i], p) && segment[i].index == i
  {
    if k == 0 {
      segment := [];
    } else {
      var front := PatchSegment(es, p, k - 1, before);
      var all := PlanPatch(es, p, k, before).value.operations;
      segment := front + [all[|all| - 1]];
    }
  }

  lemma {:induction false} IndexOfExact(ps: seq<Patch>, o: PlannedOp)
    ensures -1 <= IndexOf(ps, o) < |ps|
    ensures IndexOf(ps, o) >= 0 ==> Belongs(o, ps[IndexOf(ps, o)])
    ensures IndexOf(ps, o) == -1 <==> forall j :: 0 <= j < |ps| ==> !Belongs(o, ps[j])
  {
    if ps != [] && !Belongs(o, ps[|ps| - 1]) {
      var front := ps[..|ps| - 1];
      IndexOfExact(front, o);
      assert forall j :: 0 <= j < |front| ==> front[j] == ps[j];
      if IndexOf(ps, o) == -1 {
        forall j | 0 <= j < |ps| ensures !Belongs(o, ps[j]) { if j < |front| { assert !Belongs(o, front[j]); } }
      }
    }
  }

  lemma {:induction false} ClaimedSplits(ps: seq<Patch>, a: seq<PlannedOp>, b: seq<PlannedOp>, k: int)
    ensures Claimed(ps, a + b, k) == Claimed(ps, a, k) + Claimed(ps, b, k)
  {
    if b == [] {
      assert a + b == a;
    } else {
      assert (a + b)[..|a + b| - 1] == a + b[..|b| - 1];
      ClaimedSplits(ps, a, b[..|b| - 1], k);
    }
  }

  /** All operations go to one patch: it claims them all, the others none. */
  lemma {:induction false} ClaimedByOne(ps: seq<Patch>, ops: seq<PlannedOp>, j: int, k: int)
    requires forall i :: 0 <= i < |ops| ==> IndexOf(ps, ops[i]) == j
    ensures Claimed(ps, ops, k) == if j == k then ops else []
  {
    if ops != [] {
      var front := ops[..|ops| - 1];
      assert forall i :: 0 <= i < |front| ==> front[i] == ops[i];
      ClaimedByOne(ps, front, j, k);
      assert ops == front + [ops[|ops| - 1]];
    }
  }

  lemma {:induction false} ClaimedFromFront(ps: seq<Patch>, p: Patch, ops: seq<PlannedOp>, k: int)
    requires 0 <= k < |ps|
    requires forall i :: 0 <= i < |ops| ==> !Belongs(ops[i], p)
    ensures Claimed(ps + [p], ops, k) == Claimed(ps, ops, k)
    ensures Claimed(ps + [p], ops, |ps|) == []
  {
    if ops != [] {
      var front, o := ops[..|ops| - 1], ops[|ops| - 1];
      assert forall i :: 0 <= i < |front| ==> front[i] == ops[i];
      ClaimedFromFront(ps, p, front, k);
      assert (ps + [p])[..|ps|] == ps;
      IndexOfExact(ps, o);
    }
  }

  /** The operations of a plan, seen as the last patch's after those of the patches before it. */
  lemma PlanSegments(es: Entities, ps: seq<Patch>, s: Schema) returns (front: seq<PlannedOp>, segment: seq<PlannedOp>)
    requires ps != [] && PlanAll(es, ps, s).Ok?
    ensures PlanAll(es, ps[..|ps| - 1], s).Ok? && PlanAll(es, ps[..|ps| - 1], s).value.operations == front
    ensures PlanAll(es, ps, s).value.operations == front + segment
    ensures OperationsOf(segment, ps[|ps| - 1])
  {
    var before, p := PlanAll(es, ps[..|ps| - 1], s).value, ps[|ps| - 1];
    front := before.operations;
    segment := PatchSegment(es, p, |p.operations|, before);
  }

  lemma {:induction false} OperationsAreOwned(es: Entities, ps: seq<Patch>, s: Schema)
    requires PlanAll(es, ps, s).Ok?
    ensures OwnedBySome(PlanAll(es, ps, s).value.operations, ps)
  {
    if ps != [] {
      var front, segment := PlanSegments(es, ps, s);
      OperationsAreOwned(es, ps[..|ps| - 1], s);
      var ops := PlanAll(es, ps, s).value.operations;
      forall i | 0 <= i < |ops| ensures exists j :: 0 <= j < |ps| && Belongs(ops[i], ps[j]) {
        if i < |front| {
          var j :| 0 <= j < |ps| - 1 && Belongs(front[i], ps[..|ps| - 1][j]);
          assert Belongs(ops[i], ps[j]);
        } else {
          assert Belongs(segment[i - |front|], ps[|ps| - 1]);
        }
      }
    }
  }

  lemma FrontNotOwnedByLast(front: seq<PlannedOp>, ps: seq<Patch>)
    requires ps != [] && DistinctPatches(ps) && OwnedBySome(front, ps[..|ps| - 1])
    ensures forall i :: 0 <= i < |front| ==> !Belongs(front[i], ps[|ps| - 1])
  {
    forall i | 0 <= i < |front| ensures !Belongs(front[i], ps[|ps| - 1]) {
      var j :| 0 <= j < |ps| - 1 && Belongs(front[i], ps[..|ps| - 1][j]);
      assert ps[..|ps| - 1][j] == ps[j];
    }
  }

  lemma RegroupSplits(ps: seq<Patch>, front: seq<PlannedOp>, segment: seq<PlannedOp>)
    requires ps != [] && OperationsOf(segment, ps[|ps| - 1])
    requires forall i :: 0 <= i < |front| ==> !Belongs(front[i], ps[|ps| - 1])
    ensures Regroup(ps, front + segment)
         == Regroup(ps[..|ps| - 1], front) + [PlannedPatch(ps[|ps| - 1], segment)]
  {
    var init, p := ps[..|ps| - 1], ps[|ps| - 1];
    assert ps == init + [p];
    forall k | 0 <= k < |ps|
      ensures Claimed(ps, front + segment, k) == if k < |init| then Claimed(init, front, k) else segment
    {
      ClaimedSplits(ps, front, segment, k);
      ClaimedByOne(ps, segment, |ps| - 1, k);
      if k < |init| {
        ClaimedFromFront(init, p, front, k);
        assert Claimed(init, front, k) + [] == Claimed(init, front, k);
      } else {
        NoneClaimed(init, p, front);
        assert [] + segment == segment;
      }
    }
  }

  lemma {:induction false} NoneClaimed(ps: seq<Patch>, p: Patch, ops: seq<PlannedOp>)
    requires forall i :: 0 <= i < |ops| ==> !Belongs(ops[i], p)
    ensures Claimed(ps + [p], ops, |ps|) == []
  {
    if ops != [] {
      var front := ops[..|ops| - 1];
      assert forall i :: 0 <= i < |front| ==> front[i] == ops[i];
      NoneClaimed(ps, p, front);
      assert (ps + [p])[..|ps|] == ps;
      IndexOfExact(ps, ops[|ops| - 1]);
    }
  }

  /**
    With distinct identities, regrouping gives every pending patch exactly its own
    operations in order, and loses, repeats or moves none.
   */
  lemma {:induction false} RegroupIsExact(es: Entities, ps: seq<Patch>, s: Schema)
    requires DistinctPatches(ps) && PlanAll(es, ps, s).Ok?
    ensures var pending := Regroup(ps, PlanAll(es, ps, s).value.operations);
      && Flatten(pending) == PlanAll(es, ps, s).value.operations
      && forall k :: 0 <= k < |ps| ==> pending[k].patch == ps[k] && OperationsOf(pending[k].operations, ps[k])
  {
    if ps != [] {
      var init := ps[..|ps| - 1];
      var front, segment := PlanSegments(es, ps, s);
      RegroupIsExact(es, init, s);
      OperationsAreOwned(es, init, s);
      FrontNotOwnedByLast(front, ps);
      RegroupSplits(ps, front, segment);
      var before, pending := Regroup(init, front), Regroup(ps, front + segment);
      assert pending[..|pending| - 1] == before;
      forall k | 0 <= k < |ps| ensures pending[k].patch == ps[k] && OperationsOf(pending[k].operations, ps[k]) {
        if k < |init| { assert pending[k] == before[k]; }
      }
    }
  }

  // ----- The runner's plan

  datatype RunnerPlan = RunnerPlan(pending: seq<PlannedPatch>, applied: seq<AppliedPatch>,
                                   after: LiveSchema, unsimulated: bool)

  datatype RunnerError = ChecksumMismatch(app: string, id: string) | CannotPlan(error: BuildError)

  method IndexRuns(runs: seq<Run>) returns (recorded: map<Key, Run>)
    ensures recorded == ByPatch(runs)
  {
    recorded := map[];
    for i := 0 to |runs|
      invariant recorded == ByPatch(runs[..i])
    {
      assert runs[..i + 1][..i] == runs[..i];
      recorded := recorded[(runs[i].app, runs[i].id) := runs[i]];
    }
    assert runs[..|runs|] == runs;
  }

  method SplitByLedger(ps: seq<Patch>, recorded: map<Key, Run>, phase: Phase)
      returns (changed: Option<Patch>, pending: seq<Patch>, applied: seq<AppliedPatch>)
    ensures changed.Some? <==> SomeChanged(ps, recorded, phase)
    ensures changed.None? ==> pending == Unrecorded(ps, recorded, phase) && applied == AlreadyApplied(ps, recorded, phase)
    ensures changed.Some? ==> changed.value in ps && VerdictOf(changed.value, recorded, phase).ChangedFile?
  {
    changed, pending, applied := None, [], [];
    for i := 0 to |ps|
      invariant changed.None? && pending == Unrecorded(ps[..i], recorded, phase) && applied == AlreadyApplied(ps[..i], recorded, phase)
      invariant forall k :: 0 <= k < i ==> !VerdictOf(ps[k], recorded, phase).ChangedFile?
    {
      assert ps[..i + 1][..i] == ps[..i];
      if ps[i].phase == phase {
        if (ps[i].app, ps[i].id) in recorded {
          var run := recorded[(ps[i].app, ps[i].id)];
          if run.checksum != ps[i].checksum { changed := Some(ps[i]); return; }
          applied := applied + [AppliedPatch(ps[i], run)];
        } else {
          pending := pending + [ps[i]];
        }
      }
    }
    assert ps[..|ps|] == ps;
  }

  /** Hands every planned operation to its pending patch. */
  method Distribute(ps: seq<Patch>, ops: seq<PlannedOp>) returns (pending: seq<PlannedPatch>)
    requires OwnedBySome(ops, ps)
    ensures pending == Regroup(ps, ops)
  {
    var index: map<Key, nat> := map[];
    pending := [];
    for i := 0 to |ps|
      invariant |pending| == i && forall k :: 0 <= k < i ==> pending[k] == PlannedPatch(ps[k], [])
      invariant forall o: PlannedOp :: (o.app, o.id) in index <==> IndexOf(ps[..i], o) >= 0
      invariant forall o: PlannedOp :: (o.app, o.id) in index ==> index[(o.app, o.id)] == IndexOf(ps[..i], o)
    {
      assert ps[..i + 1][..i] == ps[..i];
      index := index[(ps[i].app, ps[i].id) := i];
      pending := pending + [PlannedPatch(ps[i], [])];
    }
    assert ps[..|ps|] == ps;
    for i := 0 to |ops|
      invariant |pending| == |ps|
      invariant forall k :: 0 <= k < |ps| ==> pending[k] == PlannedPatch(ps[k], Claimed(ps, ops[..i], k))
    {
      IndexOfExact(ps, ops[i]);
      var k := index[(ops[i].app, ops[i].id)];
      assert ops[..i + 1][..i] == ops[..i];
      pending := pending[k := pending[k].(operations := pending[k].operations + [ops[i]])];
    }
    assert ops[..|ops|] == ops;
  }

  /** The pending patches with their operations; without any, nothing is planned at all. */
  ghost predicate PlannedFrom(r: RunnerPlan, pending: seq<Patch>, es: seq<Entity>, live: Schema)
    reads Cells(r.after)
  {
    if pending == [] then r.pending == [] && Value(r.after) == live && !r.unsimulated
    else
      var plan := PlanAll(ByIdentity(es), pending, live);
      && DistinctEntities(es) && plan.Ok?
      && r.pending == Regroup(pending, plan.value.operations)
      && Value(r.after) == plan.value.after && r.unsimulated == plan.value.unsimulated
  }

  method PlanPending(pending: seq<Patch>, applied: seq<AppliedPatch>, es: seq<Entity>, live: LiveSchema)
      returns (r: Result<RunnerPlan, BuildError>)
    ensures r.Ok? ==> r.value.applied == applied && PlannedFrom(r.value, pending, es, Value(live))
    ensures r.Ok? ==> fresh(Cells(r.value.after))
    ensures r.Err? ==> pending != [] && FailsAs(r.error, es, pending, Value(live))
  {
    ghost var given := Value(live);
    if pending == [] {
      var copy := CloneLiveSchema(live);
      return Ok(RunnerPlan([], applied, copy, false));
    }
    var plan := BuildPatchOperationPlan(pending, es, live);
    assert Value(live) == given;
    if plan.Err? { return Err(plan.error); }
    ghost var planned := Value(plan.value.after);
    assert PlanAll(ByIdentity(es), pending, given) == Ok(Plan(plan.value.operations, planned, plan.value.unsimulated));
    OperationsAreOwned(ByIdentity(es), pending, given);
    var grouped := Distribute(pending, plan.value.operations);
    assert Value(live) == given && Value(plan.value.after) == planned;
    return Ok(RunnerPlan(grouped, applied, plan.value.after, plan.value.unsimulated));
  }

  /** Pending and applied patches of one phase; a changed file that has a ledger entry blocks the plan. */
  method BuildPatchPlan(ps: seq<Patch>, es: seq<Entity>, live: LiveSchema, runs: seq<Run>, phase: Phase)
      returns (r: Result<RunnerPlan, RunnerError>)
    ensures r.Err? && r.error.ChecksumMismatch? <==> SomeChanged(ps, ByPatch(runs), phase)
    ensures r.Ok? ==> r.value.applied == AlreadyApplied(ps, ByPatch(runs), phase)
    ensures r.Ok? ==> PlannedFrom(r.value, Unrecorded(ps, ByPatch(runs), phase), es, Value(live))
    ensures r.Ok? ==> fresh(Cells(r.value.after))
    ensures r.Err? && r.error.CannotPlan? ==>
      var pending := Unrecorded(ps, ByPatch(runs), phase);
      !SomeChanged(ps, ByPatch(runs), phase) && pending != [] && FailsAs(r.error.error, es, pending, Value(live))
  {
    var recorded := IndexRuns(runs);
    var changed, pending, applied := SplitByLedger(ps, recorded, phase);
    if changed.Some? { return Err(ChecksumMismatch(changed.value.app, changed.value.id)); }
    var plan := PlanPending(pending, applied, es, live);
    return if plan.Err? then Err(CannotPlan(plan.error)) else Ok(plan.value);
  }
}
