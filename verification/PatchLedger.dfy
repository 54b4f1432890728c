/** The patch ledger, and whole histories of the migrations that write it. */
module PatchLedger {
  // Every migration commits or rolls back whole, and over any history a patch takes
  // effect at most once.

  import opened Wrappers
  import opened SchemaModel
  import opened StorageNames
  import opened PatchPlan
  import opened PatchRunner

  /** One operation of one patch, as it took effect. */
  datatype Effect = Effect(app: string, id: string, index: nat)

  // ----- The ledger

  datatype LedgerError = InvalidRun | ChangedChecksum | AlreadyRecorded | AppMissing

  datatype TxError = Refused(effect: Effect) | Ledger(error: LedgerError) | NoPlan(why: RunnerError) | OtherStep

  predicate ValidRun(r: Run) {
    !Blank(r.app) && !Blank(r.id) && !Blank(r.path) && !Blank(r.checksum)
  }

  predicate DistinctRuns(runs: seq<Run>) {
    forall i, j :: 0 <= i < j < |runs| ==> (runs[i].app, runs[i].id) != (runs[j].app, runs[j].id)
  }

  function RunOf(p: Patch, outcome: Outcome): Run {
    Run(p.app, p.id, p.path, p.phase, p.checksum, outcome)
  }

  function RunsOf(ps: seq<Patch>, outcome: Outcome): seq<Run> {
    seq(|ps|, i requires 0 <= i < |ps| => RunOf(ps[i], outcome))
  }

  function Patches(pending: seq<PlannedPatch>): seq<Patch> {
    seq(|pending|, i requires 0 <= i < |pending| => pending[i].patch)
  }

  function EffectOf(o: PlannedOp): Effect {
    Effect(o.app, o.id, o.index)
  }

  function EffectsOf(ops: seq<PlannedOp>): seq<Effect> {
    seq(|ops|, i requires 0 <= i < |ops| => EffectOf(ops[i]))
  }

  // ----- What a migration does with each patch

  /** A patch that says nothing runs when an installed app migrates. */
  function Mode(p: Patch): RunOn {
    if p.runOn.Unset? then OnMigrate else p.runOn
  }

  /** On a fresh install the history of an app is recorded, not replayed. */
  predicate IsBaseline(p: Patch, installing: set<string>) {
    p.app in installing && Mode(p) == OnMigrate
  }

  predicate IsSkipped(p: Patch, installing: set<string>) {
    p.app !in installing && Mode(p) == OnInstall
  }

  predicate Executes(p: Patch, installing: set<string>) {
    !IsBaseline(p, installing) && !IsSkipped(p, installing)
  }

  /**
    What happens to a new patch, by its mode: one for installing runs while its app is
    installed and is skipped later; one for both always runs; any other runs later, and
    is only recorded while its app is installed.
   */
  lemma ModesExact(p: Patch, installing: set<string>)
    ensures p.runOn == OnInstall ==>
      if p.app in installing then Executes(p, installing) else IsSkipped(p, installing)
    ensures p.runOn == OnBoth ==> Executes(p, installing)
    ensures p.runOn == OnMigrate || p.runOn == Unset ==>
      if p.app in installing then IsBaseline(p, installing) else Executes(p, installing)
    ensures !(Executes(p, installing) && IsBaseline(p, installing)) && !(Executes(p, installing) && IsSkipped(p, installing))
    ensures !(IsBaseline(p, installing) && IsSkipped(p, installing))
  {
  }

  function Baselines(ps: seq<Patch>, recorded: map<Key, Run>, phase: Phase, installing: set<string>): seq<Patch> {
    if ps == [] then []
    else
      var p := ps[|ps| - 1];
      Baselines(ps[..|ps| - 1], recorded, phase, installing)
      + if VerdictOf(p, recorded, phase).Pending? && IsBaseline(p, installing) then [p] else []
  }

  function Selected(ps: seq<Patch>, recorded: map<Key, Run>, phase: Phase, installing: set<string>): seq<Patch> {
    if ps == [] then []
    else
      var p := ps[|ps| - 1];
      var v := VerdictOf(p, recorded, phase);
      Selected(ps[..|ps| - 1], recorded, phase, installing)
      + if v.Recorded? || (v.Pending? && Executes(p, installing)) then [p] else []
  }

  /** The patches one phase of a migration executes. */
  function ToRun(ps: seq<Patch>, recorded: map<Key, Run>, phase: Phase, installing: set<string>): seq<Patch> {
    if ps == [] then []
    else
      var p := ps[|ps| - 1];
      ToRun(ps[..|ps| - 1], recorded, phase, installing)
      + if VerdictOf(p, recorded, phase).Pending? && Executes(p, installing) then [p] else []
  }

  lemma {:induction false} SelectionKeepsVerdicts(ps: seq<Patch>, recorded: map<Key, Run>, phase: Phase, installing: set<string>)
    ensures Unrecorded(Selected(ps, recorded, phase, installing), recorded, phase) == ToRun(ps, recorded, phase, installing)
    ensures !SomeChanged(Selected(ps, recorded, phase, installing), recorded, phase)
  {
    if ps != [] {
      var front, p := ps[..|ps| - 1], ps[|ps| - 1];
      SelectionKeepsVerdicts(front, recorded, phase, installing);
      var before, all := Selected(front, recorded, phase, installing), Selected(ps, recorded, phase, installing);
      if all != before { assert all[..|all| - 1] == before; }
    }
  }

  lemma {:induction false} ToRunExact(ps: seq<Patch>, recorded: map<Key, Run>, phase: Phase, installing: set<string>)
    ensures forall p :: p in ToRun(ps, recorded, phase, installing) <==>
      p in ps && p.phase == phase && (p.app, p.id) !in recorded && Executes(p, installing)
    ensures forall p :: p in Baselines(ps, recorded, phase, installing) <==>
      p in ps && p.phase == phase && (p.app, p.id) !in recorded && IsBaseline(p, installing)
  {
    if ps != [] {
      ToRunExact(ps[..|ps| - 1], recorded, phase, installing);
      assert ps == ps[..|ps| - 1] + [ps[|ps| - 1]];
    }
  }

  datatype LifecyclePlan = LifecyclePlan(runner: RunnerPlan, baseline: seq<Patch>)

  /** A phase can be planned: no recorded file of it changed, and the operations due can be planned one after the other. */
  ghost predicate Plannable(ps: seq<Patch>, es: seq<Entity>, live: Schema, runs: seq<Run>, phase: Phase,
                            installing: set<string>) {
    && (forall p :: p in ps && p.phase == phase ==> UnchangedFile(p, runs))
    && var due := ToRun(ps, ByPatch(runs), phase, installing);
       due == [] || (DistinctEntities(es) && PlanAll(ByIdentity(es), due, live).Ok?)
  }

  predicate UnchangedFile(p: Patch, runs: seq<Run>) {
    var recorded := ByPatch(runs);
    (p.app, p.id) in recorded ==> recorded[(p.app, p.id)].checksum == p.checksum
  }

  /** The patches due, each with its operations, as far as they can be planned. */
  function DuePlan(ps: seq<Patch>, es: seq<Entity>, live: Schema, runs: seq<Run>, phase: Phase,
                   installing: set<string>): seq<PlannedPatch> {
    var due := ToRun(ps, ByPatch(runs), phase, installing);
    var plan := PlanAll(ByIdentity(es), due, live);
    if due == [] || plan.Err? then [] else Regroup(due, plan.value.operations)
  }

  lemma UnchangedFiles(ps: seq<Patch>, runs: seq<Run>, phase: Phase)
    ensures !SomeChanged(ps, ByPatch(runs), phase) <==> forall p :: p in ps && p.phase == phase ==> UnchangedFile(p, runs)
  {
    if SomeChanged(ps, ByPatch(runs), phase) {
      var i :| 0 <= i < |ps| && VerdictOf(ps[i], ByPatch(runs), phase).ChangedFile?;
      assert ps[i] in ps && !UnchangedFile(ps[i], runs);
    } else {
      forall p | p in ps && p.phase == phase ensures UnchangedFile(p, runs) {
        var i :| 0 <= i < |ps| && ps[i] == p;
        assert !VerdictOf(ps[i], ByPatch(runs), phase).ChangedFile?;
      }
    }
  }

  /** Selects what this migration runs; every recorded file of the phase must be unchanged. */
  method BuildLifecyclePatchPlan(ps: seq<Patch>, es: seq<Entity>, live: LiveSchema, runs: seq<Run>, phase: Phase,
                                 installing: set<string>) returns (r: Result<LifecyclePlan, RunnerError>)
    ensures r.Err? && r.error.ChecksumMismatch? <==> SomeChanged(ps, ByPatch(runs), phase)
    ensures r.Ok? ==> r.value.baseline == Baselines(ps, ByPatch(runs), phase, installing)
    ensures r.Ok? ==>
      var due := ToRun(ps, ByPatch(runs), phase, installing);
      PlannedFrom(r.value.runner, due, es, Value(live)) && PendingFor(r.value.runner.pending, due)
    ensures r.Err? && r.error.CannotPlan? ==>
      var due := ToRun(ps, ByPatch(runs), phase, installing);
      !SomeChanged(ps, ByPatch(runs), phase) && due != [] && FailsAs(r.error.error, es, due, Value(live))
    ensures r.Ok? <==> Plannable(ps, es, Value(live), runs, phase, installing)
    ensures r.Ok? ==> r.value.runner.pending == DuePlan(ps, es, Value(live), runs, phase, installing)
  {
    UnchangedFiles(ps, runs, phase);
    var recorded := IndexRuns(runs);
    var changed, selected, baseline := SelectPatches(ps, recorded, phase, installing);
    if changed.Some? { return Err(ChecksumMismatch(changed.value.app, changed.value.id)); }
    SelectionKeepsVerdicts(ps, recorded, phase, installing);
    var plan := BuildPatchPlan(selected, es, live, runs, phase);
    if plan.Err? { return Err(plan.error); }
    PlannedIsPendingFor(plan.value, ToRun(ps, recorded, phase, installing), es, Value(live));
    return Ok(LifecyclePlan(plan.value, baseline));
  }

  method SelectPatches(ps: seq<Patch>, recorded: map<Key, Run>, phase: Phase, installing: set<string>)
      returns (changed: Option<Patch>, selected: seq<Patch>, baseline: seq<Patch>)
    ensures changed.Some? <==> SomeChanged(ps, recorded, phase)
    ensures changed.None? ==> selected == Selected(ps, recorded, phase, installing)
    ensures changed.None? ==> baseline == Baselines(ps, recorded, phase, installing)
  {
    changed, selected, baseline := None, [], [];
    for i := 0 to |ps|
      invariant changed.None? && forall k :: 0 <= k < i ==> !VerdictOf(ps[k], recorded, phase).ChangedFile?
      invariant selected == Selected(ps[..i], recorded, phase, installing)
      invariant baseline == Baselines(ps[..i], recorded, phase, installing)
    {
      assert ps[..i + 1][..i] == ps[..i];
      var p := ps[i];
      if p.phase == phase {
        if (p.app, p.id) in recorded {
          if recorded[(p.app, p.id)].checksum != p.checksum { changed := Some(p); return; }
          selected := selected + [p];
        } else if p.app in installing && Mode(p) == OnMigrate {
          baseline := baseline + [p];
        } else if !(p.app !in installing && Mode(p) == OnInstall) {
          selected := selected + [p];
        }
      }
    }
    assert ps[..|ps|] == ps;
  }

  /** The pending patches are ps, and with distinct identities each carries its own operations in order. */
  predicate PendingFor(pending: seq<PlannedPatch>, ps: seq<Patch>) {
    && Patches(pending) == ps
    && (DistinctPatches(ps) ==> forall k :: 0 <= k < |pending| ==> OperationsOf(pending[k].operations, pending[k].patch))
  }

  lemma PlannedIsPendingFor(r: RunnerPlan, ps: seq<Patch>, es: seq<Entity>, live: Schema)
    requires PlannedFrom(r, ps, es, live)
    ensures PendingFor(r.pending, ps)
  {
    if ps != [] {
      var plan := PlanAll(ByIdentity(es), ps, live);
      assert Patches(Regroup(ps, plan.value.operations)) == ps;
      if DistinctPatches(ps) { RegroupIsExact(ByIdentity(es), ps, live); }
    }
  }

  // ----- Which runs the ledger takes

  /** A run the ledger takes: valid, of a known app, and new. */
  predicate RunAccepted(r: Run, ledger: seq<Run>, apps: set<string>) {
    ValidRun(r) && (r.app, r.id) !in ByPatch(ledger) && r.app in apps
  }

  /** Runs the ledger takes one after the other. */
  predicate RunsAccepted(runs: seq<Run>, ledger: seq<Run>, apps: set<string>) {
    runs == [] ||
    (RunsAccepted(runs[..|runs| - 1], ledger, apps) &&
     RunAccepted(runs[|runs| - 1], ledger + runs[..|runs| - 1], apps))
  }

  lemma {:induction false} AcceptedSplits(a: seq<Run>, b: seq<Run>, ledger: seq<Run>, apps: set<string>)
    ensures RunsAccepted(a + b, ledger, apps) <==> RunsAccepted(a, ledger, apps) && RunsAccepted(b, ledger + a, apps)
  {
    if b == [] {
      assert a + b == a;
    } else {
      var front := b[..|b| - 1];
      assert (a + b)[..|a + b| - 1] == a + front;
      assert ledger + (a + front) == ledger + a + front;
      AcceptedSplits(a, front, ledger, apps);
    }
  }

  lemma KeysOfBoth(a: seq<Run>, b: seq<Run>, k: Key)
    ensures k in ByPatch(a + b) <==> k in ByPatch(a) || exists i :: 0 <= i < |b| && (b[i].app, b[i].id) == k
  {
    ByPatchKeys(a);
    ByPatchKeys(a + b);
    if k in ByPatch(a) {
      var i :| 0 <= i < |a| && (a[i].app, a[i].id) == k;
      assert ((a + b)[i].app, (a + b)[i].id) == k;
    }
    if i :| 0 <= i < |b| && (b[i].app, b[i].id) == k {
      assert (a + b)[|a| + i] == b[i];
    }
  }

  /** Runs are taken exactly when each is valid, of a known app and not recorded yet, and no identity occurs twice. */
  lemma {:induction false} AcceptedExact(runs: seq<Run>, ledger: seq<Run>, apps: set<string>)
    ensures RunsAccepted(runs, ledger, apps) <==>
      DistinctRuns(runs) && forall i :: 0 <= i < |runs| ==> RunAccepted(runs[i], ledger, apps)
  {
    if runs != [] {
      var front, last := runs[..|runs| - 1], runs[|runs| - 1];
      AcceptedExact(front, ledger, apps);
      KeysOfBoth(ledger, front, (last.app, last.id));
      assert forall i :: 0 <= i < |front| ==> front[i] == runs[i];
    }
  }

  /** Operations the database takes, in whatever state it is. */
  predicate NoneRefused(ops: seq<PlannedOp>, refuses: Effect -> bool) {
    forall i :: 0 <= i < |ops| ==> !refuses(EffectOf(ops[i]))
  }

  /** A pending patch that can be applied: no operation is refused and its run is taken. */
  predicate Applicable(p: PlannedPatch, ledger: seq<Run>, apps: set<string>, refuses: Effect -> bool) {
    NoneRefused(p.operations, refuses) && RunAccepted(RunOf(p.patch, Applied), ledger, apps)
  }

  /** All the runs that applying a plan writes, in order. */
  function AllRuns(pending: seq<PlannedPatch>, baseline: seq<Patch>): seq<Run> {
    RunsOf(Patches(pending), Applied) + RunsOf(baseline, Baselined)
  }

  lemma OneRun(p: Patch, outcome: Outcome, ledger: seq<Run>, apps: set<string>)
    ensures RunsOf([p], outcome) == [RunOf(p, outcome)]
    ensures RunsAccepted([RunOf(p, outcome)], ledger, apps) <==> RunAccepted(RunOf(p, outcome), ledger, apps)
  {
    assert [RunOf(p, outcome)][..0] == [] && ledger + [] == ledger;
  }

  /** A run that is not taken where it stands spoils all runs. */
  lemma OneRejected(runs: seq<Run>, k: nat, ledger: seq<Run>, apps: set<string>)
    requires k < |runs| && !RunAccepted(runs[k], ledger + runs[..k], apps)
    ensures !RunsAccepted(runs, ledger, apps)
  {
    assert runs == runs[..k + 1] + runs[k + 1..];
    AcceptedSplits(runs[..k + 1], runs[k + 1..], ledger, apps);
    assert runs[..k + 1][..k] == runs[..k];
  }

  // ----- The database side

  datatype World = World(ledger: seq<Run>, effects: seq<Effect>)

  class Database {
    var ledger: seq<Run>
    var effects: seq<Effect>
    var apps: set<string>

    ghost function Now(): World
      reads this
    {
      World(ledger, effects)
    }

    /** Adds one run, once: an identity that is already there is an error, and a different one when its file changed. */
    method RecordPatchRun(run: Run) returns (e: Option<LedgerError>)
      modifies this`ledger
      ensures e.None? <==> ValidRun(run) && (run.app, run.id) !in ByPatch(old(ledger)) && run.app in apps
      ensures ledger == if e.None? then old(ledger) + [run] else old(ledger)
      ensures e == Some(InvalidRun) <==> Blank(run.app) || Blank(run.id) || Blank(run.path) || Blank(run.checksum)
      ensures e == Some(ChangedChecksum) ==>
        (run.app, run.id) in ByPatch(ledger) && ByPatch(ledger)[(run.app, run.id)].checksum != run.checksum
      ensures e == Some(AlreadyRecorded) ==>
        (run.app, run.id) in ByPatch(ledger) && ByPatch(ledger)[(run.app, run.id)].checksum == run.checksum
    {
      if Blank(run.app) || Blank(run.id) || Blank(run.path) || Blank(run.checksum) { return Some(InvalidRun); }
      var existing := GetPatchRun(run.app, run.id);
      if existing.Some? {
        return Some(if existing.value.checksum != run.checksum then ChangedChecksum else AlreadyRecorded);
      }
      if run.app !in apps { return Some(AppMissing); }
      ledger := ledger + [run];
      return None;
    }

    method GetPatchRun(app: string, id: string) returns (r: Option<Run>)
      ensures r == if (app, id) in ByPatch(ledger) then Some(ByPatch(ledger)[(app, id)]) else None
    {
      r := None;
      for i := 0 to |ledger|
        invariant r == if (app, id) in ByPatch(ledger[..i]) then Some(ByPatch(ledger[..i])[(app, id)]) else None
      {
        assert ledger[..i + 1][..i] == ledger[..i];
        if ledger[i].app == app && ledger[i].id == id { r := Some(ledger[i]); }
      }
      assert ledger[..|ledger|] == ledger;
    }

    /** Executes operations until one is refused. */
    method ExecuteAll(ops: seq<PlannedOp>, refuses: Effect -> bool) returns (e: Option<TxError>)
      modifies this`effects
      ensures e.None? <==> NoneRefused(ops, refuses)
      ensures e.None? ==> effects == old(effects) + EffectsOf(ops)
    {
      e := None;
      for i := 0 to |ops|
        invariant e.None? && NoneRefused(ops[..i], refuses) && effects == old(effects) + EffectsOf(ops[..i])
      {
        if refuses(EffectOf(ops[i])) { return Some(Refused(EffectOf(ops[i]))); }
        assert EffectsOf(ops[..i + 1]) == EffectsOf(ops[..i]) + [EffectOf(ops[i])];
        effects := effects + [EffectOf(ops[i])];
      }
      assert ops[..|ops|] == ops;
    }

    method RecordAll(ps: seq<Patch>, outcome: Outcome) returns (e: Option<TxError>)
      modifies this`ledger
      ensures e.None? <==> RunsAccepted(RunsOf(ps, outcome), old(ledger), apps)
      ensures e.None? ==> ledger == old(ledger) + RunsOf(ps, outcome)
    {
      e := None;
      ghost var runs := RunsOf(ps, outcome);
      for i := 0 to |ps|
        invariant e.None? && ledger == old(ledger) + runs[..i] && RunsAccepted(runs[..i], old(ledger), apps)
      {
        var failed := RecordPatchRun(RunOf(ps[i], outcome));
        if failed.Some? {
          OneRejected(runs, i, old(ledger), apps);
          return Some(Ledger(failed.value));
        }
        assert runs[..i + 1][..i] == runs[..i] && runs[i] == RunOf(ps[i], outcome);
        assert old(ledger) + runs[..i] + [runs[i]] == old(ledger) + runs[..i + 1];
      }
      assert runs[..|ps|] == runs;
    }

    /** One pending patch: its operations, then its ledger entry. */
    method ApplyOne(p: PlannedPatch, refuses: Effect -> bool) returns (e: Option<TxError>)
      modifies this`ledger, this`effects
      ensures e.None? <==> Applicable(p, old(ledger), apps, refuses)
      ensures e.None? ==> Now() == AfterPending([p], old(Now()))
    {
      e := ExecuteAll(p.operations, refuses);
      if e.Some? { return; }
      OneRun(p.patch, Applied, ledger, apps);
      e := RecordAll([p.patch], Applied);
      OnePatch(p);
    }

    /**
      Work inside the caller's transaction. On an error the state is whatever it
      was at that point: the caller rolls back.
     */
    method ApplyPatchPlanTx(pending: seq<PlannedPatch>, baseline: seq<Patch>, refuses: Effect -> bool)
        returns (e: Option<TxError>)
      modifies this`ledger, this`effects
      ensures e.None? <==> PlanTaken(pending, baseline, old(ledger), apps, refuses)
      ensures e.None? ==> Now() == AfterBaselines(baseline, AfterPending(pending, old(Now())))
      ensures e.None? && DistinctRuns(old(ledger)) ==> DistinctRuns(ledger)
    {
      PlanTakenSplits(pending, baseline, Now(), apps, refuses);
      e := ApplyPending(pending, refuses);
      if e.Some? { return; }
      ghost var mid := ledger;
      assert mid == AfterPending(pending, old(Now())).ledger;
      e := RecordAll(baseline, Baselined);
      if e.None? { AcceptedStayDistinct(RunsOf(baseline, Baselined), mid, ledger, apps); }
    }

    /** The pending patches, one after the other, up to the first that cannot be applied. */
    method ApplyPending(pending: seq<PlannedPatch>, refuses: Effect -> bool) returns (e: Option<TxError>)
      modifies this`ledger, this`effects
      ensures e.None? <==> AllApplicable(pending, old(Now()), apps, refuses)
      ensures e.None? ==> Now() == AfterPending(pending, old(Now()))
      ensures e.None? && DistinctRuns(old(ledger)) ==> DistinctRuns(ledger)
    {
      e := None;
      NothingAppliedYet(pending, Now(), apps, refuses);
      for i := 0 to |pending|
        invariant e.None? && AppliedSoFar(pending, i, old(Now()), Now(), apps, refuses)
      {
        ghost var mid := Now();
        e := ApplyOne(pending[i], refuses);
        assert e.None? <==> AppliesAt(pending, i, old(Now()), apps, refuses);
        if e.Some? { return; }
        AppliedOneMore(pending, i, old(Now()), mid, Now(), apps, refuses);
      }
      assert pending[..|pending|] == pending;
    }

    /** Each pending patch in a transaction of its own; the first that cannot be applied ends the work and undoes only itself. */
    method ApplyPatchPlan(pending: seq<PlannedPatch>, refuses: Effect -> bool) returns (done: nat, e: Option<TxError>)
      modifies this`ledger, this`effects
      ensures done <= |pending| && (e.None? <==> done == |pending|)
      ensures AppliedSoFar(pending, done, old(Now()), Now(), apps, refuses)
      ensures e.Some? ==> !Applicable(pending[done], ledger, apps, refuses)
      ensures Now() == AfterPending(pending[..done], old(Now()))
      ensures DistinctRuns(old(ledger)) ==> DistinctRuns(ledger)
    {
      done, e := 0, None;
      NothingAppliedYet(pending, Now(), apps, refuses);
      for i := 0 to |pending|
        invariant done == i && e.None? && AppliedSoFar(pending, i, old(Now()), Now(), apps, refuses)
      {
        ghost var mid := Now();
        e := ApplyInTransaction(pending[i], refuses);
        if e.Some? { return; }
        AppliedOneMore(pending, i, old(Now()), mid, Now(), apps, refuses);
        done := i + 1;
      }
    }

    /** One patch in a transaction of its own: all of it, or nothing. */
    method ApplyInTransaction(p: PlannedPatch, refuses: Effect -> bool) returns (e: Option<TxError>)
      modifies this`ledger, this`effects
      ensures e.None? <==> Applicable(p, old(ledger), apps, refuses)
      ensures Now() == if e.None? then AfterPending([p], old(Now())) else old(Now())
    {
      var savedLedger, savedEffects := ledger, effects;
      e := ApplyOne(p, refuses);
      if e.Some? { ledger, effects := savedLedger, savedEffects; }
    }

    /**
      One migration: plan both phases, run the first, synchronise the schema, write
      the baselines, plan the second phase again and run it. Any failure restores
      everything.
     */
    method Migrate(m: Migration, plannedLive: LiveSchema, future: LiveSchema, actual: LiveSchema,
                   refuses: Effect -> bool, syncFails: bool, laterFails: bool) returns (e: Option<TxError>)
      requires DistinctRuns(ledger)
      modifies this`ledger, this`effects, this`apps
      ensures DistinctRuns(ledger)
      ensures e.None? ==> Migrated(m, old(Now()), Now()) && apps == old(apps) + m.apps
      ensures e.Some? ==> Now() == old(Now()) && apps == old(apps)
      ensures SomeChanged(m.loaded, ByPatch(old(ledger)), PreSync) || SomeChanged(m.loaded, ByPatch(old(ledger)), PostSync)
          ==> e.Some?
      ensures e.None? <==>
        && old(Succeeds(m, Now(), apps, Value(plannedLive), Value(future), Value(actual), refuses))
        && !syncFails && !laterFails
      ensures e.None? ==> Now() == old(AfterMigration(m, Now(), Value(plannedLive), Value(actual)))
    {
      ghost var planned, next, now := Value(plannedLive), Value(future), Value(actual);
      var pre, bases;
      e, pre, bases := PlanPhases(m, plannedLive, planned, future, next);
      if e.Some? { return; }
      assert now == Value(actual);
      e := RunOrUndo(m, pre, bases, actual, now, refuses, syncFails, laterFails);
      if e.None? { StagesMigrate(m, old(Now()), pre, bases, Now()); }
    }

    /** The steps of a migration, or nothing. */
    method RunOrUndo(m: Migration, pre: seq<PlannedPatch>, bases: seq<Patch>, actual: LiveSchema, ghost now: Schema,
                     refuses: Effect -> bool, syncFails: bool, laterFails: bool) returns (e: Option<TxError>)
      requires now == Value(actual) && DistinctRuns(ledger)
      modifies this`ledger, this`effects, this`apps
      ensures e.None? <==> StagesTaken(m, pre, bases, old(Now()), old(apps), now, refuses) && !syncFails && !laterFails
      ensures Now() == if e.None? then AfterStages(m, pre, bases, old(Now()), now) else old(Now())
      ensures apps == if e.None? then old(apps) + m.apps else old(apps)
      ensures e.None? ==> SecondStage(m, AfterBaselines(bases, AfterPending(pre, old(Now()))), Now())
      ensures DistinctRuns(ledger)
    {
      var savedLedger, savedEffects, savedApps := ledger, effects, apps;
      e := RunMigration(m, pre, bases, actual, now, refuses, syncFails, laterFails);
      if e.Some? { ledger, effects, apps := savedLedger, savedEffects, savedApps; }
    }

    /** Plans both phases before anything is written: the patches to run first, and the baselines of both. */
    method PlanPhases(m: Migration, plannedLive: LiveSchema, ghost planned: Schema, future: LiveSchema, ghost next: Schema)
        returns (e: Option<TxError>, pre: seq<PlannedPatch>, bases: seq<Patch>)
      requires planned == Value(plannedLive) && next == Value(future)
      ensures e.None? <==> PhasePlans(m, planned, ledger, PreSync) && PhasePlans(m, next, ledger, PostSync)
      ensures SomeChanged(m.loaded, ByPatch(ledger), PreSync) || SomeChanged(m.loaded, ByPatch(ledger), PostSync) ==> e.Some?
      ensures e.None? ==>
        && pre == PhasePlan(m, planned, ledger, PreSync)
        && PendingFor(pre, ToRun(m.loaded, ByPatch(ledger), PreSync, m.installing))
        && bases == AllBaselines(m, ledger)
    {
      pre, bases := [], [];
      var first := PlanPhase(m, plannedLive, planned, PreSync);
      if first.Err? { return Some(NoPlan(first.error)), pre, bases; }
      assert next == Value(future);
      var second := PlanPhase(m, future, next, PostSync);
      if second.Err? { return Some(NoPlan(second.error)), pre, bases; }
      return None, first.value.runner.pending, first.value.baseline + second.value.baseline;
    }

    method PlanPhase(m: Migration, live: LiveSchema, ghost s: Schema, phase: Phase) returns (r: Result<LifecyclePlan, RunnerError>)
      requires s == Value(live)
      ensures r.Ok? <==> PhasePlans(m, s, ledger, phase)
      ensures SomeChanged(m.loaded, ByPatch(ledger), phase) ==> r.Err?
      ensures r.Ok? ==>
        && r.value.runner.pending == PhasePlan(m, s, ledger, phase)
        && r.value.baseline == PhaseBaselines(m, ledger, phase)
        && PendingFor(r.value.runner.pending, ToRun(m.loaded, ByPatch(ledger), phase, m.installing))
    {
      r := BuildLifecyclePatchPlan(m.loaded, m.entities, live, ledger, phase, m.installing);
      assert s == Value(live);
    }

    /** The steps of a migration inside its transaction, up to the first that fails. */
    method RunMigration(m: Migration, pre: seq<PlannedPatch>, bases: seq<Patch>, actual: LiveSchema, ghost now: Schema,
                        refuses: Effect -> bool, syncFails: bool, laterFails: bool) returns (e: Option<TxError>)
      requires now == Value(actual)
      modifies this`ledger, this`effects, this`apps
      ensures e.None? <==> StagesTaken(m, pre, bases, old(Now()), old(apps), now, refuses) && !syncFails && !laterFails
      ensures e.None? ==> Now() == AfterStages(m, pre, bases, old(Now()), now) && apps == old(apps) + m.apps
      ensures e.None? ==> SecondStage(m, AfterBaselines(bases, AfterPending(pre, old(Now()))), Now())
      ensures e.None? && DistinctRuns(old(ledger)) ==> DistinctRuns(ledger)
    {
      e := RunFirst(m, pre, bases, refuses, syncFails);
      if e.Some? { return; }
      assert now == Value(actual);
      e := RunSecond(m, actual, now, refuses);
      if e.None? && laterFails { return Some(OtherStep); }
    }

    /** The first phase, the sync, the new apps and the baselines. */
    method RunFirst(m: Migration, pre: seq<PlannedPatch>, bases: seq<Patch>, refuses: Effect -> bool, syncFails: bool)
        returns (e: Option<TxError>)
      modifies this`ledger, this`effects, this`apps
      ensures e.None? <==> FirstTaken(m, pre, bases, old(Now()), old(apps), refuses) && !syncFails
      ensures e.None? ==> Now() == AfterBaselines(bases, AfterPending(pre, old(Now()))) && apps == old(apps) + m.apps
      ensures e.None? && DistinctRuns(old(ledger)) ==> DistinctRuns(ledger)
    {
      ghost var w := Now();
      e := ApplyPatchPlanTx(pre, [], refuses);
      if e.Some? { return; }
      if syncFails { return Some(OtherStep); }
      AfterNoBaselines(AfterPending(pre, w));
      apps := apps + m.apps;
      e := ApplyPatchPlanTx([], bases, refuses);
      AfterNone(AfterPending(pre, w));
    }

    /** The second phase, planned on the schema and the ledger as they are now. */
    method RunSecond(m: Migration, actual: LiveSchema, ghost now: Schema, refuses: Effect -> bool)
        returns (e: Option<TxError>)
      requires now == Value(actual)
      modifies this`ledger, this`effects
      ensures e.None? <==> SecondTaken(m, old(Now()), apps, now, refuses)
      ensures e.None? ==> Now() == AfterSecond(m, old(Now()), now)
      ensures e.None? ==> SecondStage(m, old(Now()), Now())
      ensures e.None? && DistinctRuns(old(ledger)) ==> DistinctRuns(ledger)
    {
      var again := PlanPhase(m, actual, now, PostSync);
      if again.Err? { return Some(NoPlan(again.error)); }
      e := ApplyPatchPlanTx(again.value.runner.pending, again.value.baseline, refuses);
      assert e.None? ==> Second(m, old(Now()), again.value.runner.pending, again.value.baseline, Now());
    }
  }

  function AfterPending(pending: seq<PlannedPatch>, w: World): World {
    World(w.ledger + RunsOf(Patches(pending), Applied), w.effects + EffectsOf(Flatten(pending)))
  }

  function AfterBaselines(baseline: seq<Patch>, w: World): World {
    w.(ledger := w.ledger + RunsOf(baseline, Baselined))
  }

  lemma AfterNone(w: World)
    ensures AfterPending([], w) == w
  {
    assert Patches([]) == [] && RunsOf([], Applied) == [] && EffectsOf(Flatten([])) == [];
    assert w.ledger + [] == w.ledger && w.effects + [] == w.effects;
  }

  lemma AfterNoBaselines(w: World)
    ensures AfterBaselines([], w) == w
  {
    assert RunsOf([], Baselined) == [] && w.ledger + [] == w.ledger;
  }

  lemma OnePatchMore(pending: seq<PlannedPatch>, i: nat, w: World)
    requires i < |pending|
    ensures AfterPending(pending[..i + 1], w) == AfterPending([pending[i]], AfterPending(pending[..i], w))
  {
    var front, p := pending[..i], pending[i];
    assert pending[..i + 1][..i] == front;
    assert Flatten(pending[..i + 1]) == Flatten(front) + p.operations;
    OnePatch(p);
    PatchesGrow(pending, i);
    assert w.ledger + (RunsOf(Patches(front), Applied) + RunsOf(Patches([p]), Applied))
        == w.ledger + RunsOf(Patches(front), Applied) + RunsOf(Patches([p]), Applied);
    assert w.effects + (EffectsOf(Flatten(front)) + EffectsOf(p.operations))
        == w.effects + EffectsOf(Flatten(front)) + EffectsOf(p.operations);
  }

  lemma OnePatch(p: PlannedPatch)
    ensures Flatten([p]) == p.operations && Patches([p]) == [p.patch]
  {
    assert [p][..0] == [] && Flatten([]) == [];
    assert [] + p.operations == p.operations;
  }

  lemma PatchesGrow(pending: seq<PlannedPatch>, i: nat)
    requires i < |pending|
    ensures RunsOf(Patches(pending[..i + 1]), Applied)
         == RunsOf(Patches(pending[..i]), Applied) + RunsOf(Patches([pending[i]]), Applied)
  {
  }

  lemma NewKeyKeepsDistinct(runs: seq<Run>, r: Run)
    requires (r.app, r.id) !in ByPatch(runs)
    ensures DistinctRuns(runs) ==> DistinctRuns(runs + [r])
  {
    ByPatchKeys(runs);
  }

  /** The patch at position k can be applied when its turn comes. */
  predicate AppliesAt(pending: seq<PlannedPatch>, k: nat, w: World, apps: set<string>, refuses: Effect -> bool)
    requires k < |pending|
  {
    Applicable(pending[k], AfterPending(pending[..k], w).ledger, apps, refuses)
  }

  predicate AllApplicable(pending: seq<PlannedPatch>, w: World, apps: set<string>, refuses: Effect -> bool) {
    forall k :: 0 <= k < |pending| ==> AppliesAt(pending, k, w, apps, refuses)
  }

  /** The first n patches could be applied and are, and the ledger still has one entry per identity. */
  predicate AppliedSoFar(pending: seq<PlannedPatch>, n: nat, start: World, now: World, apps: set<string>,
                         refuses: Effect -> bool)
    requires n <= |pending|
  {
    && now == AfterPending(pending[..n], start)
    && (forall k :: 0 <= k < n ==> AppliesAt(pending, k, start, apps, refuses))
    && (DistinctRuns(start.ledger) ==> DistinctRuns(now.ledger))
  }

  lemma NothingAppliedYet(pending: seq<PlannedPatch>, w: World, apps: set<string>, refuses: Effect -> bool)
    ensures AppliedSoFar(pending, 0, w, w, apps, refuses)
  {
    AfterNone(w);
  }

  lemma AppliedOneMore(pending: seq<PlannedPatch>, n: nat, start: World, mid: World, now: World, apps: set<string>,
                       refuses: Effect -> bool)
    requires n < |pending| && AppliedSoFar(pending, n, start, mid, apps, refuses)
    requires Applicable(pending[n], mid.ledger, apps, refuses) && now == AfterPending([pending[n]], mid)
    ensures AppliedSoFar(pending, n + 1, start, now, apps, refuses)
  {
    OnePatchMore(pending, n, start);
    OnePatch(pending[n]);
    OneRun(pending[n].patch, Applied, mid.ledger, apps);
    NewKeyKeepsDistinct(mid.ledger, RunOf(pending[n].patch, Applied));
  }

  /** A plan is taken: no operation is refused, and the ledger takes all its runs. */
  predicate PlanTaken(pending: seq<PlannedPatch>, baseline: seq<Patch>, ledger: seq<Run>, apps: set<string>,
                      refuses: Effect -> bool) {
    && (forall i :: 0 <= i < |pending| ==> NoneRefused(pending[i].operations, refuses))
    && RunsAccepted(AllRuns(pending, baseline), ledger, apps)
  }

  lemma PlanTakenSplits(pending: seq<PlannedPatch>, baseline: seq<Patch>, w: World, apps: set<string>,
                        refuses: Effect -> bool)
    ensures PlanTaken(pending, baseline, w.ledger, apps, refuses) <==>
      && AllApplicable(pending, w, apps, refuses)
      && RunsAccepted(RunsOf(baseline, Baselined), AfterPending(pending, w).ledger, apps)
  {
    AllApplicableExact(pending, w, apps, refuses);
    AcceptedSplits(RunsOf(Patches(pending), Applied), RunsOf(baseline, Baselined), w.ledger, apps);
  }

  lemma {:induction false} AllApplicableExact(pending: seq<PlannedPatch>, w: World, apps: set<string>,
                                              refuses: Effect -> bool)
    ensures AllApplicable(pending, w, apps, refuses) <==>
      && (forall i :: 0 <= i < |pending| ==> NoneRefused(pending[i].operations, refuses))
      && RunsAccepted(RunsOf(Patches(pending), Applied), w.ledger, apps)
  {
    if pending == [] {
      assert RunsOf(Patches(pending), Applied) == [];
    } else {
      var front, p := pending[..|pending| - 1], pending[|pending| - 1];
      assert pending == front + [p];
      AllApplicableExact(front, w, apps, refuses);
      OneMoreApplicable(front, p, w, apps, refuses);
      OneMoreRun(front, p, w.ledger, apps);
    }
  }

  lemma OneMoreApplicable(front: seq<PlannedPatch>, p: PlannedPatch, w: World, apps: set<string>, refuses: Effect -> bool)
    ensures AllApplicable(front + [p], w, apps, refuses) <==>
      AllApplicable(front, w, apps, refuses) && Applicable(p, AfterPending(front, w).ledger, apps, refuses)
  {
    var all := front + [p];
    forall k | 0 <= k < |front| ensures AppliesAt(all, k, w, apps, refuses) == AppliesAt(front, k, w, apps, refuses) {
      assert all[k] == front[k] && all[..k] == front[..k];
    }
    assert all[|front|] == p && all[..|front|] == front;
    assert AppliesAt(all, |front|, w, apps, refuses) == Applicable(p, AfterPending(front, w).ledger, apps, refuses);
  }

  lemma OneMoreRun(front: seq<PlannedPatch>, p: PlannedPatch, ledger: seq<Run>, apps: set<string>)
    ensures RunsAccepted(RunsOf(Patches(front + [p]), Applied), ledger, apps) <==>
      && RunsAccepted(RunsOf(Patches(front), Applied), ledger, apps)
      && RunAccepted(RunOf(p.patch, Applied), ledger + RunsOf(Patches(front), Applied), apps)
  {
    var runs := RunsOf(Patches(front + [p]), Applied);
    assert runs[..|front|] == RunsOf(Patches(front), Applied) && runs[|front|] == RunOf(p.patch, Applied);
  }

  lemma {:induction false} AcceptedStayDistinct(runs: seq<Run>, ledger: seq<Run>, all: seq<Run>, apps: set<string>)
    requires RunsAccepted(runs, ledger, apps) && all == ledger + runs
    ensures DistinctRuns(ledger) ==> DistinctRuns(all)
  {
    if runs == [] {
      assert all == ledger;
    } else {
      var front := runs[..|runs| - 1];
      AcceptedStayDistinct(front, ledger, ledger + front, apps);
      NewKeyKeepsDistinct(ledger + front, runs[|runs| - 1]);
      assert all == ledger + front + [runs[|runs| - 1]];
    }
  }

  // ----- One migration, as a relation

  datatype Migration = Migration(loaded: seq<Patch>, entities: seq<Entity>, installing: set<string>, apps: set<string>)

  ghost predicate First(m: Migration, w: World, pending: seq<PlannedPatch>, w1: World) {
    && PendingFor(pending, ToRun(m.loaded, ByPatch(w.ledger), PreSync, m.installing))
    && w1 == AfterPending(pending, w)
  }

  ghost predicate Middle(m: Migration, w: World, w1: World, w2: World) {
    w2 == AfterBaselines(Baselines(m.loaded, ByPatch(w.ledger), PreSync, m.installing)
                         + Baselines(m.loaded, ByPatch(w.ledger), PostSync, m.installing), w1)
  }

  ghost predicate Second(m: Migration, w2: World, pending: seq<PlannedPatch>, baseline: seq<Patch>, w': World) {
    && PendingFor(pending, ToRun(m.loaded, ByPatch(w2.ledger), PostSync, m.installing))
    && baseline == Baselines(m.loaded, ByPatch(w2.ledger), PostSync, m.installing)
    && w' == AfterBaselines(baseline, AfterPending(pending, w2))
  }

  ghost predicate Migrated(m: Migration, w: World, w': World) {
    exists pre, w1, w2, post, baseline ::
      First(m, w, pre, w1) && Middle(m, w, w1, w2) && Second(m, w2, post, baseline, w')
  }

  ghost predicate SecondStage(m: Migration, w2: World, w': World) {
    exists post, baseline :: Second(m, w2, post, baseline, w')
  }

  lemma StagesMigrate(m: Migration, w: World, pre: seq<PlannedPatch>, bases: seq<Patch>, w': World)
    requires PendingFor(pre, ToRun(m.loaded, ByPatch(w.ledger), PreSync, m.installing))
    requires bases == AllBaselines(m, w.ledger)
    requires SecondStage(m, AfterBaselines(bases, AfterPending(pre, w)), w')
    ensures Migrated(m, w, w')
  {
    var w1 := AfterPending(pre, w);
    assert First(m, w, pre, w1) && Middle(m, w, w1, AfterBaselines(bases, w1));
  }

  // ----- When a migration succeeds

  ghost predicate PhasePlans(m: Migration, live: Schema, ledger: seq<Run>, phase: Phase) {
    Plannable(m.loaded, m.entities, live, ledger, phase, m.installing)
  }

  function PhasePlan(m: Migration, live: Schema, ledger: seq<Run>, phase: Phase): seq<PlannedPatch> {
    DuePlan(m.loaded, m.entities, live, ledger, phase, m.installing)
  }

  function PhaseBaselines(m: Migration, ledger: seq<Run>, phase: Phase): seq<Patch> {
    Baselines(m.loaded, ByPatch(ledger), phase, m.installing)
  }

  function AfterSecond(m: Migration, w2: World, actual: Schema): World {
    AfterBaselines(PhaseBaselines(m, w2.ledger, PostSync), AfterPending(PhasePlan(m, actual, w2.ledger, PostSync), w2))
  }

  function AfterStages(m: Migration, pre: seq<PlannedPatch>, bases: seq<Patch>, w: World, actual: Schema): World {
    AfterSecond(m, AfterBaselines(bases, AfterPending(pre, w)), actual)
  }

  /** The baselines that both phases have before anything is written. */
  function AllBaselines(m: Migration, ledger: seq<Run>): seq<Patch> {
    PhaseBaselines(m, ledger, PreSync) + PhaseBaselines(m, ledger, PostSync)
  }

  /** What a migration leaves: the second phase is planned once more, on the schema as it then is. */
  function AfterMigration(m: Migration, w: World, planned: Schema, actual: Schema): World {
    AfterStages(m, PhasePlan(m, planned, w.ledger, PreSync), AllBaselines(m, w.ledger), w, actual)
  }

  ghost predicate SecondTaken(m: Migration, w2: World, apps: set<string>, actual: Schema, refuses: Effect -> bool) {
    && PhasePlans(m, actual, w2.ledger, PostSync)
    && PlanTaken(PhasePlan(m, actual, w2.ledger, PostSync), PhaseBaselines(m, w2.ledger, PostSync), w2.ledger, apps, refuses)
  }

  ghost predicate FirstTaken(m: Migration, pre: seq<PlannedPatch>, bases: seq<Patch>, w: World, apps: set<string>,
                             refuses: Effect -> bool) {
    && PlanTaken(pre, [], w.ledger, apps, refuses)
    && PlanTaken([], bases, AfterPending(pre, w).ledger, apps + m.apps, refuses)
  }

  /** Every stage is taken on the ledger as it is at that point; the new apps are known from the second stage on. */
  ghost predicate StagesTaken(m: Migration, pre: seq<PlannedPatch>, bases: seq<Patch>, w: World, apps: set<string>,
                              actual: Schema, refuses: Effect -> bool) {
    && FirstTaken(m, pre, bases, w, apps, refuses)
    && SecondTaken(m, AfterBaselines(bases, AfterPending(pre, w)), apps + m.apps, actual, refuses)
  }

  /** Both phases can be planned before anything is written, and then every stage is taken. */
  ghost predicate Succeeds(m: Migration, w: World, apps: set<string>, planned: Schema, future: Schema, actual: Schema,
                           refuses: Effect -> bool) {
    && PhasePlans(m, planned, w.ledger, PreSync) && PhasePlans(m, future, w.ledger, PostSync)
    && StagesTaken(m, PhasePlan(m, planned, w.ledger, PreSync), AllBaselines(m, w.ledger), w, apps, actual, refuses)
  }

  // ----- What holds in every reachable world

  predicate KeyOf(r: Run, k: Key) {
    r.app == k.0 && r.id == k.1
  }

  predicate HasRun(ledger: seq<Run>, k: Key, outcome: Outcome) {
    exists i :: 0 <= i < |ledger| && KeyOf(ledger[i], k) && ledger[i].outcome == outcome
  }

  predicate NoRepeat(effects: seq<Effect>) {
    forall i, j :: 0 <= i < j < |effects| ==> effects[i] != effects[j]
  }

  predicate Backed(ledger: seq<Run>, effects: seq<Effect>) {
    forall i :: 0 <= i < |effects| ==> HasRun(ledger, (effects[i].app, effects[i].id), Applied)
  }

  /** One entry per identity, every operation at most once, and only for patches recorded as applied. */
  predicate Sound(w: World) {
    DistinctRuns(w.ledger) && NoRepeat(w.effects) && Backed(w.ledger, w.effects)
  }

  predicate Grew(w: World, w': World) {
    w.ledger <= w'.ledger && w.effects <= w'.effects
  }

  lemma HasRunGrows(a: seq<Run>, b: seq<Run>, k: Key, outcome: Outcome)
    requires HasRun(a, k, outcome)
    ensures HasRun(a + b, k, outcome)
  {
    var i :| 0 <= i < |a| && KeyOf(a[i], k) && a[i].outcome == outcome;
    assert KeyOf((a + b)[i], k);
  }

  lemma BackedGrows(a: seq<Run>, b: seq<Run>, effects: seq<Effect>)
    requires Backed(a, effects)
    ensures Backed(a + b, effects)
  {
    forall i | 0 <= i < |effects| ensures HasRun(a + b, (effects[i].app, effects[i].id), Applied) {
      HasRunGrows(a, b, (effects[i].app, effects[i].id), Applied);
    }
  }

  lemma BaselinesKeepSound(ps: seq<Patch>, w: World)
    requires Sound(w) && DistinctRuns(AfterBaselines(ps, w).ledger)
    ensures Sound(AfterBaselines(ps, w)) && Grew(w, AfterBaselines(ps, w))
  {
    BackedGrows(w.ledger, RunsOf(ps, Baselined), w.effects);
  }

  lemma NewKeyHasNoEffect(w: World, r: Run)
    requires Sound(w) && DistinctRuns(w.ledger + [r])
    ensures forall i :: 0 <= i < |w.effects| ==> (w.effects[i].app, w.effects[i].id) != (r.app, r.id)
  {
    forall i | 0 <= i < |w.effects| ensures (w.effects[i].app, w.effects[i].id) != (r.app, r.id) {
      var k :| 0 <= k < |w.ledger| && KeyOf(w.ledger[k], (w.effects[i].app, w.effects[i].id));
      assert (w.ledger + [r])[k] == w.ledger[k] && (w.ledger + [r])[|w.ledger|] == r;
    }
  }

  lemma OnePendingKeepsSound(p: PlannedPatch, w: World)
    requires Sound(w) && OperationsOf(p.operations, p.patch)
    requires DistinctRuns(w.ledger + [RunOf(p.patch, Applied)])
    ensures Sound(World(w.ledger + [RunOf(p.patch, Applied)], w.effects + EffectsOf(p.operations)))
  {
    var r := RunOf(p.patch, Applied);
    var ledger, effects := w.ledger + [r], w.effects + EffectsOf(p.operations);
    NewKeyHasNoEffect(w, r);
    BackedGrows(w.ledger, [r], w.effects);
    assert KeyOf(ledger[|w.ledger|], (r.app, r.id)) && ledger[|w.ledger|].outcome == Applied;
    forall i | 0 <= i < |effects| ensures HasRun(ledger, (effects[i].app, effects[i].id), Applied) {
      if i >= |w.effects| { assert Belongs(p.operations[i - |w.effects|], p.patch); }
    }
    forall i, j | 0 <= i < j < |effects| ensures effects[i] != effects[j] {
      if j >= |w.effects| {
        assert Belongs(p.operations[j - |w.effects|], p.patch);
        if i >= |w.effects| { assert effects[i].index == i - |w.effects| && effects[j].index == j - |w.effects|; }
      }
    }
  }

  predicate AllOperations(pending: seq<PlannedPatch>) {
    forall k :: 0 <= k < |pending| ==> OperationsOf(pending[k].operations, pending[k].patch)
  }

  lemma {:induction false} PendingKeepsSound(pending: seq<PlannedPatch>, w: World)
    requires Sound(w) && AllOperations(pending) && DistinctRuns(AfterPending(pending, w).ledger)
    ensures Sound(AfterPending(pending, w)) && Grew(w, AfterPending(pending, w))
  {
    if pending == [] {
      AfterNone(w);
    } else {
      var n := |pending| - 1;
      var front, p := pending[..n], pending[n];
      OnePatchMore(pending, n, w);
      assert pending[..n + 1] == pending;
      OnePatch(p);
      var m := AfterPending(front, w);
      assert RunsOf(Patches([p]), Applied) == [RunOf(p.patch, Applied)];
      assert AfterPending(pending, w).ledger == m.ledger + [RunOf(p.patch, Applied)];
      DistinctPrefix(m.ledger, AfterPending(pending, w).ledger);
      PendingKeepsSound(front, w);
      OnePendingKeepsSound(p, m);
    }
  }

  lemma DistinctPrefix(a: seq<Run>, b: seq<Run>)
    requires a <= b && DistinctRuns(b)
    ensures DistinctRuns(a)
  {
    forall i, j | 0 <= i < j < |a| ensures (a[i].app, a[i].id) != (a[j].app, a[j].id) {
      assert a[i] == b[i] && a[j] == b[j];
    }
  }

  /** A committed run had distinct patches, so each of them carried its own operations. */
  lemma CommittedIsExact(pending: seq<PlannedPatch>, ps: seq<Patch>, w: World)
    requires PendingFor(pending, ps) && DistinctRuns(AfterPending(pending, w).ledger)
    ensures AllOperations(pending)
  {
    var ledger := AfterPending(pending, w).ledger;
    forall i, j | 0 <= i < j < |ps| ensures (ps[i].app, ps[i].id) != (ps[j].app, ps[j].id) {
      assert ledger[|w.ledger| + i] == RunOf(ps[i], Applied) && ledger[|w.ledger| + j] == RunOf(ps[j], Applied);
    }
  }

  // ----- One migration

  /** A patch this migration deals with for the first time. */
  predicate New(p: Patch, m: Migration, w: World) {
    p in m.loaded && (p.app, p.id) !in ByPatch(w.ledger)
  }

  predicate RunFrom(r: Run, p: Patch, installing: set<string>) {
    (r == RunOf(p, Applied) && Executes(p, installing)) || (r == RunOf(p, Baselined) && IsBaseline(p, installing))
  }

  predicate EffectFrom(e: Effect, p: Patch) {
    e.app == p.app && e.id == p.id && e.index < |p.operations|
  }

  ghost predicate RunExplained(r: Run, m: Migration, w: World) {
    exists p :: New(p, m, w) && RunFrom(r, p, m.installing)
  }

  ghost predicate EffectExplained(e: Effect, m: Migration, w: World) {
    exists p :: New(p, m, w) && EffectFrom(e, p) && Executes(p, m.installing)
  }

  /** Every ledger entry w did not have comes from a new patch, with the outcome its mode asks for. */
  ghost predicate RunsExplained(m: Migration, w: World, ledger: seq<Run>) {
    forall i :: |w.ledger| <= i < |ledger| ==> RunExplained(ledger[i], m, w)
  }

  ghost predicate EffectsExplained(m: Migration, w: World, effects: seq<Effect>) {
    forall i :: |w.effects| <= i < |effects| ==> EffectExplained(effects[i], m, w)
  }

  ghost predicate Explained(m: Migration, w: World, w': World) {
    Grew(w, w') && RunsExplained(m, w, w'.ledger) && EffectsExplained(m, w, w'.effects)
  }

  ghost predicate EffectOfSome(e: Effect, pending: seq<PlannedPatch>) {
    exists k :: 0 <= k < |pending| && EffectFrom(e, pending[k].patch)
  }

  lemma {:induction false} FlattenOwned(pending: seq<PlannedPatch>)
    requires AllOperations(pending)
    ensures forall i :: 0 <= i < |Flatten(pending)| ==> EffectOfSome(EffectOf(Flatten(pending)[i]), pending)
  {
    if pending != [] {
      var front, p := pending[..|pending| - 1], pending[|pending| - 1];
      FlattenOwned(front);
      forall i | 0 <= i < |Flatten(pending)| ensures EffectOfSome(EffectOf(Flatten(pending)[i]), pending) {
        var e := EffectOf(Flatten(pending)[i]);
        if i < |Flatten(front)| {
          assert EffectOfSome(EffectOf(Flatten(front)[i]), front);
          var k :| 0 <= k < |front| && EffectFrom(e, front[k].patch);
          assert EffectFrom(e, pending[k].patch);
        } else {
          assert Belongs(p.operations[i - |Flatten(front)|], p.patch);
          assert EffectFrom(e, pending[|pending| - 1].patch);
        }
      }
    }
  }

  lemma RunsStayExplained(m: Migration, w: World, ledger: seq<Run>, ps: seq<Patch>, outcome: Outcome)
    requires |w.ledger| <= |ledger| && RunsExplained(m, w, ledger)
    requires forall p :: p in ps ==> New(p, m, w) && RunFrom(RunOf(p, outcome), p, m.installing)
    ensures RunsExplained(m, w, ledger + RunsOf(ps, outcome))
  {
    var all := ledger + RunsOf(ps, outcome);
    forall i | |w.ledger| <= i < |all| ensures RunExplained(all[i], m, w) {
      if i >= |ledger| {
        var p := ps[i - |ledger|];
        assert all[i] == RunOf(p, outcome) && p in ps;
      }
    }
  }

  lemma EffectsStayExplained(m: Migration, w: World, effects: seq<Effect>, pending: seq<PlannedPatch>)
    requires |w.effects| <= |effects| && EffectsExplained(m, w, effects) && AllOperations(pending)
    requires forall p :: p in Patches(pending) ==> New(p, m, w) && Executes(p, m.installing)
    ensures EffectsExplained(m, w, effects + EffectsOf(Flatten(pending)))
  {
    FlattenOwned(pending);
    var all := effects + EffectsOf(Flatten(pending));
    forall i | |w.effects| <= i < |all| ensures EffectExplained(all[i], m, w) {
      if i >= |effects| {
        assert EffectOfSome(EffectOf(Flatten(pending)[i - |effects|]), pending);
        var k :| 0 <= k < |pending| && EffectFrom(all[i], pending[k].patch);
        assert pending[k].patch == Patches(pending)[k];
      }
    }
  }

  /** One phase keeps the world sound and explained. */
  lemma PhaseAdvances(m: Migration, w: World, a: World, pending: seq<PlannedPatch>, ps: seq<Patch>)
    requires Sound(a) && Explained(m, w, a) && PendingFor(pending, ps)
    requires forall p :: p in ps ==> New(p, m, w) && Executes(p, m.installing)
    requires DistinctRuns(AfterPending(pending, a).ledger)
    ensures Sound(AfterPending(pending, a)) && Explained(m, w, AfterPending(pending, a))
  {
    CommittedIsExact(pending, ps, a);
    PendingKeepsSound(pending, a);
    RunsStayExplained(m, w, a.ledger, ps, Applied);
    EffectsStayExplained(m, w, a.effects, pending);
  }

  lemma BaselinesAdvance(m: Migration, w: World, a: World, ps: seq<Patch>)
    requires Sound(a) && Explained(m, w, a)
    requires forall p :: p in ps ==> New(p, m, w) && IsBaseline(p, m.installing)
    requires DistinctRuns(AfterBaselines(ps, a).ledger)
    ensures Sound(AfterBaselines(ps, a)) && Explained(m, w, AfterBaselines(ps, a))
  {
    BaselinesKeepSound(ps, a);
    RunsStayExplained(m, w, a.ledger, ps, Baselined);
  }

  lemma KeysGrow(a: seq<Run>, b: seq<Run>)
    requires a <= b
    ensures ByPatch(a).Keys <= ByPatch(b).Keys
  {
    ByPatchKeys(a);
    ByPatchKeys(b);
    forall k | k in ByPatch(a) ensures k in ByPatch(b) {
      var i :| 0 <= i < |a| && (a[i].app, a[i].id) == k;
      assert (b[i].app, b[i].id) == k;
    }
  }

  lemma StagesArePrefixes(m: Migration, w: World, pre: seq<PlannedPatch>, w1: World, w2: World, post: seq<PlannedPatch>,
                          baseline: seq<Patch>, w': World)
    requires First(m, w, pre, w1) && Middle(m, w, w1, w2) && Second(m, w2, post, baseline, w')
    requires DistinctRuns(w'.ledger)
    ensures DistinctRuns(w1.ledger) && DistinctRuns(w2.ledger) && DistinctRuns(AfterPending(post, w2).ledger)
    ensures w.ledger <= w1.ledger <= w2.ledger <= w'.ledger
  {
    DistinctPrefix(AfterPending(post, w2).ledger, w'.ledger);
    DistinctPrefix(w2.ledger, w'.ledger);
    DistinctPrefix(w1.ledger, w'.ledger);
  }

  /**
    A committed migration keeps the world sound. What it recorded and what it
    executed comes from patches that had no entry before: those that run were
    executed and recorded as applied, those of a fresh install's history were only
    recorded, and no install-only patch of an app that is not installing took part.
   */
  lemma MigrationKeepsSound(m: Migration, w: World, w': World)
    requires Sound(w) && Migrated(m, w, w') && DistinctRuns(w'.ledger)
    ensures Sound(w') && Explained(m, w, w')
  {
    var pre, w1, w2, post, baseline :|
      First(m, w, pre, w1) && Middle(m, w, w1, w2) && Second(m, w2, post, baseline, w');
    StagesArePrefixes(m, w, pre, w1, w2, post, baseline, w');
    var was, later := ByPatch(w.ledger), ByPatch(w2.ledger);
    KeysGrow(w.ledger, w2.ledger);
    ToRunExact(m.loaded, was, PreSync, m.installing);
    ToRunExact(m.loaded, was, PostSync, m.installing);
    ToRunExact(m.loaded, later, PostSync, m.installing);
    PhaseAdvances(m, w, w, pre, ToRun(m.loaded, was, PreSync, m.installing));
    BaselinesAdvance(m, w, w1, Baselines(m.loaded, was, PreSync, m.installing)
                               + Baselines(m.loaded, was, PostSync, m.installing));
    PhaseAdvances(m, w, w2, post, ToRun(m.loaded, later, PostSync, m.installing));
    BaselinesAdvance(m, w, AfterPending(post, w2), baseline);
  }

  // ----- Histories

  /** One transaction of a history: nothing, a migration, or pending patches applied directly. */
  datatype Tx =
    | RolledBack
    | Lifecycle(m: Migration)
    | Direct(loaded: seq<Patch>, phase: Phase, pending: seq<PlannedPatch>, done: nat)

  ghost predicate Commits(tx: Tx, w: World, w': World) {
    match tx
    case RolledBack => w' == w
    case Lifecycle(m) => Migrated(m, w, w') && DistinctRuns(w'.ledger)
    case Direct(loaded, phase, pending, done) =>
      && DistinctPatches(loaded) && PendingFor(pending, Unrecorded(loaded, ByPatch(w.ledger), phase))
      && done <= |pending| && w' == AfterPending(pending[..done], w) && DistinctRuns(w'.ledger)
  }

  ghost predicate History(ws: seq<World>, txs: seq<Tx>) {
    |ws| == |txs| + 1 && forall i :: 0 <= i < |txs| ==> Commits(txs[i], ws[i], ws[i + 1])
  }

  lemma {:induction false} UnrecordedDistinct(ps: seq<Patch>, recorded: map<Key, Run>, phase: Phase)
    requires DistinctPatches(ps)
    ensures DistinctPatches(Unrecorded(ps, recorded, phase))
    ensures forall p :: p in Unrecorded(ps, recorded, phase) ==> p in ps
  {
    if ps != [] {
      var front, p := ps[..|ps| - 1], ps[|ps| - 1];
      UnrecordedDistinct(front, recorded, phase);
      var before := Unrecorded(front, recorded, phase);
      forall i | 0 <= i < |before| ensures (before[i].app, before[i].id) != (p.app, p.id) {
        assert before[i] in front;
      }
    }
  }

  lemma CommitKeepsSound(tx: Tx, w: World, w': World)
    requires Sound(w) && Commits(tx, w, w')
    ensures Sound(w') && Grew(w, w')
  {
    match tx
    case RolledBack =>
    case Lifecycle(m) => MigrationKeepsSound(m, w, w');
    case Direct(loaded, phase, pending, done) =>
      UnrecordedDistinct(loaded, ByPatch(w.ledger), phase);
      PendingKeepsSound(pending[..done], w);
  }

  /**
    Over any history, every world is sound, and ledger and effects only grow: one
    entry per identity, each operation in effect at most once.
   */
  lemma {:induction false} HistoryStaysSound(ws: seq<World>, txs: seq<Tx>, i: nat, j: nat)
    requires History(ws, txs) && Sound(ws[0]) && i <= j < |ws|
    ensures Sound(ws[i]) && Sound(ws[j]) && Grew(ws[i], ws[j])
    decreases j
  {
    if j > 0 {
      HistoryStaysSound(ws, txs, if i == j then i - 1 else i, j - 1);
      assert Commits(txs[j - 1], ws[j - 1], ws[j]);
      CommitKeepsSound(txs[j - 1], ws[j - 1], ws[j]);
    }
  }

  /** A patch recorded as a baseline at any time has no effect at any time. */
  lemma BaselinedNeverExecutes(ws: seq<World>, txs: seq<Tx>, i: nat, j: nat, k: Key)
    requires History(ws, txs) && Sound(ws[0]) && i < |ws| && j < |ws|
    requires HasRun(ws[i].ledger, k, Baselined)
    ensures forall e :: e in ws[j].effects ==> (e.app, e.id) != k
  {
    var n := |ws| - 1;
    HistoryStaysSound(ws, txs, i, n);
    HistoryStaysSound(ws, txs, j, n);
    var a :| 0 <= a < |ws[i].ledger| && KeyOf(ws[i].ledger[a], k) && ws[i].ledger[a].outcome == Baselined;
    assert ws[n].ledger[a] == ws[i].ledger[a];
    forall e | e in ws[j].effects ensures (e.app, e.id) != k {
      var x :| 0 <= x < |ws[j].effects| && ws[j].effects[x] == e;
      assert ws[n].effects[x] == e;
      assert HasRun(ws[n].ledger, (e.app, e.id), Applied);
      var b :| 0 <= b < |ws[n].ledger| && KeyOf(ws[n].ledger[b], (e.app, e.id)) && ws[n].ledger[b].outcome == Applied;
    }
  }

  /** An install-only patch runs for apps being installed, an ordinary one for the others. */
  predicate RunsFor(p: Patch, installing: set<string>) {
    && (p.runOn.OnInstall? ==> p.app in installing)
    && (p.runOn.Unset? || p.runOn.OnMigrate? ==> p.app !in installing)
  }

  /** Whatever a migration of a history executed came from a patch it may execute. */
  lemma InstallOnlyNeverRunsLater(ws: seq<World>, txs: seq<Tx>, i: nat, e: Effect)
    requires History(ws, txs) && Sound(ws[0]) && i < |txs| && txs[i].Lifecycle?
    requires e in ws[i + 1].effects && e !in ws[i].effects
    ensures exists p :: New(p, txs[i].m, ws[i]) && EffectFrom(e, p) && RunsFor(p, txs[i].m.installing)
  {
    HistoryStaysSound(ws, txs, i, i + 1);
    var m := txs[i].m;
    assert Commits(txs[i], ws[i], ws[i + 1]);
    MigrationKeepsSound(m, ws[i], ws[i + 1]);
    assert forall y :: 0 <= y < |ws[i].effects| ==> ws[i].effects[y] == ws[i + 1].effects[y];
    var x :| 0 <= x < |ws[i + 1].effects| && ws[i + 1].effects[x] == e;
    assert EffectExplained(e, m, ws[i]);
    var p :| New(p, m, ws[i]) && EffectFrom(e, p) && Executes(p, m.installing);
    assert RunsFor(p, m.installing);
  }

  // ----- A migration leaves nothing undone

  lemma {:induction false} FlattenHas(pending: seq<PlannedPatch>, k: nat, i: nat)
    requires k < |pending| && i < |pending[k].operations|
    ensures pending[k].operations[i] in Flatten(pending)
  {
    var front := pending[..|pending| - 1];
    if k < |front| {
      FlattenHas(front, k, i);
    }
  }

  lemma PhaseIsComplete(pending: seq<PlannedPatch>, ps: seq<Patch>, w: World, p: Patch)
    requires PendingFor(pending, ps) && DistinctRuns(AfterPending(pending, w).ledger) && p in ps
    ensures RunOf(p, Applied) in AfterPending(pending, w).ledger
    ensures forall i :: 0 <= i < |p.operations| ==> Effect(p.app, p.id, i) in AfterPending(pending, w).effects
  {
    CommittedIsExact(pending, ps, w);
    var k :| 0 <= k < |ps| && ps[k] == p;
    assert pending[k].patch == Patches(pending)[k] == p;
    assert RunsOf(ps, Applied)[k] == RunOf(p, Applied);
    forall i | 0 <= i < |p.operations| ensures Effect(p.app, p.id, i) in AfterPending(pending, w).effects {
      FlattenHas(pending, k, i);
      var ops := Flatten(pending);
      var x :| 0 <= x < |ops| && ops[x] == pending[k].operations[i];
      assert EffectsOf(ops)[x] == Effect(p.app, p.id, i);
    }
  }

  /** The patch has been dealt with: executed in full, or recorded without being executed. */
  ghost predicate Settled(p: Patch, installing: set<string>, w: World) {
    && (Executes(p, installing) ==>
          RunOf(p, Applied) in w.ledger && forall i :: 0 <= i < |p.operations| ==> Effect(p.app, p.id, i) in w.effects)
    && (IsBaseline(p, installing) ==> RunOf(p, Baselined) in w.ledger)
  }

  lemma RecordedIsNotSkipped(m: Migration, w: World, a: World, p: Patch)
    requires Explained(m, w, a) && DistinctPatches(m.loaded) && New(p, m, w) && (p.app, p.id) in ByPatch(a.ledger)
    ensures !IsSkipped(p, m.installing)
  {
    ByPatchKeys(a.ledger);
    ByPatchKeys(w.ledger);
    assert forall j :: 0 <= j < |w.ledger| ==> a.ledger[j] == w.ledger[j];
    var i :| 0 <= i < |a.ledger| && (a.ledger[i].app, a.ledger[i].id) == (p.app, p.id);
    assert RunExplained(a.ledger[i], m, w);
    var q :| New(q, m, w) && RunFrom(a.ledger[i], q, m.installing);
  }

  /** Either phase, or the baselines in between, settles a new patch; what follows keeps it settled. */
  lemma SettledAfterPhases(m: Migration, w: World, pre: seq<PlannedPatch>, w1: World, w2: World,
                           post: seq<PlannedPatch>, baseline: seq<Patch>, w': World, p: Patch)
    requires Sound(w) && DistinctPatches(m.loaded) && New(p, m, w) && DistinctRuns(w'.ledger)
    requires First(m, w, pre, w1) && Middle(m, w, w1, w2) && Second(m, w2, post, baseline, w')
    ensures Settled(p, m.installing, w')
  {
    StagesArePrefixes(m, w, pre, w1, w2, post, baseline, w');
    ToRunExact(m.loaded, ByPatch(w.ledger), p.phase, m.installing);
    ToRunExact(m.loaded, ByPatch(w2.ledger), PostSync, m.installing);
    if IsBaseline(p, m.installing) {
      BaselineIsRecorded(m, w, w1, w2, p);
    } else if Executes(p, m.installing) && p.phase == PreSync {
      PhaseIsComplete(pre, ToRun(m.loaded, ByPatch(w.ledger), PreSync, m.installing), w, p);
    } else if Executes(p, m.installing) {
      PostSyncStaysNew(m, w, pre, w1, w2, p);
      PhaseIsComplete(post, ToRun(m.loaded, ByPatch(w2.ledger), PostSync, m.installing), w2, p);
    }
  }

  lemma BaselineIsRecorded(m: Migration, w: World, w1: World, w2: World, p: Patch)
    requires New(p, m, w) && IsBaseline(p, m.installing) && Middle(m, w, w1, w2)
    ensures Settled(p, m.installing, w2)
  {
    ToRunExact(m.loaded, ByPatch(w.ledger), PreSync, m.installing);
    ToRunExact(m.loaded, ByPatch(w.ledger), PostSync, m.installing);
    var ps := Baselines(m.loaded, ByPatch(w.ledger), PreSync, m.installing)
            + Baselines(m.loaded, ByPatch(w.ledger), PostSync, m.installing);
    assert p in ps;
    var k :| 0 <= k < |ps| && ps[k] == p;
    assert RunsOf(ps, Baselined)[k] == RunOf(p, Baselined);
  }

  lemma PostSyncStaysNew(m: Migration, w: World, pre: seq<PlannedPatch>, w1: World, w2: World, p: Patch)
    requires DistinctPatches(m.loaded) && New(p, m, w) && p.phase == PostSync && Executes(p, m.installing)
    requires First(m, w, pre, w1) && Middle(m, w, w1, w2)
    ensures (p.app, p.id) !in ByPatch(w2.ledger)
  {
    var was := ByPatch(w.ledger);
    ToRunExact(m.loaded, was, PreSync, m.installing);
    ToRunExact(m.loaded, was, PostSync, m.installing);
    var first := ToRun(m.loaded, was, PreSync, m.installing);
    var bases := Baselines(m.loaded, was, PreSync, m.installing) + Baselines(m.loaded, was, PostSync, m.installing);
    forall q | q in first ensures (q.app, q.id) != (p.app, p.id) { }
    forall q | q in bases ensures (q.app, q.id) != (p.app, p.id) { }
    StillUnrecorded(w.ledger, first, Applied, (p.app, p.id));
    StillUnrecorded(w.ledger + RunsOf(first, Applied), bases, Baselined, (p.app, p.id));
  }

  lemma StillUnrecorded(ledger: seq<Run>, ps: seq<Patch>, outcome: Outcome, k: Key)
    requires k !in ByPatch(ledger) && forall q :: q in ps ==> (q.app, q.id) != k
    ensures k !in ByPatch(ledger + RunsOf(ps, outcome))
  {
    ByPatchKeys(ledger);
    ByPatchKeys(ledger + RunsOf(ps, outcome));
    assert forall i :: 0 <= i < |ps| ==> ps[i] in ps;
  }

  /**
    A committed migration leaves nothing undone: every patch it met for the first
    time is executed in full and recorded, or recorded as a baseline, or skipped.
    With soundness, each operation of a patch that ran took effect exactly once.
   */
  lemma MigrationSettlesEverything(m: Migration, w: World, w': World, p: Patch)
    requires Sound(w) && Migrated(m, w, w') && DistinctRuns(w'.ledger) && DistinctPatches(m.loaded) && New(p, m, w)
    ensures Settled(p, m.installing, w')
    ensures IsSkipped(p, m.installing) ==> (p.app, p.id) !in ByPatch(w'.ledger)
  {
    if IsSkipped(p, m.installing) {
      MigrationKeepsSound(m, w, w');
      if (p.app, p.id) in ByPatch(w'.ledger) { RecordedIsNotSkipped(m, w, w', p); }
    } else {
      var pre, w1, w2, post, baseline :|
        First(m, w, pre, w1) && Middle(m, w, w1, w2) && Second(m, w2, post, baseline, w');
      SettledAfterPhases(m, w, pre, w1, w2, post, baseline, w', p);
    }
  }
}
