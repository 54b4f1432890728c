/** Interleaved transactions that create, move, delete and read Tree Records. */
module TreeProtocol {
  // Any number of transactions run statement by statement. Each statement sees the
  // committed table overlaid with its own transaction's writes. A mutating
  // transaction takes the exclusive structural lock first, a reading one the shared
  // lock, and both hold it to their end.
  //
  // `locking` switches the exclusive lock off, to show that it is what keeps the
  // forest.

  import opened Wrappers
  import opened TreeTable

  type TxId = nat

  datatype Change = Put(parent: Option<Id>) | Gone

  datatype Phase = Waiting | Writing | Reading | Finished

  /** A transaction: its pending writes, the operations they stand for, and the check it last passed. */
  datatype Tx = Tx(phase: Phase, writes: map<Id, Change>, done: seq<Op>, checked: Option<Op>, seen: Option<Table>)

  datatype State = State(committed: Table, txs: map<TxId, Tx>, history: seq<Op>)

  datatype Step =
    | Begin(tx: TxId)
    | LockExclusive(tx: TxId)
    | LockShared(tx: TxId)
    | Check(tx: TxId, op: Op)
    | Write(tx: TxId)
    | Read(tx: TxId)
    | Commit(tx: TxId)
    | Abort(tx: TxId)

  // ----- Rows

  function Overlay(t: Table, w: map<Id, Change>): Table {
    map x | x in t.Keys + w.Keys && (x in w ==> w[x].Put?) :: if x in w then w[x].parent else t[x]
  }

  function View(s: State, i: TxId): Table
    requires i in s.txs
  {
    Overlay(s.committed, s.txs[i].writes)
  }

  function WriteOf(op: Op): Change {
    match op
    case Create(_, parent) => Put(parent)
    case Move(_, parent) => Put(parent)
    case Delete(_) => Gone
  }

  // ----- One operation after another, with nobody else around

  function Serial(t: Table, ops: seq<Op>): Table {
    if ops == [] then t else ApplyOp(Serial(t, ops[..|ops| - 1]), ops[|ops| - 1])
  }

  ghost predicate SeriallyLegal(t: Table, ops: seq<Op>) {
    ops == [] || (SeriallyLegal(t, ops[..|ops| - 1]) && Guard(Serial(t, ops[..|ops| - 1]), ops[|ops| - 1]))
  }

  lemma {:induction false} SerialSplits(t: Table, a: seq<Op>, b: seq<Op>)
    ensures Serial(t, a + b) == Serial(Serial(t, a), b)
    ensures SeriallyLegal(t, a) && SeriallyLegal(Serial(t, a), b) ==> SeriallyLegal(t, a + b)
  {
    if b == [] {
      assert a + b == a;
    } else {
      SerialSplits(t, a, b[..|b| - 1]);
      assert (a + b)[..|a + b| - 1] == a + b[..|b| - 1];
    }
  }

  // ----- Steps

  predicate Holds(s: State, i: TxId, p: Phase) {
    i in s.txs && s.txs[i].phase == p
  }

  /** No other transaction is in the phase. */
  ghost predicate NobodyElse(s: State, i: TxId, p: Phase) {
    forall j :: j in s.txs && j != i ==> s.txs[j].phase != p
  }

  ghost predicate Enabled(s: State, step: Step, locking: bool) {
    match step
    case Begin(i) => i !in s.txs
    case LockExclusive(i) =>
      // A transaction that reads may come to write; its own shared lock is not in the way.
      (Holds(s, i, Waiting) || Holds(s, i, Reading)) && (locking ==> NobodyElse(s, i, Writing) && NobodyElse(s, i, Reading))
    case LockShared(i) => Holds(s, i, Waiting) && (locking ==> NobodyElse(s, i, Writing))
    case Check(i, op) => Holds(s, i, Writing) && s.txs[i].checked.None? && Guard(View(s, i), op)
    case Write(i) => Holds(s, i, Writing) && s.txs[i].checked.Some?
    case Read(i) => Holds(s, i, Reading) || Holds(s, i, Writing)
    case Commit(i) => (Holds(s, i, Writing) && s.txs[i].checked.None?) || Holds(s, i, Reading)
    case Abort(i) => i in s.txs && s.txs[i].phase != Finished
  }

  const FRESH: Tx := Tx(Waiting, map[], [], None, None)
  const DONE: Tx := Tx(Finished, map[], [], None, None)

  ghost function Apply(s: State, step: Step): State
    requires Enabled(s, step, false)
  {
    match step
    case Begin(i) => s.(txs := s.txs[i := FRESH])
    case LockExclusive(i) => s.(txs := s.txs[i := s.txs[i].(phase := Writing)])
    case LockShared(i) => s.(txs := s.txs[i := s.txs[i].(phase := Reading)])
    case Check(i, op) => s.(txs := s.txs[i := s.txs[i].(checked := Some(op))])
    case Write(i) =>
      var tx := s.txs[i];
      var op := tx.checked.value;
      s.(txs := s.txs[i := tx.(writes := tx.writes[op.id := WriteOf(op)], done := tx.done + [op], checked := None)])
    case Read(i) =>
      // The first read fixes what later reads of the same transaction are compared with.
      s.(txs := s.txs[i := s.txs[i].(seen := Some(if s.txs[i].seen.Some? then s.txs[i].seen.value else s.committed))])
    case Commit(i) => State(View(s, i), s.txs[i := DONE], s.history + s.txs[i].done)
    case Abort(i) => s.(txs := s.txs[i := DONE])
  }

  /** The states of a run, first to last. */
  ghost predicate IsRun(run: seq<State>, steps: seq<Step>, locking: bool) {
    && |run| == |steps| + 1
    && forall k :: 0 <= k < |steps| ==> Enabled(run[k], steps[k], locking) && run[k + 1] == Apply(run[k], steps[k])
  }

  ghost predicate Initial(s: State, t: Table) {
    s == State(t, map[], [])
  }

  // ----- The invariant

  ghost predicate TxInv(s: State, i: TxId)
    requires i in s.txs
  {
    var tx := s.txs[i];
    && (tx.phase != Writing ==> tx.writes == map[] && tx.done == [] && tx.checked.None?)
    && (tx.phase !in {Reading, Writing} ==> tx.seen.None?)
    && (tx.seen.Some? ==> tx.seen.value == s.committed)
    && Forest(View(s, i))
    && View(s, i) == Serial(s.committed, tx.done)
    && SeriallyLegal(s.committed, tx.done)
    && (tx.checked.Some? ==> Guard(View(s, i), tx.checked.value))
  }

  ghost predicate Inv(s: State, initial: Table) {
    && Forest(s.committed)
    && s.committed == Serial(initial, s.history)
    && SeriallyLegal(initial, s.history)
    && (forall i, j :: i in s.txs && j in s.txs && s.txs[i].phase == Writing && s.txs[j].phase in {Writing, Reading} ==> i == j)
    && (forall i :: i in s.txs ==> TxInv(s, i))
  }

  lemma OverlayOfNothing(t: Table)
    ensures Overlay(t, map[]) == t
  {
  }

  lemma OverlayOfWrite(t: Table, w: map<Id, Change>, op: Op)
    ensures Overlay(t, w[op.id := WriteOf(op)]) == ApplyOp(Overlay(t, w), op)
  {
  }

  lemma WriteKeepsTxInv(s: State, i: TxId)
    requires i in s.txs && TxInv(s, i) && Enabled(s, Write(i), true)
    ensures TxInv(Apply(s, Write(i)), i)
  {
    var tx := s.txs[i];
    var op := tx.checked.value;
    OverlayOfWrite(s.committed, tx.writes, op);
    GuardKeepsForest(View(s, i), op);
    assert (tx.done + [op])[..|tx.done + [op]| - 1] == tx.done;
  }

  lemma CommitKeepsInv(s: State, i: TxId, initial: Table)
    requires Inv(s, initial) && Enabled(s, Commit(i), true)
    ensures Inv(Apply(s, Commit(i)), initial)
  {
    var s' := Apply(s, Commit(i));
    assert TxInv(s, i);
    SerialSplits(initial, s.history, s.txs[i].done);
    OverlayOfNothing(s'.committed);
    OverlayOfNothing(s.committed);
    forall j | j in s'.txs ensures TxInv(s', j) {
      if j != i { assert TxInv(s, j); }
    }
  }

  lemma OtherStepKeepsTxInv(s: State, step: Step, j: TxId)
    requires Forest(s.committed) && forall i :: i in s.txs ==> TxInv(s, i)
    requires Enabled(s, step, true) && !step.Commit? && j in Apply(s, step).txs
    ensures TxInv(Apply(s, step), j)
  {
    OverlayOfNothing(s.committed);
    if j == step.tx && step.Write? {
      assert TxInv(s, j);
      WriteKeepsTxInv(s, j);
    } else if j in s.txs {
      assert TxInv(s, j);
    }
  }

  lemma StepKeepsInv(s: State, step: Step, initial: Table)
    requires Inv(s, initial) && Enabled(s, step, true)
    ensures Inv(Apply(s, step), initial)
  {
    var s' := Apply(s, step);
    if step.Commit? {
      CommitKeepsInv(s, step.tx, initial);
    } else {
      forall j | j in s'.txs ensures TxInv(s', j) { OtherStepKeepsTxInv(s, step, j); }
    }
  }

  lemma {:induction false} RunKeepsInv(run: seq<State>, steps: seq<Step>, t: Table, k: nat)
    requires IsRun(run, steps, true) && Initial(run[0], t) && Forest(t) && k < |run|
    ensures Inv(run[k], t)
    decreases k
  {
    if k != 0 {
      RunKeepsInv(run, steps, t, k - 1);
      StepKeepsInv(run[k - 1], steps[k - 1], t);
    }
  }

  // ----- Results

  /** Every committed table of every interleaving is a forest. */
  lemma CommittedTableIsForest(run: seq<State>, steps: seq<Step>, t: Table, k: nat)
    requires IsRun(run, steps, true) && Initial(run[0], t) && Forest(t) && k < |run|
    ensures Forest(run[k].committed)
  {
    RunKeepsInv(run, steps, t, k);
  }

  /** The committed tables are those of the committed operations run one at a time, each one legal. */
  lemma CommittedHistoryIsSerial(run: seq<State>, steps: seq<Step>, t: Table, k: nat)
    requires IsRun(run, steps, true) && Initial(run[0], t) && Forest(t) && k < |run|
    ensures run[k].committed == Serial(t, run[k].history)
    ensures SeriallyLegal(t, run[k].history)
  {
    RunKeepsInv(run, steps, t, k);
  }

  /** Whatever other transactions do, a check that was passed still holds when the write happens. */
  lemma CheckedOperationStaysValid(run: seq<State>, steps: seq<Step>, t: Table, k: nat)
    requires IsRun(run, steps, true) && Initial(run[0], t) && Forest(t) && k < |steps|
    requires steps[k].Write?
    ensures Guard(View(run[k], steps[k].tx), run[k].txs[steps[k].tx].checked.value)
  {
    RunKeepsInv(run, steps, t, k);
    assert TxInv(run[k], steps[k].tx);
  }

  /** All reads of a transaction see the table it first saw, with its own writes on top. */
  lemma ReadsAreStable(run: seq<State>, steps: seq<Step>, t: Table, k: nat)
    requires IsRun(run, steps, true) && Initial(run[0], t) && Forest(t) && k < |steps|
    requires steps[k].Read? && run[k].txs[steps[k].tx].seen.Some?
    ensures var tx := run[k].txs[steps[k].tx];
      && View(run[k], steps[k].tx) == Overlay(tx.seen.value, tx.writes)
      && View(run[k], steps[k].tx) == Serial(tx.seen.value, tx.done)
      && (tx.phase == Reading ==> View(run[k], steps[k].tx) == tx.seen.value)
  {
    RunKeepsInv(run, steps, t, k);
    assert TxInv(run[k], steps[k].tx);
    OverlayOfNothing(run[k].committed);
  }

  ghost predicate Locked(s: State, i: TxId) {
    Holds(s, i, Reading) || Holds(s, i, Writing)
  }

  lemma StepKeepsLockedTable(s: State, step: Step, t: Table, i: TxId)
    requires Inv(s, t) && Enabled(s, step, true)
    ensures Holds(s, i, Finished) ==> Holds(Apply(s, step), i, Finished)
    ensures Locked(s, i) ==>
      Holds(Apply(s, step), i, Finished) || (Locked(Apply(s, step), i) && Apply(s, step).committed == s.committed)
  {
    if i in s.txs { assert TxInv(s, i); }
    if step.Commit? { assert TxInv(s, step.tx); OverlayOfNothing(s.committed); }
  }

  /** As long as a transaction holds either lock, nothing is committed that would change a row. */
  lemma {:induction false} LockedTableStays(run: seq<State>, steps: seq<Step>, t: Table, i: TxId, k: nat, l: nat)
    requires IsRun(run, steps, true) && Initial(run[0], t) && Forest(t) && k <= l < |run|
    requires Locked(run[k], i)
    ensures Holds(run[l], i, Finished) || (Locked(run[l], i) && run[l].committed == run[k].committed)
    decreases l
  {
    if k < l {
      LockedTableStays(run, steps, t, i, k, l - 1);
      RunKeepsInv(run, steps, t, l - 1);
      StepKeepsLockedTable(run[l - 1], steps[l - 1], t, i);
    }
  }

  // ----- What the locks let through

  lemma ExtendRun(run: seq<State>, steps: seq<Step>, step: Step, locking: bool)
    requires IsRun(run, steps, locking) && Enabled(run[|steps|], step, locking)
    ensures IsRun(run + [Apply(run[|steps|], step)], steps + [step], locking)
  {
  }

  /** Only i has moved, from one state to the other: it has also done ops. */
  ghost predicate HasDone(s: State, s': State, i: TxId, ops: seq<Op>) {
    && i in s.txs && i in s'.txs && s' == s.(txs := s.txs[i := s'.txs[i]])
    && s'.txs[i].phase == Writing && s'.txs[i].checked.None? && s'.txs[i].done == s.txs[i].done + ops
    && View(s', i) == Serial(View(s, i), ops)
  }

  lemma OneMoreDone(s: State, m: State, i: TxId, ops: seq<Op>, op: Op)
    requires HasDone(s, m, i, ops) && Guard(View(m, i), op)
    ensures Enabled(m, Check(i, op), true) && Enabled(Apply(m, Check(i, op)), Write(i), true)
    ensures HasDone(s, Apply(Apply(m, Check(i, op)), Write(i)), i, ops + [op])
  {
    var s' := Apply(Apply(m, Check(i, op)), Write(i));
    OverlayOfWrite(m.committed, m.txs[i].writes, op);
    assert (ops + [op])[..|ops + [op]| - 1] == ops;
    assert s'.txs == s.txs[i := s'.txs[i]];
    assert s'.txs[i].done == s.txs[i].done + (ops + [op]);
  }

  lemma {:induction false} LegalWritesRun(s: State, i: TxId, ops: seq<Op>) returns (run: seq<State>, steps: seq<Step>)
    requires Holds(s, i, Writing) && s.txs[i].checked.None? && SeriallyLegal(View(s, i), ops)
    ensures IsRun(run, steps, true) && run[0] == s && HasDone(s, run[|steps|], i, ops)
  {
    if ops == [] {
      run, steps := [s], [];
      assert s.txs[i := s.txs[i]] == s.txs && s.txs[i].done + ops == s.txs[i].done;
    } else {
      var front, op := ops[..|ops| - 1], ops[|ops| - 1];
      run, steps := LegalWritesRun(s, i, front);
      OneMoreDone(s, run[|steps|], i, front, op);
      assert front + [op] == ops;
      ExtendRun(run, steps, Check(i, op), true);
      run, steps := run + [Apply(run[|steps|], Check(i, op))], steps + [Check(i, op)];
      ExtendRun(run, steps, Write(i), true);
      run, steps := run + [Apply(run[|steps|], Write(i))], steps + [Write(i)];
    }
  }

  lemma JoinRuns(a: seq<State>, before: seq<Step>, b: seq<State>, after: seq<Step>)
    requires IsRun(a, before, true) && IsRun(b, after, true) && a[|before|] == b[0]
    ensures IsRun(a + b[1..], before + after, true)
    ensures (a + b[1..])[|before + after|] == b[|after|]
  {
    var run, steps := a + b[1..], before + after;
    forall k | 0 <= k < |steps| ensures Enabled(run[k], steps[k], true) && run[k + 1] == Apply(run[k], steps[k]) {
      if k >= |before| {
        assert run[k] == b[k - |before|] && run[k + 1] == b[k + 1 - |before|] && steps[k] == after[k - |before|];
      }
    }
  }

  /** A transaction takes the lock for writing; it may have read before under the shared lock. */
  lemma TakesLock(s: State, i: TxId, readsFirst: bool) returns (run: seq<State>, steps: seq<Step>)
    requires i in s.txs && s.txs[i] == FRESH && NobodyElse(s, i, Writing) && NobodyElse(s, i, Reading)
    ensures steps == if readsFirst then [LockShared(i), Read(i), LockExclusive(i), Read(i)] else [LockExclusive(i), Read(i)]
    ensures IsRun(run, steps, true) && run[0] == s
    ensures run[|steps|] == s.(txs := s.txs[i := FRESH.(phase := Writing, seen := Some(s.committed))])
  {
    if readsFirst {
      var a := Apply(s, LockShared(i));
      var b := Apply(a, Read(i));
      var c := Apply(b, LockExclusive(i));
      run, steps := [s, a, b, c, Apply(c, Read(i))], [LockShared(i), Read(i), LockExclusive(i), Read(i)];
    } else {
      var a := Apply(s, LockExclusive(i));
      run, steps := [s, a, Apply(a, Read(i))], [LockExclusive(i), Read(i)];
    }
  }

  lemma WorkIsCommitted(s: State, m: State, i: TxId, ops: seq<Op>)
    requires i in s.txs && Holds(m, i, Writing) && View(m, i) == Serial(s.committed, ops)
    requires m == s.(txs := s.txs[i := m.txs[i]]) && m.txs[i].checked.None? && m.txs[i].done == ops
    ensures Enabled(m, Commit(i), true)
    ensures Apply(m, Commit(i)) == State(Serial(s.committed, ops), s.txs[i := DONE], s.history + ops)
  {
  }

  lemma LegalOperationsRun(s: State, i: TxId, ops: seq<Op>, readsFirst: bool) returns (run: seq<State>, steps: seq<Step>)
    requires i in s.txs && s.txs[i] == FRESH && NobodyElse(s, i, Writing) && NobodyElse(s, i, Reading)
    requires SeriallyLegal(s.committed, ops)
    ensures IsRun(run, steps, true) && run[0] == s
    ensures readsFirst ==> |steps| >= 3 && steps[..3] == [LockShared(i), Read(i), LockExclusive(i)]
    ensures HasDone(s.(txs := s.txs[i := FRESH.(phase := Writing, seen := Some(s.committed))]), run[|steps|], i, ops)
  {
    var before, taken := TakesLock(s, i, readsFirst);
    OverlayOfNothing(s.committed);
    var during, written := LegalWritesRun(before[|taken|], i, ops);
    JoinRuns(before, taken, during, written);
    run, steps := before + during[1..], taken + written;
  }

  /**
    The locks and checks refuse no legal work: a transaction that is not kept out by
    others, whether or not it read first, can commit every list of operations that is
    legal one at a time, and the table is then that of these operations.
   */
  lemma LegalOperationsCommit(s: State, i: TxId, ops: seq<Op>, readsFirst: bool) returns (run: seq<State>, steps: seq<Step>)
    requires i in s.txs && s.txs[i] == FRESH && NobodyElse(s, i, Writing) && NobodyElse(s, i, Reading)
    requires SeriallyLegal(s.committed, ops)
    ensures IsRun(run, steps, true) && run[0] == s
    ensures run[|steps|] == State(Serial(s.committed, ops), s.txs[i := DONE], s.history + ops)
    ensures readsFirst ==> |steps| > 3 && steps[..3] == [LockShared(i), Read(i), LockExclusive(i)]
  {
    run, steps := LegalOperationsRun(s, i, ops, readsFirst);
    OverlayOfNothing(s.committed);
    assert [] + ops == ops;
    WorkIsCommitted(s, run[|steps|], i, ops);
    ExtendRun(run, steps, Commit(i), true);
    run, steps := run + [Apply(run[|steps|], Commit(i))], steps + [Commit(i)];
  }

  /** Readers share: whoever else reads, a transaction can read the committed table and end. */
  lemma ReadersShare(s: State, i: TxId) returns (run: seq<State>)
    requires i in s.txs && s.txs[i] == FRESH && NobodyElse(s, i, Writing)
    ensures IsRun(run, [LockShared(i), Read(i), Commit(i)], true) && run[0] == s
    ensures View(run[1], i) == s.committed
    ensures run[3] == s.(txs := s.txs[i := DONE])
  {
    var a := Apply(s, LockShared(i));
    var b := Apply(a, Read(i));
    OverlayOfNothing(s.committed);
    run := [s, a, b, Apply(b, Commit(i))];
  }

  // ----- Without the lock

  const OPPOSITE_MOVES: seq<Step> := [
    Begin(0), Begin(1), LockExclusive(0), LockExclusive(1),
    Check(0, Move(1, Some(2))), Check(1, Move(2, Some(1))),
    Write(0), Write(1), Commit(0), Commit(1)]

  lemma TwoRootsIndependent(t: Table)
    requires t == map[1 := None, 2 := None]
    ensures Forest(t) && !Reaches(t, 2, 1) && !Reaches(t, 1, 2)
  {
    forall x, y, n: nat | x != y || 0 < n ensures Climb(t, x, n) != Some(y) {
    }
  }

  /** Both transactions pass their check before either has written. */
  lemma BothMovesChecked(t: Table) returns (run: seq<State>)
    requires t == map[1 := None, 2 := None]
    ensures IsRun(run, OPPOSITE_MOVES[..6], false) && Initial(run[0], t)
    ensures run[6].committed == t && run[6].txs.Keys == {0, 1}
    ensures run[6].txs[0] == Tx(Writing, map[], [], Some(Move(1, Some(2))), None)
    ensures run[6].txs[1] == Tx(Writing, map[], [], Some(Move(2, Some(1))), None)
  {
    TwoRootsIndependent(t);
    OverlayOfNothing(t);
    run := [State(t, map[], [])];
    for k := 0 to 6
      invariant IsRun(run, OPPOSITE_MOVES[..k], false) && Initial(run[0], t)
      invariant run[k].committed == t
      invariant 1 <= k < 3 ==> run[k].txs.Keys >= {0} && run[k].txs[0] == FRESH
      invariant k == 1 ==> run[k].txs.Keys == {0}
      invariant 2 <= k ==> run[k].txs.Keys == {0, 1}
      invariant 2 <= k < 4 ==> run[k].txs[1] == FRESH
      invariant 3 <= k < 5 ==> run[k].txs[0] == FRESH.(phase := Writing)
      invariant 4 <= k < 6 ==> run[k].txs[1] == FRESH.(phase := Writing)
      invariant 5 <= k ==> run[k].txs[0] == FRESH.(phase := Writing, checked := Some(Move(1, Some(2))))
      invariant 6 <= k ==> run[k].txs[1] == FRESH.(phase := Writing, checked := Some(Move(2, Some(1))))
    {
      ExtendRun(run, OPPOSITE_MOVES[..k], OPPOSITE_MOVES[k], false);
      run := run + [Apply(run[k], OPPOSITE_MOVES[k])];
      assert OPPOSITE_MOVES[..k] + [OPPOSITE_MOVES[k]] == OPPOSITE_MOVES[..k + 1];
    }
  }

  /** Both transactions have written, and neither has committed. */
  lemma BothMovesWritten(t: Table) returns (run: seq<State>)
    requires t == map[1 := None, 2 := None]
    ensures IsRun(run, OPPOSITE_MOVES[..8], false) && Initial(run[0], t)
    ensures run[8].committed == t && run[8].txs.Keys == {0, 1}
    ensures run[8].txs[0] == Tx(Writing, map[1 := Put(Some(2))], [Move(1, Some(2))], None, None)
    ensures run[8].txs[1] == Tx(Writing, map[2 := Put(Some(1))], [Move(2, Some(1))], None, None)
  {
    run := BothMovesChecked(t);
    for k := 6 to 8
      invariant IsRun(run, OPPOSITE_MOVES[..k], false) && Initial(run[0], t)
      invariant run[k].txs.Keys == {0, 1} && run[k].committed == t
      invariant k == 6 ==> run[k].txs[0] == Tx(Writing, map[], [], Some(Move(1, Some(2))), None)
      invariant k <= 7 ==> run[k].txs[1] == Tx(Writing, map[], [], Some(Move(2, Some(1))), None)
      invariant 7 <= k ==> run[k].txs[0] == Tx(Writing, map[1 := Put(Some(2))], [Move(1, Some(2))], None, None)
      invariant 8 <= k ==> run[k].txs[1] == Tx(Writing, map[2 := Put(Some(1))], [Move(2, Some(1))], None, None)
    {
      ExtendRun(run, OPPOSITE_MOVES[..k], OPPOSITE_MOVES[k], false);
      run := run + [Apply(run[k], OPPOSITE_MOVES[k])];
      assert OPPOSITE_MOVES[..k] + [OPPOSITE_MOVES[k]] == OPPOSITE_MOVES[..k + 1];
    }
  }

  lemma OppositeParentsCycle(u: Table)
    requires u == map[1 := Some(2), 2 := Some(1)]
    ensures !Forest(u)
  {
    assert Climb(u, 2, 1) == Some(1);
    assert Climb(u, 1, 2) == Some(1);
  }

  /** Two opposite moves, each checked before the other is visible, commit a cycle. */
  lemma WithoutLockOppositeMovesCycle() returns (run: seq<State>)
    ensures IsRun(run, OPPOSITE_MOVES, false)
    ensures Initial(run[0], map[1 := None, 2 := None]) && Forest(map[1 := None, 2 := None])
    ensures !Forest(run[|OPPOSITE_MOVES|].committed)
  {
    var t: Table := map[1 := None, 2 := None];
    TwoRootsIndependent(t);
    run := BothMovesWritten(t);
    for k := 8 to 10
      invariant IsRun(run, OPPOSITE_MOVES[..k], false) && Initial(run[0], t)
      invariant run[k].txs.Keys == {0, 1}
      invariant k == 8 ==> run[k].txs[0] == Tx(Writing, map[1 := Put(Some(2))], [Move(1, Some(2))], None, None)
      invariant k < 10 ==> run[k].txs[1] == Tx(Writing, map[2 := Put(Some(1))], [Move(2, Some(1))], None, None)
      invariant k == 8 ==> run[k].committed == t
      invariant k == 9 ==> run[k].committed == map[1 := Some(2), 2 := None]
      invariant k == 10 ==> run[k].committed == map[1 := Some(2), 2 := Some(1)]
    {
      ExtendRun(run, OPPOSITE_MOVES[..k], OPPOSITE_MOVES[k], false);
      run := run + [Apply(run[k], OPPOSITE_MOVES[k])];
      assert OPPOSITE_MOVES[..k] + [OPPOSITE_MOVES[k]] == OPPOSITE_MOVES[..k + 1];
    }
    assert OPPOSITE_MOVES[..10] == OPPOSITE_MOVES;
    OppositeParentsCycle(run[10].committed);
  }
}
