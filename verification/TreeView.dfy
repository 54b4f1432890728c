/**
  What a tree request shows: paths only when they are readable from the root
  down, and around search matches only the rows of readable paths.
 */
module TreeView {
  import opened Wrappers
  import opened TreeTable
  import opened TreePaths

  /** A row as its caller may read it; a parent field it may not read is absent. */
  datatype Rec = Rec(id: Id, parentField: Option<Option<Id>>)

  datatype Node = Node(record: Rec, parent: Option<Id>, pathUnavailable: bool)

  type Rows = map<Id, Rec>

  predicate StepReadable(step: Step, rows: Rows) {
    step.id in rows && rows[step.id].parentField.Some?
  }

  predicate PathReadable(steps: seq<Step>, rows: Rows) {
    steps != [] && steps[0].parent.None? && forall i :: 0 <= i < |steps| ==> StepReadable(steps[i], rows)
  }

  /**
    A path is shown whole or not at all: every row on it can be read with its parent
    field, and it starts at a root, so nothing above it is cut off.
   */
  lemma ReadablePathIsWhole(steps: seq<Step>, rows: Rows)
    ensures steps == [] || steps[0].parent.Some? ==> !PathReadable(steps, rows)
    ensures (exists i :: 0 <= i < |steps| && (steps[i].id !in rows || rows[steps[i].id].parentField.None?))
      ==> !PathReadable(steps, rows)
    ensures steps != [] && steps[0].parent.None?
      && (forall i :: 0 <= i < |steps| ==> steps[i].id in rows && rows[steps[i].id].parentField.Some?)
      ==> PathReadable(steps, rows)
  {
    if i :| 0 <= i < |steps| && (steps[i].id !in rows || rows[steps[i].id].parentField.None?) {
      assert !StepReadable(steps[i], rows);
    }
  }

  /** All rows of a path, or nothing at all. */
  method ReadableTreePath(steps: seq<Step>, rows: Rows) returns (r: Option<seq<Rec>>)
    ensures r.Some? <==> PathReadable(steps, rows)
    ensures r.Some? ==> |r.value| == |steps| && forall i :: 0 <= i < |steps| ==> r.value[i] == rows[steps[i].id]
  {
    if |steps| == 0 || steps[0].parent.Some? { return None; }
    var path: seq<Rec> := [];
    for i := 0 to |steps|
      invariant |path| == i
      invariant forall k :: 0 <= k < i ==> StepReadable(steps[k], rows) && path[k] == rows[steps[k].id]
    {
      if steps[i].id !in rows { return None; }
      var row := rows[steps[i].id];
      if row.parentField.None? { return None; }
      path := path + [row];
    }
    return Some(path);
  }

  /** The rows by id; ids are unique in a listing. */
  method RowsById(records: seq<Rec>) returns (rows: Rows)
    requires forall i, j :: 0 <= i < j < |records| ==> records[i].id != records[j].id
    ensures forall x :: x in rows <==> exists i :: 0 <= i < |records| && records[i].id == x
    ensures forall i :: 0 <= i < |records| ==> records[i].id in rows && rows[records[i].id] == records[i]
  {
    rows := map[];
    for i := 0 to |records|
      invariant forall x :: x in rows <==> exists k :: 0 <= k < i && records[k].id == x
      invariant forall k :: 0 <= k < i ==> records[k].id in rows && rows[records[k].id] == records[k]
    {
      rows := rows[records[i].id := records[i]];
    }
  }

  /** A matched row; without a readable path its parent field is taken out. */
  function TreeNode(record: Rec, unavailable: bool): Node {
    if unavailable then Node(record.(parentField := None), None, true)
    else Node(record, if record.parentField.Some? then record.parentField.value else None, false)
  }

  /** What a node gives away: with a readable path the record as it is and its parent, else neither. */
  predicate ShownAs(record: Rec, readable: bool, node: Node) {
    && node.pathUnavailable == !readable && node.record.id == record.id
    && (readable ==> node.record == record && (record.parentField.Some? ==> Some(node.parent) == record.parentField))
    && (readable && record.parentField.None? ==> node.parent == None)
    && (!readable ==> node.record.parentField == None && node.parent == None)
  }

  /** `full` without the rows that `keep` leaves out, in the same order. */
  function Kept(full: seq<Rec>, keep: set<Id>): seq<Rec> {
    if full == [] then []
    else Kept(full[..|full| - 1], keep) + (if full[|full| - 1].id in keep then [full[|full| - 1]] else [])
  }

  function StepIds(steps: seq<Step>): set<Id> {
    set i | 0 <= i < |steps| :: steps[i].id
  }

  function PathAt(paths: map<Id, seq<Step>>, x: Id): seq<Step> {
    if x in paths then paths[x] else []
  }

  /** The rows on readable paths of the matches. */
  function ShownIds(page: seq<Rec>, paths: map<Id, seq<Step>>, rows: Rows): set<Id> {
    set k, x | 0 <= k < |page| && PathReadable(PathAt(paths, page[k].id), rows)
             && x in StepIds(PathAt(paths, page[k].id)) :: x
  }

  method AddPath(display: set<Id>, path: seq<Rec>) returns (r: set<Id>)
    ensures r == display + set i | 0 <= i < |path| :: path[i].id
  {
    r := display;
    for j := 0 to |path|
      invariant r == display + set i | 0 <= i < j :: path[i].id
    {
      r := r + {path[j].id};
    }
  }

  method ShowMatches(page: seq<Rec>, paths: map<Id, seq<Step>>, rows: Rows)
      returns (nodes: seq<Node>, display: set<Id>)
    requires forall x :: x in rows ==> rows[x].id == x
    ensures |nodes| == |page|
    ensures forall k :: 0 <= k < |page| ==>
      nodes[k] == TreeNode(page[k], !PathReadable(PathAt(paths, page[k].id), rows))
    ensures forall k :: 0 <= k < |page| ==> ShownAs(page[k], PathReadable(PathAt(paths, page[k].id), rows), nodes[k])
    ensures display == ShownIds(page, paths, rows)
  {
    nodes := [];
    display := {};
    for i := 0 to |page|
      invariant |nodes| == i
      invariant forall k :: 0 <= k < i ==>
        nodes[k] == TreeNode(page[k], !PathReadable(PathAt(paths, page[k].id), rows))
      invariant display == ShownIds(page[..i], paths, rows)
    {
      ShownOneMore(page, paths, rows, i);
      var node;
      node, display := ShowMatch(page[i], PathAt(paths, page[i].id), rows, display);
      nodes := nodes + [node];
    }
    assert page[..|page|] == page;
  }

  method ShowMatch(found: Rec, steps: seq<Step>, rows: Rows, shown: set<Id>) returns (node: Node, display: set<Id>)
    requires forall x :: x in rows ==> rows[x].id == x
    ensures node == TreeNode(found, !PathReadable(steps, rows))
    ensures display == shown + if PathReadable(steps, rows) then StepIds(steps) else {}
  {
    var path := ReadableTreePath(steps, rows);
    node, display := TreeNode(found, path.None?), shown;
    if path.Some? {
      assert forall j :: 0 <= j < |steps| ==> path.value[j].id == steps[j].id;
      display := AddPath(display, path.value);
    }
  }

  method KeepShown(ordered: seq<Rec>, display: set<Id>) returns (context: seq<Rec>)
    ensures context == Kept(ordered, display)
  {
    context := [];
    for i := 0 to |ordered|
      invariant context == Kept(ordered[..i], display)
    {
      assert ordered[..i + 1][..i] == ordered[..i];
      if ordered[i].id in display { context := context + [ordered[i]]; }
    }
    assert ordered[..|ordered|] == ordered;
  }

  /** Nodes for every match in page order, and the context rows in the requested order. */
  method Search(page: seq<Rec>, paths: map<Id, seq<Step>>, ordered: seq<Rec>)
      returns (nodes: seq<Node>, context: seq<Rec>, ghost rows: Rows)
    requires forall i, j :: 0 <= i < j < |ordered| ==> ordered[i].id != ordered[j].id
    ensures forall x :: x in rows <==> exists i :: 0 <= i < |ordered| && ordered[i].id == x
    ensures forall i :: 0 <= i < |ordered| ==> ordered[i].id in rows && rows[ordered[i].id] == ordered[i]
    ensures |nodes| == |page|
    ensures forall k :: 0 <= k < |page| ==>
      nodes[k] == TreeNode(page[k], !PathReadable(PathAt(paths, page[k].id), rows))
    ensures forall k :: 0 <= k < |page| ==> ShownAs(page[k], PathReadable(PathAt(paths, page[k].id), rows), nodes[k])
    ensures context == Kept(ordered, ShownIds(page, paths, rows))
  {
    var byId := RowsById(ordered);
    rows := byId;
    var display;
    nodes, display := ShowMatches(page, paths, byId);
    context := KeepShown(ordered, display);
  }

  lemma ShownOneMore(page: seq<Rec>, paths: map<Id, seq<Step>>, rows: Rows, i: nat)
    requires i < |page|
    ensures var steps := PathAt(paths, page[i].id);
      ShownIds(page[..i + 1], paths, rows)
        == ShownIds(page[..i], paths, rows) + if PathReadable(steps, rows) then StepIds(steps) else {}
  {
    assert page[..i + 1] == page[..i] + [page[i]];
  }

  lemma {:induction false} KeptExact(full: seq<Rec>, keep: set<Id>, r: Rec)
    ensures r in Kept(full, keep) <==> r in full && r.id in keep
  {
    if full != [] {
      KeptExact(full[..|full| - 1], keep, r);
      assert full == full[..|full| - 1] + [full[|full| - 1]];
    }
  }

  /** The kept rows are those at the given positions, in rising order. */
  ghost predicate Picks(at: seq<nat>, full: seq<Rec>, kept: seq<Rec>) {
    && |at| == |kept|
    && (forall i :: 0 <= i < |at| ==> at[i] < |full| && full[at[i]] == kept[i])
    && forall i, j :: 0 <= i < j < |at| ==> at[i] < at[j]
  }

  lemma PicksOneMore(at: seq<nat>, front: seq<Rec>, kept: seq<Rec>, last: Rec)
    requires Picks(at, front, kept)
    ensures Picks(at, front + [last], kept) && Picks(at + [|front|], front + [last], kept + [last])
  {
    assert forall i :: 0 <= i < |at| ==> (front + [last])[at[i]] == front[at[i]];
  }

  /** What is kept stands in its old order. */
  lemma {:induction false} KeptKeepsOrder(full: seq<Rec>, keep: set<Id>) returns (at: seq<nat>)
    ensures Picks(at, full, Kept(full, keep))
  {
    at := [];
    if full != [] {
      var front, last := full[..|full| - 1], full[|full| - 1];
      at := KeptKeepsOrder(front, keep);
      PicksOneMore(at, front, Kept(front, keep), last);
      assert front + [last] == full;
      if last.id in keep { at := at + [|front|]; }
    }
  }

  // ----- What this hides and what it keeps together, on a forest

  ghost predicate CompletePaths(t: Table, page: seq<Rec>, paths: map<Id, seq<Step>>) {
    && Forest(t)
    && forall k :: 0 <= k < |page| ==>
         page[k].id in t && page[k].id in paths && paths[page[k].id] == ChainSteps(t, Chain(t, page[k].id))
  }

  /** A row a caller can read together with its parent link. */
  predicate Open(rows: Rows, x: Id) {
    x in rows && rows[x].parentField.Some?
  }

  lemma {:induction false} ChainOfMember(t: Table, x: Id, i: nat)
    requires Forest(t) && x in t && i < |Chain(t, x)|
    ensures Chain(t, Chain(t, x)[i]) == Chain(t, x)[..i + 1]
    decreases |Chain(t, x)|
  {
    var c := Chain(t, x);
    if i == |c| - 1 {
      assert c[..i + 1] == c;
    } else {
      assert t[x].Some?;
      AncestorsShrink(t, x);
      var up := Chain(t, t[x].value);
      assert c == up + [x];
      ChainOfMember(t, t[x].value, i);
      assert c[..i + 1] == up[..i + 1];
    }
  }

  /** A match's path is shown exactly when its whole chain, root included, is open. */
  lemma ShownIffChainOpen(t: Table, page: seq<Rec>, paths: map<Id, seq<Step>>, rows: Rows, k: nat)
    requires CompletePaths(t, page, paths) && k < |page|
    ensures PathReadable(paths[page[k].id], rows) <==> forall x :: x in Chain(t, page[k].id) ==> Open(rows, x)
  {
    var c := Chain(t, page[k].id);
    var steps := paths[page[k].id];
    assert steps[0].parent.None?;
    forall i | 0 <= i < |c| ensures StepReadable(steps[i], rows) <==> Open(rows, c[i]) {
      assert steps[i].id == c[i];
    }
    if PathReadable(steps, rows) {
      forall x | x in c ensures Open(rows, x) {
        var i :| 0 <= i < |c| && c[i] == x;
        assert StepReadable(steps[i], rows);
      }
    }
    if forall x :: x in c ==> Open(rows, x) {
      forall i | 0 <= i < |steps| ensures StepReadable(steps[i], rows) {
        assert c[i] in c;
      }
    }
  }

  lemma ShownIdsExact(t: Table, page: seq<Rec>, paths: map<Id, seq<Step>>, rows: Rows, x: Id)
    requires CompletePaths(t, page, paths)
    ensures x in ShownIds(page, paths, rows)
       <==> exists k :: 0 <= k < |page| && x in Chain(t, page[k].id)
                     && forall y :: y in Chain(t, page[k].id) ==> Open(rows, y)
  {
    forall k | 0 <= k < |page|
      ensures PathReadable(PathAt(paths, page[k].id), rows) && x in StepIds(PathAt(paths, page[k].id))
         <==> x in Chain(t, page[k].id) && forall y :: y in Chain(t, page[k].id) ==> Open(rows, y)
    {
      ShownIffChainOpen(t, page, paths, rows, k);
      var c := Chain(t, page[k].id);
      var steps := PathAt(paths, page[k].id);
      assert forall i :: 0 <= i < |c| ==> steps[i].id == c[i];
    }
  }

  /** The context is the union of the chains that are open from the root to a match. */
  lemma ContextExact(t: Table, page: seq<Rec>, paths: map<Id, seq<Step>>, rows: Rows, ordered: seq<Rec>, r: Rec)
    requires CompletePaths(t, page, paths)
    ensures r in Kept(ordered, ShownIds(page, paths, rows)) <==>
      r in ordered && exists k :: 0 <= k < |page| && r.id in Chain(t, page[k].id)
                               && forall y :: y in Chain(t, page[k].id) ==> Open(rows, y)
  {
    KeptExact(ordered, ShownIds(page, paths, rows), r);
    ShownIdsExact(t, page, paths, rows, r.id);
  }

  /** Context rows bring their parent along and never lie below a row the caller cannot read. */
  lemma ContextIsOpenAndUpwardClosed(t: Table, page: seq<Rec>, paths: map<Id, seq<Step>>, rows: Rows, x: Id)
    requires CompletePaths(t, page, paths) && x in ShownIds(page, paths, rows)
    ensures x in t && forall y :: y in Chain(t, x) ==> Open(rows, y)
    ensures t[x].Some? ==> t[x].value in ShownIds(page, paths, rows)
  {
    ShownIdsExact(t, page, paths, rows, x);
    var k :| 0 <= k < |page| && x in Chain(t, page[k].id)
          && forall y :: y in Chain(t, page[k].id) ==> Open(rows, y);
    var c := Chain(t, page[k].id);
    var i :| 0 <= i < |c| && c[i] == x;
    ChainOfMember(t, page[k].id, i);
    if t[x].Some? {
      assert 0 < i && c[i - 1] == t[x].value;
      assert c[i - 1] in c;
      ShownIdsExact(t, page, paths, rows, t[x].value);
    }
  }

  /** A match below an unreadable row shows no parent and is not part of the context. */
  lemma HiddenAncestorHidesMatch(t: Table, page: seq<Rec>, paths: map<Id, seq<Step>>, rows: Rows, k: nat, u: Id)
    requires CompletePaths(t, page, paths) && k < |page|
    requires u in Chain(t, page[k].id) && !Open(rows, u)
    ensures var node := TreeNode(page[k], !PathReadable(paths[page[k].id], rows));
      node.pathUnavailable && node.parent.None? && node.record.parentField.None?
    ensures page[k].id !in ShownIds(page, paths, rows)
  {
    ShownIffChainOpen(t, page, paths, rows, k);
    if page[k].id in ShownIds(page, paths, rows) {
      ContextIsOpenAndUpwardClosed(t, page, paths, rows, page[k].id);
    }
  }
}
