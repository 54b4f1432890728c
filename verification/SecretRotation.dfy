/**
  Re-encrypting stored secrets under the active key, a hundred at a time, each
  batch in a transaction of its own.
 */
module SecretRotation {
  import opened Wrappers

  // ----- Ciphers

  /** A ciphertext names its key; it opens only with that key and the binding it was made for. */
  datatype Cipher = Cipher(key: string, binding: string, value: string)

  datatype Ring = Ring(active: string, keys: set<string>)

  predicate ValidRing(r: Ring) {
    r.active in r.keys
  }

  function Encrypt(r: Ring, binding: string, value: string): Cipher {
    Cipher(r.active, binding, value)
  }

  function Decrypt(r: Ring, binding: string, c: Cipher): Option<string> {
    if c.key in r.keys && c.binding == binding then Some(c.value) else None
  }

  /** What is sealed opens with the same ring and binding, and with any later ring that still has the key. */
  lemma SealedOpens(r: Ring, later: Ring, binding: string, value: string)
    requires ValidRing(r) && r.active in later.keys
    ensures Decrypt(r, binding, Encrypt(r, binding, value)) == Some(value)
    ensures Decrypt(later, binding, Encrypt(r, binding, value)) == Some(value)
  {
  }

  /** A ciphertext opens exactly with a ring that has its key, for the binding it was made for, and then to its value. */
  lemma OpensIff(r: Ring, binding: string, c: Cipher, value: string)
    ensures Decrypt(r, binding, c) == Some(value) <==> c.key in r.keys && c.binding == binding && c.value == value
  {
  }

  // ----- Columns

  /** The ciphertexts of one secret field by record id; a record without a value has no entry. */
  type SecretColumn = map<int, Cipher>

  /** The same plaintext under the active key; what is there already stays as it is. */
  predicate Rotated(r: Ring, a: Cipher, b: Cipher) {
    b.key == r.active && b.binding == a.binding && b.value == a.value && (a.key == r.active ==> b == a)
  }

  /** The batches look at ids from 1 on. */
  function Stale(r: Ring, col: SecretColumn): set<int> {
    set id | id in col && id > 0 && col[id].key != r.active
  }

  function StaleUpTo(r: Ring, col: SecretColumn, last: int): set<int> {
    set id | id in Stale(r, col) && id <= last
  }

  predicate Opens(r: Ring, binding: string, col: SecretColumn) {
    forall id :: id in col && id > 0 ==> Decrypt(r, binding, col[id]).Some?
  }

  /** The column after everything up to an id has been rotated. */
  predicate RotatedUpTo(r: Ring, before: SecretColumn, current: SecretColumn, last: int) {
    && current.Keys == before.Keys
    && forall id :: id in before ==> if 0 < id <= last then Rotated(r, before[id], current[id]) else current[id] == before[id]
  }

  /** The column after some committed prefix of its batches. */
  ghost predicate RotatedSoFar(r: Ring, before: SecretColumn, current: SecretColumn) {
    exists last :: RotatedUpTo(r, before, current, last)
  }

  const BATCH := 100

  /** Consecutive ids of the column, from the first one past the cursor. */
  predicate Consecutive(col: SecretColumn, after: int, items: seq<int>) {
    forall k {:trigger Previous(after, items, k)} :: 0 <= k < |items| ==> Follows(col, Previous(after, items, k), items[k])
  }

  function Previous(after: int, items: seq<int>, k: nat): int
    requires k < |items|
  {
    if k == 0 then after else items[k - 1]
  }

  /** The id is the next one of the column. */
  predicate Follows(col: SecretColumn, prev: int, id: int) {
    id in col && prev < id && NoneBetween(col, prev, id)
  }

  predicate NoneBetween(col: SecretColumn, low: int, high: int) {
    forall id :: id in col ==> !(low < id < high)
  }

  predicate NoneAfter(col: SecretColumn, last: int) {
    forall id :: id in col ==> id <= last
  }

  function LastOf(after: int, items: seq<int>): int {
    if items == [] then after else items[|items| - 1]
  }

  /** The least id past the cursor. */
  method NextId(col: SecretColumn, after: int) returns (r: Option<int>)
    ensures r.None? <==> NoneAfter(col, after)
    ensures r.Some? ==> r.value in col && after < r.value && NoneBetween(col, after, r.value)
  {
    r := None;
    var rest := col.Keys;
    while rest != {}
      invariant rest <= col.Keys
      invariant r.Some? ==> r.value in col && after < r.value
      invariant forall id :: id in col && id !in rest && after < id ==> r.Some? && r.value <= id
      decreases rest
    {
      assert (forall x :: x !in rest) ==> rest == {};
      var id :| id in rest;
      rest := rest - {id};
      if after < id && (r.None? || id < r.value) { r := Some(id); }
    }
  }

  method SelectBatch(col: SecretColumn, after: int) returns (items: seq<int>)
    ensures |items| <= BATCH && Consecutive(col, after, items)
    ensures |items| < BATCH ==> NoneAfter(col, LastOf(after, items))
    ensures |items| <= 100 && (|items| < 100 ==> forall id :: id in col ==> id <= LastOf(after, items))
  {
    items := [];
    while |items| < BATCH
      invariant |items| <= BATCH && Consecutive(col, after, items)
    {
      var next := NextId(col, LastOf(after, items));
      if next.None? { return; }
      ConsecutiveGrows(col, after, items, next.value);
      items := items + [next.value];
    }
  }

  lemma ConsecutiveGrows(col: SecretColumn, after: int, items: seq<int>, id: int)
    requires Consecutive(col, after, items) && Follows(col, LastOf(after, items), id)
    ensures Consecutive(col, after, items + [id])
  {
    var all := items + [id];
    forall k | 0 <= k < |all| ensures Follows(col, Previous(after, all, k), all[k]) {
      if k < |items| {
        assert Follows(col, Previous(after, items, k), items[k]);
      }
    }
  }

  lemma SameIdsConsecutive(a: SecretColumn, b: SecretColumn, after: int, items: seq<int>)
    requires a.Keys == b.Keys && Consecutive(a, after, items)
    ensures Consecutive(b, after, items)
    ensures NoneAfter(a, LastOf(after, items)) ==> NoneAfter(b, LastOf(after, items))
  {
    forall prev, id | Follows(a, prev, id) ensures Follows(b, prev, id) {
      forall x | x in b ensures !(prev < x < id) { assert x in a; }
    }
    if NoneAfter(a, LastOf(after, items)) {
      forall id | id in b ensures id <= LastOf(after, items) { assert id in a; }
    }
  }

  lemma StaleStep(r: Ring, col: SecretColumn, prev: int, id: int)
    requires id in col && 0 <= prev < id && NoneBetween(col, prev, id)
    ensures StaleUpTo(r, col, id) == StaleUpTo(r, col, prev) + if col[id].key != r.active then {id} else {}
    ensures id !in StaleUpTo(r, col, prev)
  {
    forall x | x in StaleUpTo(r, col, id) && x != id ensures x in StaleUpTo(r, col, prev) {
      assert !(prev < x < id);
    }
  }

  // ----- Rotation

  class SecretStore {
    const bindings: seq<string>
    var columns: seq<SecretColumn>

    ghost predicate Valid()
      reads this
    {
      |bindings| == |columns|
    }

    /** One batch of one column. A failure part of the way leaves the column to the caller's rollback. */
    method RotateSecretBatch(r: Ring, j: nat, after: int, ghost start: SecretColumn)
        returns (count: nat, last: int, ok: bool)
      requires Valid() && ValidRing(r) && j < |columns| && after >= 0 && RotatedUpTo(r, start, columns[j], after)
      modifies this`columns
      ensures Valid() && |columns| == |old(columns)|
      ensures forall k :: 0 <= k < |columns| && k != j ==> columns[k] == old(columns)[k]
      ensures last >= after && (ok && last == after ==> NoneAfter(start, after))
      ensures ok && last != after ==> last in start
      ensures ok ==> RotatedUpTo(r, start, columns[j], last)
      ensures ok ==> |StaleUpTo(r, start, last)| == |StaleUpTo(r, start, after)| + count
      ensures Opens(r, bindings[j], start) ==> ok
      ensures ok ==> forall id :: id in start && after < id <= last ==> Decrypt(r, bindings[j], start[id]).Some?
    {
      var items := SelectBatch(columns[j], after);
      SameIdsConsecutive(columns[j], start, after, items);
      count, last, ok := 0, after, true;
      for i := 0 to |items|
        invariant Valid() && |columns| == |old(columns)| && ok
        invariant forall k :: 0 <= k < |columns| && k != j ==> columns[k] == old(columns)[k]
        invariant last == LastOf(after, items[..i]) && last >= after && (i > 0 ==> last > after && last in start)
        invariant RotatedUpTo(r, start, columns[j], last)
        invariant |StaleUpTo(r, start, last)| == |StaleUpTo(r, start, after)| + count
        invariant forall id :: id in start && after < id <= last ==> Decrypt(r, bindings[j], start[id]).Some?
      {
        var id := items[i];
        assert last == Previous(after, items, i);
        assert Follows(start, last, id);
        var changed;
        changed, ok := RotateOne(r, j, id, start, last);
        if !ok { return; }
        if changed { count := count + 1; }
        last := id;
        assert items[..i + 1][i] == id;
      }
      assert items[..|items|] == items;
    }

    /** One value: opened, and sealed again when its key is not the active one. */
    method RotateOne(r: Ring, j: nat, id: int, ghost start: SecretColumn, ghost prev: int)
        returns (changed: bool, ok: bool)
      requires Valid() && ValidRing(r) && j < |columns| && id in start
      requires 0 <= prev < id && NoneBetween(start, prev, id) && RotatedUpTo(r, start, columns[j], prev)
      modifies this`columns
      ensures Valid() && |columns| == |old(columns)|
      ensures forall k :: 0 <= k < |columns| && k != j ==> columns[k] == old(columns)[k]
      ensures ok <==> Decrypt(r, bindings[j], start[id]).Some?
      ensures ok ==> RotatedUpTo(r, start, columns[j], id) && (changed <==> start[id].key != r.active)
      ensures ok ==> |StaleUpTo(r, start, id)| == |StaleUpTo(r, start, prev)| + if changed then 1 else 0
    {
      StaleStep(r, start, prev, id);
      var value := Decrypt(r, bindings[j], columns[j][id]);
      if value.None? { return false, false; }
      changed, ok := columns[j][id].key != r.active, true;
      if changed { columns := columns[j := columns[j][id := Encrypt(r, bindings[j], value.value)]]; }
      forall x | x in start
        ensures if 0 < x <= id then Rotated(r, start[x], columns[j][x]) else columns[j][x] == start[x]
      {
        assert !(prev < x < id);
      }
    }

    /**
      All batches of all columns. Each batch that commits stays; a failure undoes
      only its own. The count is of the values re-encrypted in committed batches.
     */
    method RotateRecordSecrets(r: Ring, fails: (nat, int) -> bool) returns (total: nat, ok: bool)
      requires Valid() && ValidRing(r)
      modifies this`columns
      ensures Valid() && |columns| == |old(columns)|
      ensures forall k :: 0 <= k < |columns| ==> RotatedSoFar(r, old(columns)[k], columns[k])
      ensures total + StaleTotal(r, columns) == StaleTotal(r, old(columns))
      ensures ok ==> forall k :: 0 <= k < |columns| ==>
        Opens(r, bindings[k], old(columns)[k]) && AllRotated(r, old(columns)[k], columns[k])
      ensures (forall k :: 0 <= k < |columns| ==> Opens(r, bindings[k], old(columns)[k]))
          && (forall k, after :: !fails(k, after))
        ==> ok
    {
      total, ok := 0, true;
      for j := 0 to |columns|
        invariant Valid() && |columns| == |old(columns)| && ok
        invariant forall k :: 0 <= k < j ==>
          Opens(r, bindings[k], old(columns)[k]) && AllRotated(r, old(columns)[k], columns[k])
        invariant forall k :: j <= k < |columns| ==> columns[k] == old(columns)[k]
        invariant total + StaleTotal(r, columns) == StaleTotal(r, old(columns))
      {
        ghost var before, counted := columns, total;
        var count;
        ghost var last;
        count, last, ok := RotateColumn(r, j, fails);
        total := total + count;
        StaleTotalStep(r, before, columns, j);
        if !ok {
          assert RotatedUpTo(r, old(columns)[j], columns[j], last);
          forall k | 0 <= k < |columns| && k != j
            ensures RotatedSoFar(r, old(columns)[k], columns[k])
          {
            if k < j {
              AllIsUpToSome(r, old(columns)[k], columns[k]);
            } else {
              assert RotatedUpTo(r, old(columns)[k], columns[k], 0);
            }
          }
          return;
        }
      }
      forall k | 0 <= k < |columns| ensures RotatedSoFar(r, old(columns)[k], columns[k]) {
        AllIsUpToSome(r, old(columns)[k], columns[k]);
      }
    }

    /** The batches of one column, up to the first that finds nothing or fails. */
    method RotateColumn(r: Ring, j: nat, fails: (nat, int) -> bool) returns (total: nat, ghost last: int, ok: bool)
      requires Valid() && ValidRing(r) && j < |columns|
      modifies this`columns
      ensures Valid() && |columns| == |old(columns)|
      ensures forall k :: 0 <= k < |columns| && k != j ==> columns[k] == old(columns)[k]
      ensures RotatedUpTo(r, old(columns)[j], columns[j], last)
      ensures total + |Stale(r, columns[j])| == |Stale(r, old(columns)[j])|
      ensures ok ==> Opens(r, bindings[j], old(columns)[j]) && AllRotated(r, old(columns)[j], columns[j])
      ensures Opens(r, bindings[j], old(columns)[j]) && (forall after :: !fails(j, after)) ==> ok
    {
      var after := 0;
      ghost var start := columns[j];
      total, ok := 0, true;
      assert StaleUpTo(r, start, 0) == {};
      while true
        invariant Valid() && |columns| == |old(columns)| && ok && after >= 0
        invariant forall k :: 0 <= k < |columns| && k != j ==> columns[k] == old(columns)[k]
        invariant RotatedUpTo(r, start, columns[j], after)
        invariant |StaleUpTo(r, start, after)| == total
        invariant forall id :: id in start && 0 < id <= after ==> Decrypt(r, bindings[j], start[id]).Some?
        decreases |IdsAfter(start, after)|
      {
        last := after;
        var saved := columns;
        var count, next;
        count, next, ok := RotateSecretBatch(r, j, after, start);
        if !ok || fails(j, after) {
          columns, ok := saved, false;
          StaleLeft(r, start, columns[j], last);
          return;
        }
        total := total + count;
        if next == after {
          StaleLeft(r, start, columns[j], last);
          return;
        }
        FewerAfter(start, after, next);
        after := next;
      }
    }
  }

  function IdsAfter(col: SecretColumn, after: int): set<int> {
    set id | id in col && id > after
  }

  /** The cursor moves past an id of the column, so fewer remain. */
  lemma FewerAfter(col: SecretColumn, after: int, next: int)
    requires after < next && next in col
    ensures |IdsAfter(col, next)| < |IdsAfter(col, after)|
  {
    assert IdsAfter(col, next) + {next} <= IdsAfter(col, after);
    assert |IdsAfter(col, next) + {next}| == |IdsAfter(col, next)| + 1;
    SubsetSize(IdsAfter(col, next) + {next}, IdsAfter(col, after));
  }

  lemma {:induction false} SubsetSize(a: set<int>, b: set<int>)
    requires a <= b
    ensures |a| <= |b|
  {
    assert b == a + (b - a);
  }

  /** Every secret of the column is under the active key, with its plaintext unchanged. */
  predicate AllRotated(r: Ring, before: SecretColumn, current: SecretColumn) {
    && current.Keys == before.Keys
    && forall id :: id in before ==> if id > 0 then Rotated(r, before[id], current[id]) else current[id] == before[id]
  }

  lemma {:induction false} MaxId(ids: set<int>) returns (last: int)
    ensures forall id :: id in ids ==> id <= last
    decreases ids
  {
    last := 0;
    if ids != {} {
      assert (forall x :: x !in ids) ==> ids == {};
      var id :| id in ids;
      var rest := ids - {id};
      var m := MaxId(rest);
      last := if id > m then id else m;
      forall x | x in ids ensures x <= last {
        if x != id { assert x in rest; }
      }
    }
  }

  lemma AllIsUpToSome(r: Ring, start: SecretColumn, col: SecretColumn)
    requires AllRotated(r, start, col)
    ensures RotatedSoFar(r, start, col)
  {
    var last := MaxId(start.Keys);
    assert RotatedUpTo(r, start, col, last);
  }

  /** What is stale after a committed prefix is what was stale past it. */
  lemma StaleLeft(r: Ring, start: SecretColumn, col: SecretColumn, last: int)
    requires RotatedUpTo(r, start, col, last)
    ensures |StaleUpTo(r, start, last)| + |Stale(r, col)| == |Stale(r, start)|
  {
    assert Stale(r, col) == Stale(r, start) - StaleUpTo(r, start, last);
    assert StaleUpTo(r, start, last) <= Stale(r, start);
  }

  function StaleTotal(r: Ring, columns: seq<SecretColumn>): nat {
    if columns == [] then 0 else StaleTotal(r, columns[..|columns| - 1]) + |Stale(r, columns[|columns| - 1])|
  }

  lemma {:induction false} StaleTotalStep(r: Ring, a: seq<SecretColumn>, b: seq<SecretColumn>, j: nat)
    requires |a| == |b| && j < |a| && forall k :: 0 <= k < |a| && k != j ==> a[k] == b[k]
    ensures StaleTotal(r, b) - |Stale(r, b[j])| == StaleTotal(r, a) - |Stale(r, a[j])|
    decreases |a|
  {
    var n := |a| - 1;
    if j < n {
      StaleTotalStep(r, a[..n], b[..n], j);
    } else {
      assert a[..n] == b[..n];
    }
  }

  // ----- Whole passes

  /** Every live secret is under the active key. */
  predicate Finished(r: Ring, columns: seq<SecretColumn>) {
    forall k, id :: 0 <= k < |columns| && id in columns[k] && id > 0 ==> columns[k][id].key == r.active
  }

  lemma {:induction false} FinishedIffNoneStale(r: Ring, columns: seq<SecretColumn>)
    ensures Finished(r, columns) <==> StaleTotal(r, columns) == 0
  {
    if columns != [] {
      var front, col := columns[..|columns| - 1], columns[|columns| - 1];
      FinishedIffNoneStale(r, front);
      assert forall k :: 0 <= k < |front| ==> front[k] == columns[k];
      assert (forall id :: id !in Stale(r, col)) <==> Stale(r, col) == {};
      if Finished(r, front) && Stale(r, col) == {} {
        forall k, id | 0 <= k < |columns| && id in columns[k] && id > 0 ensures columns[k][id].key == r.active {
          if k < |front| {
            assert front[k] == columns[k] && id in front[k];
          } else {
            assert id !in Stale(r, col);
          }
        }
      }
      if Finished(r, columns) {
        assert forall k, id :: 0 <= k < |front| && id in front[k] && id > 0 ==> columns[k][id].key == r.active;
      }
    }
  }

  /** A column that opened before any prefix of a rotation opens after it to the same values: it can be resumed. */
  lemma PrefixStaysOpen(r: Ring, binding: string, start: SecretColumn, col: SecretColumn, last: int)
    requires ValidRing(r) && RotatedUpTo(r, start, col, last)
    ensures Opens(r, binding, start) ==> Opens(r, binding, col)
    ensures forall id :: id in start && Decrypt(r, binding, start[id]).Some? ==>
      Decrypt(r, binding, col[id]) == Decrypt(r, binding, start[id])
  {
    if Opens(r, binding, start) {
      assert forall id :: id in start && id > 0 ==> Decrypt(r, binding, start[id]).Some?;
    }
  }

  /**
    The operator's two passes. When the first succeeds the second changes nothing
    and returns 0, whatever was interrupted before.
   */
  method RotateAndVerify(store: SecretStore, r: Ring, fails: (nat, int) -> bool) returns (count: nat, ok: bool)
    requires store.Valid() && ValidRing(r)
    modifies store`columns
    ensures store.Valid() && |store.columns| == |old(store.columns)|
    ensures ok ==> Finished(r, store.columns) && count == StaleTotal(r, old(store.columns))
    ensures ok ==> forall k :: 0 <= k < |store.columns| ==> AllRotated(r, old(store.columns)[k], store.columns[k])
    ensures (forall k :: 0 <= k < |store.columns| ==> Opens(r, store.bindings[k], old(store.columns)[k]))
        && (forall k, after :: !fails(k, after))
      ==> ok
  {
    count, ok := store.RotateRecordSecrets(r, fails);
    if !ok { return; }
    ghost var rotated := store.columns;
    RotatedIsFinished(r, old(store.columns), rotated);
    forall k | 0 <= k < |rotated| ensures Opens(r, store.bindings[k], rotated[k]) {
      OpensAfterAll(r, store.bindings[k], old(store.columns)[k], rotated[k]);
    }
    var remaining;
    remaining, ok := store.RotateRecordSecrets(r, fails);
    FinishedIffNoneStale(r, rotated);
    assert remaining == 0;
    if ok {
      forall k | 0 <= k < |rotated| ensures store.columns[k] == rotated[k] {
        FinishedStaysSame(r, rotated, store.columns, k);
      }
      assert store.columns == rotated;
    }
  }

  lemma RotatedIsFinished(r: Ring, a: seq<SecretColumn>, b: seq<SecretColumn>)
    requires |a| == |b| && forall k :: 0 <= k < |b| ==> AllRotated(r, a[k], b[k])
    ensures Finished(r, b)
  {
    forall k, id | 0 <= k < |b| && id in b[k] && id > 0 ensures b[k][id].key == r.active {
      assert AllRotated(r, a[k], b[k]) && id in a[k];
    }
  }

  lemma OpensAfterAll(r: Ring, binding: string, a: SecretColumn, b: SecretColumn)
    requires ValidRing(r) && Opens(r, binding, a) && AllRotated(r, a, b)
    ensures Opens(r, binding, b)
  {
    forall id | id in b && id > 0 ensures Decrypt(r, binding, b[id]).Some? {
      assert Decrypt(r, binding, a[id]).Some?;
    }
  }

  lemma FinishedStaysSame(r: Ring, a: seq<SecretColumn>, b: seq<SecretColumn>, k: nat)
    requires |a| == |b| && k < |a| && Finished(r, a) && AllRotated(r, a[k], b[k])
    ensures b[k] == a[k]
  {
    forall id | id in a[k] ensures b[k][id] == a[k][id] { }
  }
}
