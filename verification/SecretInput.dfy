/**
  Secrets are taken out of the input before Hooks see it and put back afterwards,
  through collections nested to any depth.
 */
module SecretInput {
  import opened Wrappers

  datatype Json = Null | Scalar(text: string) | Arr(items: seq<Json>) | Obj(fields: map<string, Json>)

  type Fields = map<string, Json>

  /** The secret fields of an Entity, and the layouts of the rows it owns. */
  datatype Layout = Layout(secrets: set<string>, collections: map<string, Layout>)

  predicate HasSecrets(l: Layout) {
    l.secrets != {} || exists n :: n in l.collections && HasSecrets(l.collections[n])
  }

  /** Following collection fields, one comes to a layout that has a secret field itself. */
  predicate SecretBelow(l: Layout, path: seq<string>) {
    if path == [] then l.secrets != {} else path[0] in l.collections && SecretBelow(l.collections[path[0]], path[1..])
  }

  /** The path leads to a secret field of the layout. */
  predicate LeadsToSecret(l: Layout, path: seq<string>) {
    SecretBelow(l, path)
  }

  lemma {:induction false} FindSecret(l: Layout) returns (path: seq<string>)
    requires HasSecrets(l)
    ensures SecretBelow(l, path)
  {
    path := [];
    if l.secrets == {} {
      var n :| n in l.collections && HasSecrets(l.collections[n]);
      var rest := FindSecret(l.collections[n]);
      path := [n] + rest;
      assert path[1..] == rest;
    }
  }

  lemma {:induction false} SecretIsFound(l: Layout, path: seq<string>)
    requires SecretBelow(l, path)
    ensures HasSecrets(l)
  {
    if path != [] { SecretIsFound(l.collections[path[0]], path[1..]); }
  }

  /** A layout counts as having secrets exactly when there is a secret field in it or below. */
  lemma HasSecretsIff(l: Layout)
    ensures HasSecrets(l) <==> exists path :: LeadsToSecret(l, path)
  {
    if HasSecrets(l) {
      var path := FindSecret(l);
      assert LeadsToSecret(l, path);
    }
    if path :| LeadsToSecret(l, path) { SecretIsFound(l, path); }
  }

  /** A collection whose rows hold secrets at some depth. */
  predicate Guarded(l: Layout, n: string) {
    n in l.collections && HasSecrets(l.collections[n])
  }

  /** Field names are distinct, and a row's id is neither a secret nor a collection. */
  predicate Sane(l: Layout) {
    && l.secrets !! l.collections.Keys && "id" !in l.secrets + l.collections.Keys
    && forall n :: n in l.collections ==> Sane(l.collections[n])
  }

  /** The rows of a collection value: null has none, and a row may itself be null. */
  function Rows(j: Json): Option<seq<Json>> {
    if j.Null? then Some([])
    else if j.Arr? && forall i :: 0 <= i < |j.items| ==> j.items[i].Null? || j.items[i].Obj? then Some(j.items)
    else None
  }

  function RowFields(row: Json): Fields {
    if row.Obj? then row.fields else map[]
  }

  function IdOf(row: Json): Option<Json> {
    if "id" in RowFields(row) then Some(RowFields(row)["id"]) else None
  }

  // ----- Hiding

  /** Every guarded collection in the input is an array of rows. */
  predicate Hideable(l: Layout, m: Fields)
    decreases l, 0
  {
    HasSecrets(l) ==> forall n :: n in m && Guarded(l, n) ==> HideableRows(l.collections[n], m[n])
  }

  predicate HideableRows(l: Layout, j: Json)
    decreases l, 1
  {
    Rows(j).Some? && forall i :: 0 <= i < |Rows(j).value| ==> Hideable(l, RowFields(Rows(j).value[i]))
  }

  function Hide(l: Layout, m: Fields): Fields
    requires Hideable(l, m)
    decreases l, 0
  {
    if !HasSecrets(l) then m
    else map n | n in m && n !in l.secrets :: if Guarded(l, n) then HideRows(l.collections[n], m[n]) else m[n]
  }

  function HideRows(l: Layout, j: Json): Json
    requires HideableRows(l, j)
    decreases l, 1
  {
    var rows := Rows(j).value;
    Arr(seq(|rows|, i requires 0 <= i < |rows| => Obj(Hide(l, RowFields(rows[i])))))
  }

  /** No secret field is present at any depth. */
  predicate NoSecrets(l: Layout, m: Fields)
    decreases l, 0
  {
    HasSecrets(l) ==>
      && (forall s :: s in l.secrets ==> s !in m)
      && (forall n :: n in m && Guarded(l, n) ==> NoSecretRows(l.collections[n], m[n]))
  }

  predicate NoSecretRows(l: Layout, j: Json)
    decreases l, 1
  {
    Rows(j).Some? && forall i :: 0 <= i < |Rows(j).value| ==> NoSecrets(l, RowFields(Rows(j).value[i]))
  }

  // ----- Restoring

  /**
    What Hooks may hand back: no secrets, and the rows of every submitted guarded
    collection in their places, those submitted as null without fields.
   */
  predicate Acceptable(l: Layout, m: Fields, c: Fields)
    decreases l, 0
  {
    HasSecrets(l) ==>
      && NoSecrets(l, c)
      && (forall n :: n in m && Guarded(l, n) ==> n in c && AcceptableRows(l.collections[n], m[n], c[n]))
  }

  predicate AcceptableRows(l: Layout, mj: Json, cj: Json)
    decreases l, 2
  {
    && Rows(mj).Some? && Rows(cj).Some? && |Rows(mj).value| == |Rows(cj).value|
    && forall i :: 0 <= i < |Rows(mj).value| ==> AcceptableRow(l, Rows(mj).value[i], Rows(cj).value[i])
  }

  predicate AcceptableRow(l: Layout, mrow: Json, crow: Json)
    decreases l, 1
  {
    && IdOf(mrow) == IdOf(crow) && Acceptable(l, RowFields(mrow), RowFields(crow))
    && (mrow.Null? ==> RowFields(crow) == map[])
  }

  /** The Hooks' values with the submitted secrets put back in the same places. */
  function Merge(l: Layout, m: Fields, c: Fields): Fields
    requires Acceptable(l, m, c)
    decreases l, 0
  {
    if !HasSecrets(l) then c
    else
      map n | n in c.Keys + m.Keys * l.secrets ::
        if n in l.secrets && n in m then m[n]
        else if Guarded(l, n) && n in m && n in c then MergeRows(l.collections[n], m[n], c[n])
        else if n in c then c[n] else Null
  }

  function MergeRows(l: Layout, mj: Json, cj: Json): Json
    requires AcceptableRows(l, mj, cj)
    decreases l, 2
  {
    var mrows, crows := Rows(mj).value, Rows(cj).value;
    if mj.Null? then Null
    else Arr(seq(|mrows|, i requires 0 <= i < |mrows| => MergedRow(l, mrows[i], crows[i])))
  }

  function MergedRow(l: Layout, mrow: Json, crow: Json): Json
    requires AcceptableRow(l, mrow, crow)
    decreases l, 1
  {
    if mrow.Null? then Null else Obj(Merge(l, RowFields(mrow), RowFields(crow)))
  }

  lemma MergedRowsAreRows(l: Layout, mj: Json, cj: Json)
    requires AcceptableRows(l, mj, cj)
    ensures var mrows, crows, r := Rows(mj).value, Rows(cj).value, MergeRows(l, mj, cj);
      Rows(r).Some? && |Rows(r).value| == |mrows| &&
      forall i :: 0 <= i < |mrows| ==> Rows(r).value[i] == MergedRow(l, mrows[i], crows[i])
  {
    if !mj.Null? {
      var r := MergeRows(l, mj, cj);
      assert forall i :: 0 <= i < |r.items| ==> r.items[i] == MergedRow(l, Rows(mj).value[i], Rows(cj).value[i]);
      assert forall i :: 0 <= i < |r.items| ==> r.items[i].Null? || r.items[i].Obj?;
    }
  }

  // ----- The laws

  /** Hooks cannot reorder rows: at every position the id, if there is one, is what was submitted there. */
  lemma RowsKeepIds(l: Layout, mj: Json, cj: Json, i: nat)
    requires mj.Arr? && cj.Arr? && AcceptableRows(l, mj, cj) && i < |mj.items|
    ensures i < |cj.items| && |cj.items| == |mj.items|
    ensures cj.items[i].Obj? && "id" in cj.items[i].fields ==>
      mj.items[i].Obj? && "id" in mj.items[i].fields && cj.items[i].fields["id"] == mj.items[i].fields["id"]
    ensures mj.items[i].Obj? && "id" in mj.items[i].fields ==> cj.items[i].Obj? && "id" in cj.items[i].fields
  {
    assert AcceptableRow(l, mj.items[i], cj.items[i]);
  }

  /** Hooks never see a secret. */
  lemma {:induction false} HideHidesAll(l: Layout, m: Fields)
    requires Sane(l) && Hideable(l, m)
    ensures NoSecrets(l, Hide(l, m))
    decreases l, 0
  {
    if HasSecrets(l) {
      var h := Hide(l, m);
      forall n | n in h && Guarded(l, n) ensures NoSecretRows(l.collections[n], h[n]) {
        assert HideableRows(l.collections[n], m[n]);
        HideHidesRows(l.collections[n], m[n]);
      }
    }
  }

  lemma {:induction false} HideHidesRows(l: Layout, j: Json)
    requires Sane(l) && HideableRows(l, j)
    ensures NoSecretRows(l, HideRows(l, j))
    decreases l, 1
  {
    forall i | 0 <= i < |Rows(j).value| ensures NoSecrets(l, Hide(l, RowFields(Rows(j).value[i]))) {
      HideHidesAll(l, RowFields(Rows(j).value[i]));
    }
  }

  /** A secret-free value can be hidden again. */
  lemma {:induction false} SecretFreeIsHideable(l: Layout, m: Fields)
    requires NoSecrets(l, m)
    ensures Hideable(l, m)
    decreases l, 0
  {
    if HasSecrets(l) {
      forall n | n in m && Guarded(l, n) ensures HideableRows(l.collections[n], m[n]) {
        assert NoSecretRows(l.collections[n], m[n]);
        var rows := Rows(m[n]).value;
        forall i | 0 <= i < |rows| ensures Hideable(l.collections[n], RowFields(rows[i])) {
          SecretFreeIsHideable(l.collections[n], RowFields(rows[i]));
        }
      }
    }
  }

  /** When Hooks change nothing, restoring succeeds and gives back the submitted input, null rows and all. */
  lemma {:induction false} UnchangedRestores(l: Layout, m: Fields)
    requires Sane(l) && Hideable(l, m)
    ensures Acceptable(l, m, Hide(l, m)) && Merge(l, m, Hide(l, m)) == m
    decreases l, 0
  {
    if HasSecrets(l) {
      var h := Hide(l, m);
      HideHidesAll(l, m);
      forall n | n in m && Guarded(l, n)
        ensures n in h && AcceptableRows(l.collections[n], m[n], h[n])
        ensures MergeRows(l.collections[n], m[n], h[n]) == m[n]
      {
        assert HideableRows(l.collections[n], m[n]);
        UnchangedRowsRestore(l.collections[n], m[n]);
      }
      assert h.Keys + m.Keys * l.secrets == m.Keys;
    }
  }

  lemma {:induction false} UnchangedRowsRestore(l: Layout, j: Json)
    requires Sane(l) && HideableRows(l, j)
    ensures AcceptableRows(l, j, HideRows(l, j)) && MergeRows(l, j, HideRows(l, j)) == j
    decreases l, 1
  {
    var rows, hidden := Rows(j).value, Rows(HideRows(l, j)).value;
    forall i | 0 <= i < |rows|
      ensures IdOf(rows[i]) == IdOf(hidden[i]) && Acceptable(l, RowFields(rows[i]), RowFields(hidden[i]))
      ensures Merge(l, RowFields(rows[i]), RowFields(hidden[i])) == RowFields(rows[i])
      ensures rows[i].Null? ==> RowFields(hidden[i]) == map[]
    {
      UnchangedRestores(l, RowFields(rows[i]));
      assert RowFields(hidden[i]) == Hide(l, RowFields(rows[i]));
    }
    if j.Arr? { assert MergeRows(l, j, HideRows(l, j)).items == j.items; }
  }

  /** What Hooks left is what can be seen of the result: only secrets were added. */
  lemma {:induction false} RestoredShowsHookValues(l: Layout, m: Fields, c: Fields)
    requires Sane(l) && Acceptable(l, m, c)
    ensures Hideable(l, c) && Hideable(l, Merge(l, m, c)) && Hide(l, Merge(l, m, c)) == Hide(l, c)
    decreases l, 0
  {
    if HasSecrets(l) {
      SecretFreeIsHideable(l, c);
      var r := Merge(l, m, c);
      forall n | n in r && Guarded(l, n)
        ensures n in c && HideableRows(l.collections[n], r[n])
        ensures HideRows(l.collections[n], r[n]) == HideRows(l.collections[n], c[n])
      {
        assert HideableRows(l.collections[n], c[n]);
        if n in m {
          assert AcceptableRows(l.collections[n], m[n], c[n]);
          RestoredRowsShowHookValues(l.collections[n], m[n], c[n]);
        }
      }
      assert Hide(l, r).Keys == Hide(l, c).Keys;
    }
  }

  lemma {:induction false} RestoredRowsShowHookValues(l: Layout, mj: Json, cj: Json)
    requires Sane(l) && AcceptableRows(l, mj, cj) && HideableRows(l, cj)
    ensures HideableRows(l, MergeRows(l, mj, cj)) && HideRows(l, MergeRows(l, mj, cj)) == HideRows(l, cj)
    decreases l, 1
  {
    var mrows, crows, r := Rows(mj).value, Rows(cj).value, MergeRows(l, mj, cj);
    MergedRowsAreRows(l, mj, cj);
    forall i | 0 <= i < |mrows|
      ensures Hideable(l, RowFields(Rows(r).value[i]))
      ensures Hide(l, RowFields(Rows(r).value[i])) == Hide(l, RowFields(crows[i]))
    {
      if !mrows[i].Null? { RestoredShowsHookValues(l, RowFields(mrows[i]), RowFields(crows[i])); }
    }
  }

  /** The secrets of two inputs agree: the same at the top, and row by row below. */
  predicate SameSecrets(l: Layout, m: Fields, r: Fields)
    decreases l, 0
  {
    HasSecrets(l) ==>
      && (forall s :: s in l.secrets ==> (s in m <==> s in r) && (s in m ==> m[s] == r[s]))
      && (forall n :: n in m && Guarded(l, n) ==> n in r && SameRowSecrets(l.collections[n], m[n], r[n]))
      && (forall n :: n in r && n !in m && Guarded(l, n) ==> NoSecretRows(l.collections[n], r[n]))
  }

  predicate SameRowSecrets(l: Layout, mj: Json, rj: Json)
    decreases l, 1
  {
    && Rows(mj).Some? && Rows(rj).Some? && |Rows(mj).value| == |Rows(rj).value|
    && forall i :: 0 <= i < |Rows(mj).value| ==>
         && IdOf(Rows(mj).value[i]) == IdOf(Rows(rj).value[i])
         && SameSecrets(l, RowFields(Rows(mj).value[i]), RowFields(Rows(rj).value[i]))
  }

  /** Every secret submitted comes out at the row position it was submitted at, and no other secret appears. */
  lemma {:induction false} RestoredKeepsSecrets(l: Layout, m: Fields, c: Fields)
    requires Sane(l) && Acceptable(l, m, c)
    ensures SameSecrets(l, m, Merge(l, m, c))
    decreases l, 0
  {
    if HasSecrets(l) {
      var r := Merge(l, m, c);
      forall n | n in m && Guarded(l, n) ensures n in r && SameRowSecrets(l.collections[n], m[n], r[n]) {
        assert AcceptableRows(l.collections[n], m[n], c[n]);
        RestoredRowsKeepSecrets(l.collections[n], m[n], c[n]);
      }
    }
  }

  lemma {:induction false} RestoredRowsKeepSecrets(l: Layout, mj: Json, cj: Json)
    requires Sane(l) && AcceptableRows(l, mj, cj)
    ensures SameRowSecrets(l, mj, MergeRows(l, mj, cj))
    decreases l, 1
  {
    var mrows, crows, r := Rows(mj).value, Rows(cj).value, MergeRows(l, mj, cj);
    MergedRowsAreRows(l, mj, cj);
    forall i | 0 <= i < |mrows|
      ensures IdOf(mrows[i]) == IdOf(Rows(r).value[i])
      ensures SameSecrets(l, RowFields(mrows[i]), RowFields(Rows(r).value[i]))
    {
      if mrows[i].Null? {
      } else {
        RestoredKeepsSecrets(l, RowFields(mrows[i]), RowFields(crows[i]));
      }
    }
  }

  /** No guarded collection is null and none of its rows is. */
  predicate Plain(l: Layout, m: Fields)
    decreases l, 0
  {
    HasSecrets(l) ==> forall n :: n in m && Guarded(l, n) ==> PlainRows(l.collections[n], m[n])
  }

  predicate PlainRows(l: Layout, j: Json)
    decreases l, 1
  {
    && j.Arr? && Rows(j).Some?
    && forall i :: 0 <= i < |j.items| ==> j.items[i].Obj? && Plain(l, j.items[i].fields)
  }

  /** The visible values and the secrets determine an input: nothing else distinguishes two of them. */
  lemma {:induction false} DeterminedByParts(l: Layout, a: Fields, b: Fields)
    requires Hideable(l, a) && Hideable(l, b) && Hide(l, a) == Hide(l, b) && SameSecrets(l, a, b)
    requires Plain(l, a) && Plain(l, b)
    ensures a == b
    decreases l, 0
  {
    if HasSecrets(l) {
      forall n ensures n in a <==> n in b {
        if n !in l.secrets { assert n in a <==> n in Hide(l, a); assert n in b <==> n in Hide(l, b); }
      }
      forall n | n in a ensures a[n] == b[n] {
        if n !in l.secrets {
          assert Hide(l, a)[n] == Hide(l, b)[n];
          if Guarded(l, n) { RowsDeterminedByParts(l.collections[n], a[n], b[n]); }
        }
      }
    }
  }

  lemma {:induction false} RowsDeterminedByParts(l: Layout, a: Json, b: Json)
    requires HideableRows(l, a) && HideableRows(l, b) && HideRows(l, a) == HideRows(l, b) && SameRowSecrets(l, a, b)
    requires PlainRows(l, a) && PlainRows(l, b)
    ensures a == b
    decreases l, 1
  {
    forall i | 0 <= i < |a.items| ensures a.items[i] == b.items[i] {
      assert HideRows(l, a).items[i] == Obj(Hide(l, a.items[i].fields));
      assert HideRows(l, b).items[i] == Obj(Hide(l, b.items[i].fields));
      DeterminedByParts(l, a.items[i].fields, b.items[i].fields);
    }
  }

  // ----- Writes into null rows

  /** The order in which the collections of a layout are restored; only the first row that fails to restore matters. */
  type Order = Layout -> seq<string>

  ghost predicate Lists(names: seq<string>, keys: set<string>) {
    && (forall n :: n in names <==> n in keys)
    && forall i, j :: 0 <= i < j < |names| ==> names[i] != names[j]
  }

  ghost predicate Enumerates(order: Order) {
    forall l :: Lists(order(l), l.collections.Keys)
  }

  function RowValue(row: Json): Option<Fields> {
    if row.Obj? then Some(row.fields) else None
  }

  /** Nothing is in the way of restoring one submitted field. */
  predicate FieldPasses(l: Layout, m: Fields, c: Fields, n: string) {
    Guarded(l, n) && n in m ==> n in c && AcceptableRows(l.collections[n], m[n], c[n])
  }

  /** Fields are written into a null row before anything is rejected. */
  ghost predicate Panics(order: Order, l: Layout, m: Option<Fields>, c: Fields)
    decreases l, 1
  {
    && NoSecrets(l, c)
    && if m.None? then c != map[]
       else exists k :: 0 <= k < |order(l)| && PanicsAt(order, l, m.value, c, k)
  }

  ghost predicate PanicsAt(order: Order, l: Layout, m: Fields, c: Fields, k: nat)
    requires k < |order(l)|
    decreases l, 0
  {
    var n := order(l)[k];
    && (forall j :: 0 <= j < k ==> FieldPasses(l, m, c, order(l)[j]))
    && Guarded(l, n) && n in m && n in c && PanicsInRows(order, l.collections[n], m[n], c[n])
  }

  ghost predicate PanicsInRows(order: Order, l: Layout, mj: Json, cj: Json)
    decreases l, 3
  {
    && Rows(mj).Some? && Rows(cj).Some? && |Rows(mj).value| == |Rows(cj).value|
    && exists i :: 0 <= i < |Rows(mj).value| && PanicsAtRow(order, l, Rows(mj).value, Rows(cj).value, i)
  }

  ghost predicate PanicsAtRow(order: Order, l: Layout, mrows: seq<Json>, crows: seq<Json>, i: nat)
    requires i < |mrows| == |crows|
    decreases l, 2
  {
    && (forall j :: 0 <= j < i ==> AcceptableRow(l, mrows[j], crows[j]))
    && IdOf(mrows[i]) == IdOf(crows[i]) && Panics(order, l, RowValue(mrows[i]), RowFields(crows[i]))
  }

  /** What panics does not restore. */
  lemma {:induction false} PanicFails(order: Order, l: Layout, m: Option<Fields>, c: Fields)
    requires HasSecrets(l) && Panics(order, l, m, c)
    ensures m.None? ==> c != map[]
    ensures m.Some? ==> !Acceptable(l, m.value, c)
    decreases l, 0
  {
    if m.Some? {
      var k :| 0 <= k < |order(l)| && PanicsAt(order, l, m.value, c, k);
      var n := order(l)[k];
      PanicFailsInRows(order, l.collections[n], m.value[n], c[n]);
    }
  }

  lemma {:induction false} PanicFailsInRows(order: Order, l: Layout, mj: Json, cj: Json)
    requires HasSecrets(l) && PanicsInRows(order, l, mj, cj)
    ensures !AcceptableRows(l, mj, cj)
    decreases l, 1
  {
    var mrows, crows := Rows(mj).value, Rows(cj).value;
    var i :| 0 <= i < |mrows| && PanicsAtRow(order, l, mrows, crows, i);
    PanicFails(order, l, RowValue(mrows[i]), RowFields(crows[i]));
    assert !AcceptableRow(l, mrows[i], crows[i]);
  }

  lemma PanicField(order: Order, l: Layout, m: Fields, c: Fields) returns (i: nat)
    requires HasSecrets(l) && Panics(order, l, Some(m), c)
    ensures i < |order(l)| && PanicsAt(order, l, m, c, i) && !FieldPasses(l, m, c, order(l)[i])
  {
    i :| 0 <= i < |order(l)| && PanicsAt(order, l, m, c, i);
    var n := order(l)[i];
    PanicFailsInRows(order, l.collections[n], m[n], c[n]);
  }

  lemma PanicRow(order: Order, l: Layout, mj: Json, cj: Json) returns (i: nat)
    requires HasSecrets(l) && PanicsInRows(order, l, mj, cj)
    ensures i < |Rows(mj).value| && PanicsAtRow(order, l, Rows(mj).value, Rows(cj).value, i)
    ensures !AcceptableRow(l, Rows(mj).value[i], Rows(cj).value[i])
  {
    i :| 0 <= i < |Rows(mj).value| && PanicsAtRow(order, l, Rows(mj).value, Rows(cj).value, i);
    PanicFails(order, l, RowValue(Rows(mj).value[i]), RowFields(Rows(cj).value[i]));
  }

  /** The first field that does not pass decides whether restoring panics. */
  lemma FirstFieldDecides(order: Order, l: Layout, m: Fields, c: Fields, k: nat)
    requires HasSecrets(l) && NoSecrets(l, c) && Enumerates(order)
    requires k < |order(l)| && !FieldPasses(l, m, c, order(l)[k])
    requires forall j :: 0 <= j < k ==> FieldPasses(l, m, c, order(l)[j])
    ensures !Acceptable(l, m, c)
    ensures Panics(order, l, Some(m), c) <==> PanicsAt(order, l, m, c, k)
  {
    if Panics(order, l, Some(m), c) {
      var i := PanicField(order, l, m, c);
      assert !FieldPasses(l, m, c, order(l)[i]);
    }
  }

  lemma AllFieldsPass(order: Order, l: Layout, m: Fields, c: Fields)
    requires HasSecrets(l) && NoSecrets(l, c) && Enumerates(order)
    requires forall k :: 0 <= k < |order(l)| ==> FieldPasses(l, m, c, order(l)[k])
    ensures Acceptable(l, m, c) && !Panics(order, l, Some(m), c)
  {
    assert Lists(order(l), l.collections.Keys);
    forall n | n in m && Guarded(l, n) ensures FieldPasses(l, m, c, n) {
      assert n in order(l);
    }
    if Panics(order, l, Some(m), c) { PanicFails(order, l, Some(m), c); }
  }

  lemma FirstRowDecides(order: Order, l: Layout, mj: Json, cj: Json, i: nat)
    requires HasSecrets(l) && Rows(mj).Some? && Rows(cj).Some? && i < |Rows(mj).value| == |Rows(cj).value|
    requires !AcceptableRow(l, Rows(mj).value[i], Rows(cj).value[i])
    requires forall j :: 0 <= j < i ==> AcceptableRow(l, Rows(mj).value[j], Rows(cj).value[j])
    ensures !AcceptableRows(l, mj, cj)
    ensures PanicsInRows(order, l, mj, cj) <==> PanicsAtRow(order, l, Rows(mj).value, Rows(cj).value, i)
  {
    if PanicsInRows(order, l, mj, cj) {
      var k := PanicRow(order, l, mj, cj);
      assert !AcceptableRow(l, Rows(mj).value[k], Rows(cj).value[k]);
    }
  }

  lemma AllRowsPass(order: Order, l: Layout, mj: Json, cj: Json)
    requires HasSecrets(l) && Rows(mj).Some? && Rows(cj).Some? && |Rows(mj).value| == |Rows(cj).value|
    requires forall i :: 0 <= i < |Rows(mj).value| ==> AcceptableRow(l, Rows(mj).value[i], Rows(cj).value[i])
    ensures AcceptableRows(l, mj, cj) && !PanicsInRows(order, l, mj, cj)
  {
    if PanicsInRows(order, l, mj, cj) { PanicFailsInRows(order, l, mj, cj); }
  }

  // ----- Running Hooks

  datatype Event = BeforeValidate | Validate | BeforeCreate | AfterCreate | BeforeUpdate | AfterUpdate | BeforeDelete | AfterDelete

  predicate MutatesInput(e: Event) {
    e.BeforeValidate? || e.BeforeCreate? || e.BeforeUpdate?
  }

  /** A Hook edits the input it is handed, or fails. */
  type Hook = Fields -> Option<Fields>

  /** Hooks of a mutating event share one input; the others each get a copy that is thrown away. */
  function AfterHooks(hooks: seq<Hook>, e: Event, m: Fields): Option<Fields> {
    if hooks == [] then Some(m)
    else
      var before := AfterHooks(hooks[..|hooks| - 1], e, m);
      if before.None? then None
      else
        var after := hooks[|hooks| - 1](before.value);
        if after.None? then None else if MutatesInput(e) then after else before
  }

  /** Each Hook gets what the one before it left. */
  function Chained(hooks: seq<Hook>, m: Fields): Option<Fields> {
    if hooks == [] then Some(m)
    else
      var before := Chained(hooks[..|hooks| - 1], m);
      if before.None? then None else hooks[|hooks| - 1](before.value)
  }

  /**
    Before validating, creating and updating, Hooks hand the input on; at every other
    event each gets the same one, and what it does to it is lost.
   */
  lemma {:induction false} AfterHooksExact(hooks: seq<Hook>, e: Event, m: Fields)
    ensures e in {BeforeValidate, BeforeCreate, BeforeUpdate} ==> AfterHooks(hooks, e, m) == Chained(hooks, m)
    ensures e in {Validate, AfterCreate, AfterUpdate, BeforeDelete, AfterDelete} ==>
      AfterHooks(hooks, e, m) == if forall i :: 0 <= i < |hooks| ==> hooks[i](m).Some? then Some(m) else None
  {
    if hooks != [] {
      var front := hooks[..|hooks| - 1];
      AfterHooksExact(front, e, m);
      assert forall i :: 0 <= i < |front| ==> front[i] == hooks[i];
    }
  }

  /** An input that several parties hold. */
  class RecordInput {
    var fields: Fields

    constructor (fields: Fields)
      ensures this.fields == fields
    {
      this.fields := fields;
    }
  }

  datatype Outcome = Done | Rejected | Panicked

  /** The input for Hooks: the submitted one itself when nothing is secret, else a cleaned copy. */
  method HiddenHookInput(l: Layout, original: RecordInput) returns (clean: Option<RecordInput>)
    requires Sane(l)
    ensures clean.None? <==> !Hideable(l, original.fields)
    ensures clean.Some? && !HasSecrets(l) ==> clean.value == original
    ensures clean.Some? && HasSecrets(l) ==> fresh(clean.value) && clean.value.fields == Hide(l, original.fields)
  {
    if !HasSecrets(l) { return Some(original); }
    var copy := new RecordInput(original.fields);
    copy.fields := copy.fields - l.secrets;
    ghost var m := original.fields;
    var names := original.fields.Keys * l.collections.Keys;
    while names != {}
      invariant names <= m.Keys * l.collections.Keys && m == original.fields
      invariant HiddenExcept(l, m, copy.fields, names)
      decreases names
    {
      var n :| n in names;
      if HasSecrets(l.collections[n]) {
        if !HideableRows(l.collections[n], original.fields[n]) {
          return None;
        }
        copy.fields := copy.fields[n := HideRows(l.collections[n], original.fields[n])];
      }
      names := names - {n};
    }
    AllHidden(l, m, copy.fields);
    return Some(copy);
  }

  /** The names still to be looked at hold what was submitted; the others what Hooks may see. */
  ghost predicate HiddenExcept(l: Layout, m: Fields, h: Fields, names: set<string>) {
    && h.Keys == m.Keys - l.secrets
    && forall n :: n in h ==>
         if Guarded(l, n) && n !in names
         then HideableRows(l.collections[n], m[n]) && h[n] == HideRows(l.collections[n], m[n])
         else h[n] == m[n]
  }

  lemma AllHidden(l: Layout, m: Fields, h: Fields)
    requires Sane(l) && HasSecrets(l) && HiddenExcept(l, m, h, {})
    ensures Hideable(l, m) && h == Hide(l, m)
  {
    forall n | n in m && Guarded(l, n) ensures HideableRows(l.collections[n], m[n]) {
      assert n in h;
    }
  }

  /**
    Puts the secrets back: the rows of one guarded collection after the other, then
    the visible fields of the input itself. A row submitted as null is null here too.
   */
  method Restore(order: Order, l: Layout, original: RecordInput?, clean: RecordInput) returns (r: Outcome)
    requires HasSecrets(l) && Enumerates(order) && original != clean
    requires original != null ==> Hideable(l, original.fields)
    modifies original, clean
    ensures original != null ==>
      && (r.Done? <==> Acceptable(l, old(original.fields), old(clean.fields)))
      && (r.Panicked? <==> Panics(order, l, Some(old(original.fields)), old(clean.fields)))
      && original.fields ==
           if r.Done? then Merge(l, old(original.fields), old(clean.fields)) else old(original.fields)
    ensures original == null ==>
      && (r.Done? <==> old(clean.fields) == map[])
      && (r.Panicked? <==> Panics(order, l, None, old(clean.fields)))
    decreases l, 0
  {
    if !NoSecrets(l, clean.fields) { return Rejected; }
    if original != null {
      r := RestoreCollections(order, l, original.fields, clean);
      if !r.Done? { return r; }
      MergedInPlace(l, original.fields, old(clean.fields), clean.fields);
      original.fields := map n | n in original.fields && n in l.secrets :: original.fields[n];
    }
    var written := WriteFields(original, clean.fields);
    return if written then Done else Panicked;
  }

  /** Writes fields into an input one by one; there is nowhere to write them to in a null one. */
  method WriteFields(original: RecordInput?, fields: Fields) returns (ok: bool)
    modifies original
    ensures original != null ==> ok && original.fields == old(original.fields) + fields
    ensures original == null ==> (ok <==> fields == map[])
  {
    var names := fields.Keys;
    while names != {}
      invariant names <= fields.Keys
      invariant original == null ==> names == fields.Keys
      invariant original != null ==> original.fields == old(original.fields) + (fields - names)
      decreases names
    {
      assert (forall x :: x !in names) ==> names == {};
      var n :| n in names;
      if original == null { return false; }
      original.fields, names := original.fields[n := fields[n]], names - {n};
    }
    return true;
  }

  lemma MergedInPlace(l: Layout, m: Fields, c: Fields, h: Fields)
    requires HasSecrets(l) && Acceptable(l, m, c) && MergedExcept(l, m, c, h, {})
    ensures (map n | n in m && n in l.secrets :: m[n]) + h == Merge(l, m, c)
  {
    var kept := map n | n in m && n in l.secrets :: m[n];
    assert (kept + h).Keys == Merge(l, m, c).Keys;
  }

  method RestoreCollections(order: Order, l: Layout, m: Fields, clean: RecordInput) returns (r: Outcome)
    requires HasSecrets(l) && Enumerates(order) && Hideable(l, m) && NoSecrets(l, clean.fields)
    modifies clean
    ensures r.Done? <==> Acceptable(l, m, old(clean.fields))
    ensures r.Panicked? <==> Panics(order, l, Some(m), old(clean.fields))
    ensures r.Done? ==> MergedExcept(l, m, old(clean.fields), clean.fields, {})
    decreases l, 0, 0
  {
    var names := order(l);
    assert Lists(names, l.collections.Keys);
    ghost var c, rest := clean.fields, l.collections.Keys;
    for k := 0 to |names|
      invariant forall j :: 0 <= j < k ==> FieldPasses(l, m, c, names[j])
      invariant rest == l.collections.Keys - set j | 0 <= j < k :: names[j]
      invariant MergedExcept(l, m, c, clean.fields, rest)
    {
      var n := names[k];
      if HasSecrets(l.collections[n]) && n in m {
        if n !in clean.fields {
          FirstFieldDecides(order, l, m, c, k);
          return Rejected;
        }
        var restored;
        r, restored := RestoreRows(order, l.collections[n], m[n], clean.fields[n]);
        if !r.Done? {
          FirstFieldDecides(order, l, m, c, k);
          return r;
        }
        clean.fields := clean.fields[n := restored];
      }
      rest := rest - {n};
    }
    AllFieldsPass(order, l, m, c);
    return Done;
  }

  /** The names still to be looked at hold what Hooks left; the others what is stored. */
  ghost predicate MergedExcept(l: Layout, m: Fields, c: Fields, h: Fields, names: set<string>) {
    && h.Keys == c.Keys
    && forall n :: n in c ==>
         if Guarded(l, n) && n in m && n !in names
         then AcceptableRows(l.collections[n], m[n], c[n]) && h[n] == MergeRows(l.collections[n], m[n], c[n])
         else h[n] == c[n]
  }

  method RestoreRows(order: Order, l: Layout, submitted: Json, edited: Json) returns (r: Outcome, restored: Json)
    requires HasSecrets(l) && Enumerates(order) && HideableRows(l, submitted)
    ensures r.Done? <==> AcceptableRows(l, submitted, edited)
    ensures r.Panicked? <==> PanicsInRows(order, l, submitted, edited)
    ensures r.Done? ==> restored == MergeRows(l, submitted, edited)
    decreases l, 1
  {
    if Rows(edited).None? || |Rows(edited).value| != |Rows(submitted).value| { return Rejected, edited; }
    var rows, next := Rows(submitted).value, Rows(edited).value;
    ghost var was := rows;
    for i := 0 to |next|
      invariant |rows| == |was|
      invariant forall j :: 0 <= j < i ==> AcceptableRow(l, was[j], next[j]) && rows[j] == MergedRow(l, was[j], next[j])
      invariant forall j :: i <= j < |was| ==> rows[j] == was[j]
    {
      if IdOf(rows[i]) != IdOf(next[i]) {
        FirstRowDecides(order, l, submitted, edited, i);
        return Rejected, edited;
      }
      var row: RecordInput? := null;
      if rows[i].Obj? { row := new RecordInput(rows[i].fields); }
      var cleaned := new RecordInput(RowFields(next[i]));
      r := Restore(order, l, row, cleaned);
      if !r.Done? {
        FirstRowDecides(order, l, submitted, edited, i);
        return r, edited;
      }
      if row != null { rows := rows[i := Obj(row.fields)]; }
    }
    AllRowsPass(order, l, submitted, edited);
    return Done, if submitted.Null? then Null else Arr(rows);
  }

  /** Runs Hooks one after the other on an input they share, or on copies. */
  method Run(hooks: seq<Hook>, e: Event, input: RecordInput) returns (ok: bool)
    modifies input
    ensures ok <==> AfterHooks(hooks, e, old(input.fields)).Some?
    ensures ok ==> input.fields == AfterHooks(hooks, e, old(input.fields)).value
    ensures !MutatesInput(e) ==> input.fields == old(input.fields)
    ensures e in {BeforeValidate, BeforeCreate, BeforeUpdate} ==>
      ok == Chained(hooks, old(input.fields)).Some? && (ok ==> Some(input.fields) == Chained(hooks, old(input.fields)))
    ensures e !in {BeforeValidate, BeforeCreate, BeforeUpdate} ==>
      && (ok <==> forall i :: 0 <= i < |hooks| ==> hooks[i](old(input.fields)).Some?)
      && input.fields == old(input.fields)
  {
    AfterHooksExact(hooks, e, input.fields);
    for i := 0 to |hooks|
      invariant AfterHooks(hooks[..i], e, old(input.fields)) == Some(input.fields)
      invariant !MutatesInput(e) ==> input.fields == old(input.fields)
    {
      assert hooks[..i + 1][..i] == hooks[..i];
      var given := input;
      if !MutatesInput(e) { given := new RecordInput(input.fields); }
      var after := hooks[i](given.fields);
      if after.None? {
        HooksStayFailed(hooks, i + 1, e, old(input.fields));
        return false;
      }
      given.fields := after.value;
    }
    assert hooks[..|hooks|] == hooks;
    return true;
  }

  lemma {:induction false} HooksStayFailed(hooks: seq<Hook>, i: nat, e: Event, m: Fields)
    requires i <= |hooks| && AfterHooks(hooks[..i], e, m).None?
    ensures AfterHooks(hooks, e, m).None?
    decreases |hooks| - i
  {
    if i < |hooks| {
      assert hooks[..i + 1][..i] == hooks[..i];
      HooksStayFailed(hooks, i + 1, e, m);
    } else {
      assert hooks[..i] == hooks;
    }
  }

  /** Hooks could be run on what they may see of the input, and none failed. */
  predicate HooksRan(l: Layout, hooks: seq<Hook>, e: Event, m: Fields) {
    Hideable(l, m) && AfterHooks(hooks, e, Hide(l, m)).Some?
  }

  function LeftByHooks(l: Layout, hooks: seq<Hook>, e: Event, m: Fields): Fields
    requires HooksRan(l, hooks, e, m)
  {
    AfterHooks(hooks, e, Hide(l, m)).value
  }

  /**
    Hooks around a record operation. A layout with secrets gets its input back
    merged, or untouched when anything fails; one without hands its input to the
    Hooks themselves.
   */
  method RunRecordHooks(order: Order, l: Layout, input: RecordInput, hooks: seq<Hook>, e: Event) returns (r: Outcome)
    requires Sane(l) && Enumerates(order)
    modifies input
    ensures HasSecrets(l) ==>
      var m := old(input.fields);
      && (r.Done? <==> HooksRan(l, hooks, e, m) && Acceptable(l, m, LeftByHooks(l, hooks, e, m)))
      && (r.Panicked? <==> HooksRan(l, hooks, e, m) && Panics(order, l, Some(m), LeftByHooks(l, hooks, e, m)))
      && input.fields == if r.Done? then Merge(l, m, LeftByHooks(l, hooks, e, m)) else m
    ensures !HasSecrets(l) ==>
      && (r.Done? <==> AfterHooks(hooks, e, old(input.fields)).Some?) && !r.Panicked?
      && (r.Done? ==> Some(input.fields) == AfterHooks(hooks, e, old(input.fields)))
    ensures !MutatesInput(e) ==> input.fields == old(input.fields)
  {
    var clean := HiddenHookInput(l, input);
    if clean.None? { return Rejected; }
    var ok := Run(hooks, e, clean.value);
    if !ok { return Rejected; }
    if !HasSecrets(l) { return Done; }
    r := Restore(order, l, input, clean.value);
    if !MutatesInput(e) { UnchangedRestores(l, old(input.fields)); }
  }

  // ----- A row submitted as null

  /** A Hook that fills in a field of a row submitted as null makes restoring panic. */
  method NullRowPanics(order: Order, n: string, row: Layout, field: string, value: Json) returns (r: Outcome)
    requires Enumerates(order)
    requires row.secrets != {} && row.collections == map[] && field !in row.secrets && field != "id" && n != "id"
    requires "id" !in row.secrets
    ensures r.Panicked?
  {
    var l := Layout({}, map[n := row]);
    var input := new RecordInput(map[n := Arr([Null])]);
    var hook: Hook := f => Some(f[n := Arr([Obj(map[field := value])])]);
    NullRowIsFilled(order, n, row, field, value);
    assert Guarded(l, n);
    ghost var h := Hide(l, input.fields);
    assert AfterHooks([hook][..0], BeforeCreate, h) == Some(h);
    assert h.Keys == {n};
    assert h[n := Arr([Obj(map[field := value])])] == map[n := Arr([Obj(map[field := value])])];
    r := RunRecordHooks(order, l, input, [hook], BeforeCreate);
  }

  lemma NullRowIsFilled(order: Order, n: string, row: Layout, field: string, value: Json)
    requires Enumerates(order) && row.secrets != {} && row.collections == map[] && field !in row.secrets && field != "id"
    ensures var l, m, c := Layout({}, map[n := row]), map[n := Arr([Null])], map[n := Arr([Obj(map[field := value])])];
      HasSecrets(l) && Hideable(l, m) && Panics(order, l, Some(m), c)
  {
    var l, m, c := Layout({}, map[n := row]), map[n := Arr([Null])], map[n := Arr([Obj(map[field := value])])];
    FilledRow(order, row, field, value);
    assert Guarded(l, n) && l.collections[n] == row;
    assert l.collections.Keys == {n};
    assert Lists(order(l), {n}) && n in order(l);
    assert order(l)[0] in order(l) && order(l)[0] in {n};
    assert PanicsAt(order, l, m, c, 0);
  }

  lemma FilledRow(order: Order, row: Layout, field: string, value: Json)
    requires row.secrets != {} && row.collections == map[] && field !in row.secrets && field != "id"
    ensures HideableRows(row, Arr([Null])) && NoSecretRows(row, Arr([Obj(map[field := value])]))
    ensures PanicsInRows(order, row, Arr([Null]), Arr([Obj(map[field := value])]))
  {
    var a, b := Arr([Null]), Arr([Obj(map[field := value])]);
    assert Rows(a) == Some([Null]) && Rows(b) == Some([Obj(map[field := value])]);
    assert field in map[field := value];
    assert Panics(order, row, None, map[field := value]);
    assert PanicsAtRow(order, row, [Null], [Obj(map[field := value])], 0);
  }

  /** When another collection is rejected as well, the order of the two decides whether restoring panics. */
  lemma OrderDecides(order: Order, a: string, b: string, row: Layout, field: string, value: Json)
    requires Enumerates(order) && a != b
    requires row.secrets != {} && row.collections == map[] && field !in row.secrets && field != "id"
    ensures var l, m, c := Layout({}, map[a := row, b := row]), map[a := Arr([Null]), b := Null],
                           map[a := Arr([Obj(map[field := value])]), b := Arr([Null])];
      !Acceptable(l, m, c) && |order(l)| > 0 && (Panics(order, l, Some(m), c) <==> order(l)[0] == a)
  {
    var l, m, c := Layout({}, map[a := row, b := row]), map[a := Arr([Null]), b := Null],
                   map[a := Arr([Obj(map[field := value])]), b := Arr([Null])];
    FilledRow(order, row, field, value);
    assert Guarded(l, a) && Guarded(l, b);
    assert Rows(m[b]) == Some([]) && Rows(c[b]) == Some([Null]);
    assert l.collections.Keys == {a, b};
    assert Lists(order(l), {a, b}) && a in order(l);
    assert order(l)[0] in order(l) && order(l)[0] in {a, b};
    assert NoSecretRows(row, c[b]);
    if order(l)[0] == a {
      assert PanicsAt(order, l, m, c, 0);
    } else {
      FirstFieldDecides(order, l, m, c, 0);
    }
  }
}
