/**
  Rows that a Record owns: submitted as a list, stored with ordinals, loaded back
  in the submitted order.
 */
module Collections {
  import opened Wrappers

  datatype Value = Null | Text(s: string)

  type Fields = map<string, Value>

  /** What a row belongs to: an Entity, one of its Records, and the field of that Record. */
  datatype Owner = Owner(entity: int, record: int, field: int)

  datatype StoredRow = StoredRow(owner: Owner, ordinal: int, fields: Fields)

  type Rows = map<int, StoredRow>

  // ----- What is submitted

  const MAX_ROWS := 500

  const SYSTEM_INPUTS: set<string> :=
    {"name", "created-at", "updated-at", "owner", "created_at", "updated_at", "parent-entity-id", "parent_entity_id",
     "parent-record-id", "parent_record_id", "parent-field-id", "parent_field_id", "ordinal"}

  datatype RawId = NoId | NullId | NotAnInteger | Given(id: int)

  datatype RawRow = NullRow | RawRow(id: RawId, fields: Fields)

  /** One submitted row; id 0 asks for a new one. */
  datatype Submitted = Submitted(id: int, ordinal: int, input: Fields)

  datatype Error = TooManyRows | RowRequired | NotAnObject(row: nat) | IdOnCreate | InvalidId | DuplicateId(id: int)
                 | NotOwned(id: int) | Refused(row: nat)

  function WithoutSystem(fields: Fields): Fields {
    map n | n in fields && n !in SYSTEM_INPUTS :: fields[n]
  }

  predicate RowAccepted(row: RawRow, allowIds: bool) {
    row.RawRow? && (row.id.NoId? || row.id.NullId? || (allowIds && row.id.Given? && row.id.id > 0))
  }

  function SubmittedId(row: RawRow): int {
    if row.RawRow? && row.id.Given? then row.id.id else 0
  }

  predicate DistinctIds(rows: seq<Submitted>) {
    forall i, j :: 0 <= i < j < |rows| && rows[i].id != 0 ==> rows[i].id != rows[j].id
  }

  /** A well-formed submission: ordinals count from 1, ids are positive and distinct. */
  predicate WellFormed(rows: seq<Submitted>) {
    DistinctIds(rows) && forall i :: 0 <= i < |rows| ==> rows[i].ordinal == i + 1 && rows[i].id >= 0
  }

  /** What a row is read as at a position of the list. */
  function ReadRow(row: RawRow, position: nat): Submitted {
    Submitted(SubmittedId(row), position + 1, if row.RawRow? then WithoutSystem(row.fields) else map[])
  }

  /** A submission sets neither the name, the owner nor the place of a row: of its fields those are left out, and only those. */
  lemma SystemInputsLeftOut(row: RawRow, position: nat, f: string)
    requires row.RawRow?
    ensures f in ReadRow(row, position).input <==>
      && f in row.fields && f !in {"name", "owner", "created-at", "created_at", "updated-at", "updated_at"}
      && f !in {"parent-entity-id", "parent_entity_id", "parent-record-id", "parent_record_id"}
      && f !in {"parent-field-id", "parent_field_id", "ordinal"}
    ensures f in ReadRow(row, position).input ==> ReadRow(row, position).input[f] == row.fields[f]
    ensures ReadRow(row, position).ordinal == position + 1
    ensures ReadRow(row, position).id == if row.id.Given? then row.id.id else 0
  {
  }

  predicate SubmittedAs(payload: seq<RawRow>, rows: seq<Submitted>) {
    && |rows| == |payload|
    && forall i :: 0 <= i < |rows| ==> payload[i].RawRow? && rows[i] == ReadRow(payload[i], i)
  }

  /** Every rule on the rows and the ids of a submission. */
  predicate PayloadAccepted(payload: seq<RawRow>, required: bool, allowIds: bool) {
    && |payload| <= MAX_ROWS && (required ==> payload != [])
    && (forall i :: 0 <= i < |payload| ==> RowAccepted(payload[i], allowIds))
    && (forall i, j :: 0 <= i < j < |payload| && SubmittedId(payload[i]) != 0 ==>
          SubmittedId(payload[i]) != SubmittedId(payload[j]))
  }

  /**
    In the submitter's terms: at most 500 rows, some if the field is required; none of
    them null; an id left out or null, or, where ids may be given, a positive number;
    and no number given twice.
   */
  lemma AcceptedIff(payload: seq<RawRow>, required: bool, allowIds: bool)
    ensures PayloadAccepted(payload, required, allowIds) <==>
      && |payload| <= 500 && !(required && |payload| == 0)
      && (forall i :: 0 <= i < |payload| ==> payload[i] != NullRow && payload[i].id != NotAnInteger)
      && (forall i :: 0 <= i < |payload| && payload[i].id.Given? ==> allowIds && payload[i].id.id > 0)
      && (forall i, j :: 0 <= i < j < |payload| && payload[i].id.Given? && payload[j].id.Given? ==>
            payload[i].id.id != payload[j].id.id)
  {
    if PayloadAccepted(payload, required, allowIds) {
      forall i | 0 <= i < |payload| ensures payload[i] != NullRow && payload[i].id != NotAnInteger {
        assert RowAccepted(payload[i], allowIds);
      }
      forall i | 0 <= i < |payload| && payload[i].id.Given? ensures allowIds && payload[i].id.id > 0 {
        assert RowAccepted(payload[i], allowIds);
      }
    }
  }

  method CheckId(row: RawRow, allowIds: bool, seen: set<int>) returns (e: Option<Error>)
    requires row.RawRow? && 0 !in seen
    ensures e.None? <==> RowAccepted(row, allowIds) && SubmittedId(row) !in seen
    ensures e.Some? ==> e.value == IdOnCreate || e.value == InvalidId || e.value == DuplicateId(SubmittedId(row))
  {
    if row.id.Given? || row.id.NotAnInteger? {
      if !allowIds { return Some(IdOnCreate); }
      if row.id.NotAnInteger? || row.id.id <= 0 { return Some(InvalidId); }
      if row.id.id in seen { return Some(DuplicateId(row.id.id)); }
    }
    return None;
  }

  /** The first rows are read, every rule holds of them, and their ids are the ones seen. */
  ghost predicate ReadSoFar(payload: seq<RawRow>, i: nat, rows: seq<Submitted>, seen: set<int>, allowIds: bool)
    requires i <= |payload|
  {
    && SubmittedAs(payload[..i], rows) && WellFormed(rows)
    && (forall k :: 0 <= k < i ==> RowAccepted(payload[k], allowIds))
    && (forall k :: 0 <= k < i && SubmittedId(payload[k]) != 0 ==> SubmittedId(payload[k]) in seen)
    && (forall id :: id in seen ==> id != 0 && exists k :: 0 <= k < i && SubmittedId(payload[k]) == id)
    && (forall j, k :: 0 <= j < k < i && SubmittedId(payload[j]) != 0 ==> SubmittedId(payload[j]) != SubmittedId(payload[k]))
  }

  lemma ReadOneMore(payload: seq<RawRow>, i: nat, rows: seq<Submitted>, seen: set<int>, allowIds: bool)
    requires i < |payload| && ReadSoFar(payload, i, rows, seen, allowIds)
    requires RowAccepted(payload[i], allowIds) && SubmittedId(payload[i]) !in seen
    ensures var id := SubmittedId(payload[i]);
      ReadSoFar(payload, i + 1, rows + [ReadRow(payload[i], i)], seen + if id != 0 then {id} else {}, allowIds)
  {
    var id, more := SubmittedId(payload[i]), rows + [ReadRow(payload[i], i)];
    assert payload[..i + 1] == payload[..i] + [payload[i]];
    forall k | 0 <= k < i && more[k].id != 0 ensures more[k].id != id {
      assert more[k] == ReadRow(payload[..i][k], k) && SubmittedId(payload[k]) in seen;
    }
  }

  lemma RefusedRow(payload: seq<RawRow>, i: nat, rows: seq<Submitted>, seen: set<int>, required: bool, allowIds: bool)
    requires i < |payload| && ReadSoFar(payload, i, rows, seen, allowIds)
    requires !RowAccepted(payload[i], allowIds) || SubmittedId(payload[i]) in seen
    ensures !PayloadAccepted(payload, required, allowIds)
  {
    if SubmittedId(payload[i]) in seen {
      var k :| 0 <= k < i && SubmittedId(payload[k]) == SubmittedId(payload[i]);
    }
  }

  /** Reads a submission, or says what is wrong with it. */
  method CollectionRowInputs(payload: seq<RawRow>, required: bool, allowIds: bool) returns (r: Result<seq<Submitted>, Error>)
    ensures r.Ok? <==> PayloadAccepted(payload, required, allowIds)
    ensures r.Ok? ==> SubmittedAs(payload, r.value) && WellFormed(r.value)
    ensures r.Ok? && !allowIds ==> forall i :: 0 <= i < |r.value| ==> r.value[i].id == 0
    ensures |payload| > 500 <==> r == Err(TooManyRows)
  {
    if |payload| > MAX_ROWS { return Err(TooManyRows); }
    if required && payload == [] { return Err(RowRequired); }
    var rows: seq<Submitted> := [];
    var seen: set<int> := {};
    for i := 0 to |payload|
      invariant ReadSoFar(payload, i, rows, seen, allowIds) && 0 !in seen
    {
      var row := payload[i];
      if row.NullRow? {
        RefusedRow(payload, i, rows, seen, required, allowIds);
        return Err(NotAnObject(i + 1));
      }
      var problem := CheckId(row, allowIds, seen);
      if problem.Some? {
        RefusedRow(payload, i, rows, seen, required, allowIds);
        return Err(problem.value);
      }
      ReadOneMore(payload, i, rows, seen, allowIds);
      rows := rows + [ReadRow(row, i)];
      seen := seen + if SubmittedId(row) != 0 then {SubmittedId(row)} else {};
    }
    assert payload[..|payload|] == payload;
    return Ok(rows);
  }

  // ----- The stored rows

  function Owned(rows: Rows, owner: Owner): set<int> {
    set id | id in rows && rows[id].owner == owner
  }

  /** The unique constraint on ordinals, as it stands when the transaction commits. */
  predicate UniqueOrdinals(rows: Rows) {
    forall a, b :: a in rows && b in rows && a != b && rows[a].owner == rows[b].owner ==> rows[a].ordinal != rows[b].ordinal
  }

  /** The fields a submitted row starts from: those stored under its id, or none. */
  function Base(before: Rows, id: int): Fields {
    if id in before then before[id].fields else map[]
  }

  /** The owner's rows are exactly the submitted ones, under these ids. */
  ghost predicate SavedAs(before: Rows, after: Rows, owner: Owner, rows: seq<Submitted>, ids: seq<int>) {
    && |ids| == |rows|
    && (forall i, j :: 0 <= i < j < |ids| ==> ids[i] != ids[j])
    && (forall i :: 0 <= i < |ids| ==>
          && (if rows[i].id > 0 then ids[i] == rows[i].id else ids[i] !in before)
          && ids[i] in after
          && after[ids[i]] == StoredRow(owner, rows[i].ordinal, Base(before, ids[i]) + rows[i].input))
    && (forall id :: id in Owned(after, owner) ==> id in ids)
  }

  ghost predicate OthersKept(before: Rows, after: Rows, owners: set<Owner>) {
    && (forall id :: id in before && before[id].owner !in owners ==> id in after && after[id] == before[id])
    && (forall id :: id in after && after[id].owner !in owners ==> id in before && before[id] == after[id])
  }

  class Table {
    var rows: Rows
    var next: int

    /** Ids come from a sequence that is ahead of all of them. */
    ghost predicate Valid()
      reads this
    {
      next >= 1 && forall id :: id in rows ==> 0 < id < next
    }

    method DeleteRow(owner: Owner, id: int) returns (ok: bool)
      modifies this`rows
      ensures ok <==> id in Owned(old(rows), owner)
      ensures rows == if ok then old(rows) - {id} else old(rows)
    {
      ok := id in rows && rows[id].owner == owner;
      if ok { rows := rows - {id}; }
    }

    method InsertRow(owner: Owner, row: Submitted) returns (id: int)
      requires Valid()
      modifies this
      ensures Valid() && id == old(next) && next == old(next) + 1
      ensures rows == old(rows)[id := StoredRow(owner, row.ordinal, row.input)]
    {
      id := next;
      rows, next := rows[id := StoredRow(owner, row.ordinal, row.input)], next + 1;
    }

    method UpdateRow(owner: Owner, row: Submitted) returns (ok: bool)
      modifies this`rows
      ensures ok <==> row.id in Owned(old(rows), owner)
      ensures rows == if ok
        then old(rows)[row.id := StoredRow(owner, row.ordinal, old(rows)[row.id].fields + row.input)] else old(rows)
    {
      ok := row.id in rows && rows[row.id].owner == owner;
      if ok { rows := rows[row.id := StoredRow(owner, row.ordinal, rows[row.id].fields + row.input)]; }
    }

    /** Checks that every submitted id is one of the owner's. */
    method CheckOwned(submitted: seq<Submitted>, existing: set<int>, create: bool) returns (e: Option<Error>, kept: set<int>)
      requires WellFormed(submitted)
      ensures e.None? <==> forall i :: 0 <= i < |submitted| && submitted[i].id != 0 ==> !create && submitted[i].id in existing
      ensures e.None? ==> kept == set i | 0 <= i < |submitted| && submitted[i].id != 0 :: submitted[i].id
    {
      kept := {};
      for i := 0 to |submitted|
        invariant forall k :: 0 <= k < i && submitted[k].id != 0 ==> !create && submitted[k].id in existing
        invariant kept == set k | 0 <= k < i && submitted[k].id != 0 :: submitted[k].id
      {
        if submitted[i].id != 0 {
          if create { return Some(IdOnCreate), {}; }
          if submitted[i].id !in existing { return Some(NotOwned(submitted[i].id)), {}; }
          kept := kept + {submitted[i].id};
        }
      }
      return None, kept;
    }

    method DeleteOmitted(owner: Owner, omitted: set<int>)
      requires Valid() && omitted <= Owned(rows, owner)
      modifies this`rows
      ensures Valid() && rows == old(rows) - omitted
    {
      var rest := omitted;
      while rest != {}
        invariant rest <= omitted && rows == old(rows) - (omitted - rest)
        decreases rest
      {
        assert (forall x :: x !in rest) ==> rest == {};
        var id :| id in rest;
        assert id in Owned(rows, owner);
        assert omitted - (rest - {id}) == (omitted - rest) + {id};
        var ok := DeleteRow(owner, id);
        rest := rest - {id};
      }
    }

    /**
      Saves a submission for an owner: deletes the rows it leaves out, then updates
      or inserts the submitted ones in order. A new Record has no rows yet.
     */
    method SaveCollectionRows(owner: Owner, submitted: seq<Submitted>, create: bool, refuses: Submitted -> bool)
        returns (e: Option<Error>, ghost ids: seq<int>)
      requires Valid() && WellFormed(submitted) && (create ==> Owned(rows, owner) == {})
      modifies this
      ensures Valid() && next >= old(next)
      ensures e.None? <==> forall i :: 0 <= i < |submitted| ==>
        !refuses(submitted[i]) && (submitted[i].id != 0 ==> submitted[i].id in Owned(old(rows), owner))
      ensures e.None? ==> SavedAs(old(rows), rows, owner, submitted, ids) && OthersKept(old(rows), rows, {owner})
      ensures e.None? ==> forall i :: 0 <= i < |submitted| && submitted[i].id == 0 ==> ids[i] >= old(next)
      ensures e.Some? && !e.value.Refused? ==> rows == old(rows)
    {
      ids := [];
      var existing := if create then {} else Owned(rows, owner);
      var kept;
      e, kept := CheckOwned(submitted, existing, create);
      if e.Some? { return; }
      if !create { DeleteOmitted(owner, existing - kept); }
      ghost var start := rows;
      assert forall i :: 0 <= i < |submitted| && submitted[i].id != 0 ==> submitted[i].id in Owned(start, owner);
      e, ids := WriteRows(owner, submitted, refuses);
      if e.None? { WrittenIsSaved(old(rows), start, rows, owner, submitted, ids, old(next), next); }
    }

    /** Updates or inserts the submitted rows, in order. */
    method WriteRows(owner: Owner, submitted: seq<Submitted>, refuses: Submitted -> bool)
        returns (e: Option<Error>, ghost ids: seq<int>)
      requires Valid() && WellFormed(submitted)
      requires forall i :: 0 <= i < |submitted| && submitted[i].id != 0 ==> submitted[i].id in Owned(rows, owner)
      modifies this
      ensures Valid() && next >= old(next)
      ensures e.None? <==> forall i :: 0 <= i < |submitted| ==> !refuses(submitted[i])
      ensures e.Some? ==> e.value.Refused?
      ensures e.None? ==> Written(old(rows), rows, owner, submitted, ids, old(next), next)
    {
      e, ids := None, [];
      for i := 0 to |submitted|
        invariant e.None? && Valid() && next >= old(next)
        invariant forall k :: 0 <= k < i ==> !refuses(submitted[k])
        invariant Written(old(rows), rows, owner, submitted[..i], ids, old(next), next)
      {
        if refuses(submitted[i]) { e := Some(Refused(i + 1)); return; }
        NextIsUntouched(old(rows), rows, owner, submitted, ids, old(next), next, i);
        ghost var was, wasNext := rows, next;
        var id := WriteRow(owner, submitted[i]);
        WrittenOneMore(old(rows), was, rows, owner, submitted, ids, old(next), wasNext, next, i, id);
        ids := ids + [id];
      }
      assert submitted[..|submitted|] == submitted;
    }

    /** Inserts a row without an id, updates the others. */
    method WriteRow(owner: Owner, row: Submitted) returns (id: int)
      requires Valid() && row.id >= 0 && (row.id != 0 ==> row.id in Owned(rows, owner))
      modifies this
      ensures Valid() && next == old(next) + if row.id == 0 then 1 else 0
      ensures id == if row.id == 0 then old(next) else row.id
      ensures rows == old(rows)[id := StoredRow(owner, row.ordinal, Base(old(rows), row.id) + row.input)]
    {
      if row.id == 0 {
        id := InsertRow(owner, row);
        assert map[] + row.input == row.input;
      } else {
        id := row.id;
        var ok := UpdateRow(owner, row);
      }
    }

    /**
      Saves the submitted collection fields of one Record, one after the other. Each
      ends as submitted; fields that were not submitted and other Records keep theirs.
     */
    method SaveSubmittedCollections(entity: int, record: int, fields: seq<CollectionField>, input: map<int, seq<RawRow>>,
                                    create: bool, refuses: Submitted -> bool) returns (e: Option<Error>)
      requires Valid() && DistinctFields(fields)
      requires create ==> forall i :: 0 <= i < |fields| ==> Owned(rows, Owner(entity, record, fields[i].id)) == {}
      modifies this
      ensures Valid()
      ensures e.None? <==> forall i :: 0 <= i < |fields| && fields[i].id in input ==>
        Savable(old(rows), Owner(entity, record, fields[i].id), input[fields[i].id], fields[i].required, create, refuses)
      ensures e.None? ==> forall i :: 0 <= i < |fields| && fields[i].id in input ==>
        FieldSaved(old(rows), rows, Owner(entity, record, fields[i].id), input[fields[i].id])
      ensures e.None? ==> OthersKept(old(rows), rows, OwnersOf(entity, record, fields, input))
    {
      e := None;
      NothingSavedYet(rows, entity, record, fields, input, create, refuses);
      for i := 0 to |fields|
        invariant e.None? && Valid() && next >= old(next)
        invariant SavedSoFar(old(rows), rows, entity, record, fields, i, input, create, refuses)
      {
        if fields[i].id !in input {
          SkippedOne(old(rows), rows, entity, record, fields, i, input, create, refuses);
          continue;
        }
        var owner, payload := Owner(entity, record, fields[i].id), input[fields[i].id];
        ghost var mid := rows;
        UntouchedSoFar(old(rows), mid, entity, record, fields, input, i);
        e := SaveField(owner, payload, fields[i].required, create, refuses, old(rows), old(next));
        if e.Some? { return; }
        SavedOneMore(old(rows), mid, rows, entity, record, fields, i, input, create, refuses);
      }
      assert fields[..|fields|] == fields;
    }

    /** Saves one submitted field whose rows are still as they were. */
    method SaveField(owner: Owner, payload: seq<RawRow>, required: bool, create: bool, refuses: Submitted -> bool,
                     ghost before: Rows, ghost first: int) returns (e: Option<Error>)
      requires Valid() && first <= next && forall id :: id in before ==> id < first
      requires Owned(rows, owner) == Owned(before, owner) && forall id :: id in Owned(rows, owner) ==> rows[id] == before[id]
      requires create ==> Owned(before, owner) == {}
      modifies this
      ensures Valid() && next >= old(next)
      ensures e.None? <==> Savable(before, owner, payload, required, create, refuses)
      ensures e.None? ==> FieldSaved(before, rows, owner, payload) && OthersKept(old(rows), rows, {owner})
    {
      var submitted := CollectionRowInputs(payload, required, !create);
      if submitted.Err? { return Some(submitted.error); }
      assert forall k :: 0 <= k < |payload| ==> submitted.value[k] == ReadRow(payload[k], k);
      ghost var mid, ids := rows, [];
      e, ids := SaveCollectionRows(owner, submitted.value, create, refuses);
      if e.None? { SavedFromStart(before, mid, rows, owner, submitted.value, ids, first); }
    }

    /** Rows of every collection field of a deleted Record go with it. */
    method DeleteRecordCollections(entity: int, record: int, fields: seq<int>)
      modifies this`rows
      ensures rows == map id | id in old(rows) && !OwnedByAny(old(rows)[id].owner, entity, record, fields) :: old(rows)[id]
    {
      for i := 0 to |fields|
        invariant rows == map id | id in old(rows) && !OwnedByAny(old(rows)[id].owner, entity, record, fields[..i]) :: old(rows)[id]
      {
        assert fields[..i + 1] == fields[..i] + [fields[i]];
        rows := rows - Owned(rows, Owner(entity, record, fields[i]));
      }
      assert fields[..|fields|] == fields;
    }
  }

  datatype CollectionField = CollectionField(id: int, required: bool)

  predicate DistinctFields(fields: seq<CollectionField>) {
    forall i, j :: 0 <= i < j < |fields| ==> fields[i].id != fields[j].id
  }

  /** The owners whose rows are submitted. */
  function OwnersOf(entity: int, record: int, fields: seq<CollectionField>, input: map<int, seq<RawRow>>): set<Owner> {
    set i | 0 <= i < |fields| && fields[i].id in input :: Owner(entity, record, fields[i].id)
  }

  /** A submission that can be saved: its rules hold, no row is refused, and every id is one of the owner's. */
  predicate Savable(rows: Rows, owner: Owner, payload: seq<RawRow>, required: bool, create: bool,
                    refuses: Submitted -> bool) {
    && PayloadAccepted(payload, required, !create)
    && forall i :: 0 <= i < |payload| ==>
         && !refuses(ReadRow(payload[i], i))
         && (SubmittedId(payload[i]) != 0 ==> SubmittedId(payload[i]) in Owned(rows, owner))
  }

  ghost predicate FieldSaved(before: Rows, after: Rows, owner: Owner, payload: seq<RawRow>) {
    exists submitted, ids ::
      SubmittedAs(payload, submitted) && WellFormed(submitted) && SavedAs(before, after, owner, submitted, ids)
  }

  lemma OwnersGrow(entity: int, record: int, fields: seq<CollectionField>, input: map<int, seq<RawRow>>, i: nat)
    requires i < |fields|
    ensures OwnersOf(entity, record, fields[..i + 1], input) == OwnersOf(entity, record, fields[..i], input)
      + if fields[i].id in input then {Owner(entity, record, fields[i].id)} else {}
  {
    var all, front := fields[..i + 1], fields[..i];
    forall o | o in OwnersOf(entity, record, front, input) ensures o in OwnersOf(entity, record, all, input) {
      var k :| 0 <= k < i && front[k].id in input && o == Owner(entity, record, front[k].id);
      assert all[k] == front[k];
    }
    forall o | o in OwnersOf(entity, record, all, input)
      ensures o in OwnersOf(entity, record, front, input) || o == Owner(entity, record, fields[i].id)
    {
      var k :| 0 <= k < i + 1 && all[k].id in input && o == Owner(entity, record, all[k].id);
      if k < i { assert front[k] == all[k]; }
    }
    assert all[i] == fields[i];
  }

  /** The first submitted fields could be saved and are; nothing else changed. */
  ghost predicate SavedSoFar(before: Rows, rows: Rows, entity: int, record: int, fields: seq<CollectionField>, i: nat,
                             input: map<int, seq<RawRow>>, create: bool, refuses: Submitted -> bool)
    requires i <= |fields|
  {
    && (forall k :: 0 <= k < i && fields[k].id in input ==>
          Savable(before, Owner(entity, record, fields[k].id), input[fields[k].id], fields[k].required, create, refuses))
    && (forall k :: 0 <= k < i && fields[k].id in input ==>
          FieldSaved(before, rows, Owner(entity, record, fields[k].id), input[fields[k].id]))
    && OthersKept(before, rows, OwnersOf(entity, record, fields[..i], input))
  }

  lemma NothingSavedYet(rows: Rows, entity: int, record: int, fields: seq<CollectionField>,
                        input: map<int, seq<RawRow>>, create: bool, refuses: Submitted -> bool)
    ensures SavedSoFar(rows, rows, entity, record, fields, 0, input, create, refuses)
  {
  }

  lemma SkippedOne(before: Rows, rows: Rows, entity: int, record: int, fields: seq<CollectionField>, i: nat,
                   input: map<int, seq<RawRow>>, create: bool, refuses: Submitted -> bool)
    requires i < |fields| && fields[i].id !in input
    requires SavedSoFar(before, rows, entity, record, fields, i, input, create, refuses)
    ensures SavedSoFar(before, rows, entity, record, fields, i + 1, input, create, refuses)
  {
    OwnersGrow(entity, record, fields, input, i);
  }

  lemma SavedOneMore(before: Rows, mid: Rows, rows: Rows, entity: int, record: int, fields: seq<CollectionField>, i: nat,
                     input: map<int, seq<RawRow>>, create: bool, refuses: Submitted -> bool)
    requires i < |fields| && DistinctFields(fields) && fields[i].id in input
    requires SavedSoFar(before, mid, entity, record, fields, i, input, create, refuses)
    requires var owner, payload := Owner(entity, record, fields[i].id), input[fields[i].id];
      && Savable(before, owner, payload, fields[i].required, create, refuses)
      && FieldSaved(before, rows, owner, payload) && OthersKept(mid, rows, {owner})
    ensures SavedSoFar(before, rows, entity, record, fields, i + 1, input, create, refuses)
  {
    var owner := Owner(entity, record, fields[i].id);
    OwnersGrow(entity, record, fields, input, i);
    forall k | 0 <= k < i && fields[k].id in input
      ensures FieldSaved(before, rows, Owner(entity, record, fields[k].id), input[fields[k].id])
    {
      SavedStays(before, mid, rows, Owner(entity, record, fields[k].id), input[fields[k].id], owner);
    }
  }

  lemma UntouchedSoFar(before: Rows, mid: Rows, entity: int, record: int, fields: seq<CollectionField>,
                       input: map<int, seq<RawRow>>, i: nat)
    requires i < |fields| && DistinctFields(fields)
    requires OthersKept(before, mid, OwnersOf(entity, record, fields[..i], input))
    ensures var owner := Owner(entity, record, fields[i].id);
      Owned(mid, owner) == Owned(before, owner) && forall id :: id in Owned(mid, owner) ==> mid[id] == before[id]
  {
    var owner := Owner(entity, record, fields[i].id);
    assert owner !in OwnersOf(entity, record, fields[..i], input);
    assert forall id :: id in before && before[id].owner == owner ==> id in mid && mid[id] == before[id];
    assert forall id :: id in mid && mid[id].owner == owner ==> id in before && mid[id] == before[id];
  }

  lemma SavedFromStart(before: Rows, mid: Rows, after: Rows, owner: Owner, submitted: seq<Submitted>, ids: seq<int>, first: int)
    requires WellFormed(submitted) && SavedAs(mid, after, owner, submitted, ids)
    requires forall id :: id in before ==> id < first
    requires forall i :: 0 <= i < |submitted| && submitted[i].id == 0 ==> ids[i] >= first
    requires forall i :: 0 <= i < |submitted| && submitted[i].id != 0 ==> submitted[i].id in Owned(mid, owner)
    requires Owned(mid, owner) == Owned(before, owner) && forall id :: id in Owned(mid, owner) ==> mid[id] == before[id]
    ensures SavedAs(before, after, owner, submitted, ids)
  {
    forall i | 0 <= i < |ids| ensures Base(mid, ids[i]) == Base(before, ids[i]) {
      if submitted[i].id > 0 { assert ids[i] in Owned(mid, owner); }
    }
  }

  lemma SavedStays(before: Rows, mid: Rows, after: Rows, owner: Owner, payload: seq<RawRow>, other: Owner)
    requires FieldSaved(before, mid, owner, payload) && OthersKept(mid, after, {other}) && owner != other
    ensures FieldSaved(before, after, owner, payload)
  {
    var submitted, ids :|
      SubmittedAs(payload, submitted) && WellFormed(submitted) && SavedAs(before, mid, owner, submitted, ids);
    forall id | id in Owned(after, owner) ensures id in ids { assert id in Owned(mid, owner); }
    assert SavedAs(before, after, owner, submitted, ids);
  }

  predicate OwnedByAny(owner: Owner, entity: int, record: int, fields: seq<int>) {
    owner.entity == entity && owner.record == record && owner.field in fields
  }

  /** The rows after the first submitted ones are written; the rest is as it was. */
  ghost predicate Written(start: Rows, rows: Rows, owner: Owner, done: seq<Submitted>, ids: seq<int>, first: int, next: int) {
    && |ids| == |done|
    && (forall i, j :: 0 <= i < j < |ids| ==> ids[i] != ids[j])
    && (forall i :: 0 <= i < |ids| ==>
          && (if done[i].id > 0 then ids[i] == done[i].id else first <= ids[i] < next)
          && ids[i] in rows
          && rows[ids[i]] == StoredRow(owner, done[i].ordinal, Base(start, ids[i]) + done[i].input))
    && (forall id :: id in start && id !in ids ==> id in rows && rows[id] == start[id])
    && (forall id :: id in rows ==> id in start || id in ids)
  }

  lemma NextIsUntouched(start: Rows, rows: Rows, owner: Owner, submitted: seq<Submitted>, ids: seq<int>, first: int,
                        next: int, i: nat)
    requires i < |submitted| && WellFormed(submitted) && Written(start, rows, owner, submitted[..i], ids, first, next)
    requires forall id :: id in start ==> 0 < id < first
    requires forall k :: 0 <= k < |submitted| && submitted[k].id != 0 ==> submitted[k].id in Owned(start, owner)
    requires first <= next
    ensures next !in ids && next !in start
    ensures submitted[i].id != 0 ==>
      submitted[i].id !in ids && submitted[i].id in rows && rows[submitted[i].id] == start[submitted[i].id]
  {
    forall k | 0 <= k < |ids| ensures ids[k] != next && (submitted[i].id != 0 ==> ids[k] != submitted[i].id) {
      assert submitted[..i][k] == submitted[k];
    }
  }

  lemma WrittenOneMore(start: Rows, was: Rows, rows: Rows, owner: Owner, submitted: seq<Submitted>, ids: seq<int>,
                       first: int, wasNext: int, next: int, i: nat, id: int)
    requires i < |submitted| && WellFormed(submitted) && Written(start, was, owner, submitted[..i], ids, first, wasNext)
    requires id !in ids && first <= wasNext <= next
    requires if submitted[i].id > 0 then id == submitted[i].id else id == wasNext < next && id !in start
    requires rows == was[id := StoredRow(owner, submitted[i].ordinal, Base(start, id) + submitted[i].input)]
    ensures Written(start, rows, owner, submitted[..i + 1], ids + [id], first, next)
  {
    assert submitted[..i + 1] == submitted[..i] + [submitted[i]];
    assert forall x :: x in ids + [id] <==> x in ids || x == id;
  }

  lemma WrittenIsSaved(before: Rows, start: Rows, rows: Rows, owner: Owner, submitted: seq<Submitted>, ids: seq<int>,
                       first: int, next: int)
    requires WellFormed(submitted) && Written(start, rows, owner, submitted, ids, first, next)
    requires forall id :: id in before ==> 0 < id < first
    requires start.Keys <= before.Keys && forall id :: id in start ==> start[id] == before[id]
    requires forall id :: id in before && id !in start ==> before[id].owner == owner
    requires forall id :: id in Owned(start, owner) ==> exists i :: 0 <= i < |submitted| && submitted[i].id == id
    requires forall i :: 0 <= i < |submitted| && submitted[i].id != 0 ==> submitted[i].id in Owned(start, owner)
    ensures SavedAs(before, rows, owner, submitted, ids) && OthersKept(before, rows, {owner})
  {
    forall id | id in Owned(start, owner) ensures id in ids {
      var i :| 0 <= i < |submitted| && submitted[i].id == id;
      assert id > 0 && ids[i] == id;
    }
    forall i | 0 <= i < |ids| ensures Base(start, ids[i]) == Base(before, ids[i]) {
      if submitted[i].id > 0 { assert ids[i] in Owned(start, owner); }
    }
    forall id | id in before && before[id].owner != owner ensures id in rows && rows[id] == before[id] {
      assert id in start;
      forall i | 0 <= i < |ids| ensures ids[i] != id {
        if submitted[i].id > 0 { assert ids[i] in Owned(start, owner); }
      }
    }
  }

  // ----- Loading

  /** The order in which rows are loaded: by ordinal, then by id. */
  predicate Before(rows: Rows, a: int, b: int)
    requires a in rows && b in rows
  {
    rows[a].ordinal < rows[b].ordinal || (rows[a].ordinal == rows[b].ordinal && a < b)
  }

  /** The result of loading an owner's rows: each of them once, in order. */
  ghost predicate IsLoad(rows: Rows, owner: Owner, loaded: seq<int>) {
    && (forall i :: 0 <= i < |loaded| ==> loaded[i] in Owned(rows, owner))
    && (forall id :: id in Owned(rows, owner) ==> id in loaded)
    && (forall i, j :: 0 <= i < j < |loaded| ==> loaded[i] in rows && loaded[j] in rows && Before(rows, loaded[i], loaded[j]))
  }

  predicate Increasing(s: seq<int>) {
    forall i, j :: 0 <= i < j < |s| ==> s[i] < s[j]
  }

  /** Two increasing sequences of the same elements are the same. */
  lemma {:induction false} IncreasingIsUnique(a: seq<int>, b: seq<int>)
    requires Increasing(a) && Increasing(b) && forall x :: x in a <==> x in b
    ensures a == b
  {
    if a == [] {
      assert forall i :: 0 <= i < |b| ==> b[i] in a;
    } else {
      assert a[0] in b && b != [];
      var m, n := a[|a| - 1], b[|b| - 1];
      assert m in b && n in a;
      assert m == n;
      var x, y := a[..|a| - 1], b[..|b| - 1];
      forall v ensures v in x <==> v in y {
        assert v in x <==> v in a && v != m by { if v in a && v != m { var i :| 0 <= i < |a| && a[i] == v; assert x[i] == v; } }
        assert v in y <==> v in b && v != n by { if v in b && v != n { var i :| 0 <= i < |b| && b[i] == v; assert y[i] == v; } }
      }
      IncreasingIsUnique(x, y);
    }
  }

  lemma LoadsInOrder(before: Rows, after: Rows, owner: Owner, submitted: seq<Submitted>, ids: seq<int>, loaded: seq<int>)
    requires WellFormed(submitted) && SavedAs(before, after, owner, submitted, ids) && IsLoad(after, owner, loaded)
    ensures loaded == ids
  {
    SavedHaveOrdinals(before, after, owner, submitted, ids);
    LoadedAreSaved(before, after, owner, submitted, ids, loaded);
    var a := seq(|loaded|, i requires 0 <= i < |loaded| => after[loaded[i]].ordinal);
    var b := seq(|ids|, i => i + 1);
    forall i, j | 0 <= i < j < |a| ensures a[i] < a[j] {
      assert loaded[i] in loaded && loaded[j] in loaded;
      DistinctOrdinals(after, ids, loaded, i, j);
      assert Before(after, loaded[i], loaded[j]);
    }
    SameOrdinals(after, ids, loaded, a, b);
    IncreasingIsUnique(a, b);
    forall i | 0 <= i < |loaded| ensures loaded[i] == ids[i] {
      assert a[i] == b[i] && loaded[i] in loaded;
      OrdinalTells(after, ids, loaded[i], i);
    }
  }

  lemma SavedHaveOrdinals(before: Rows, after: Rows, owner: Owner, submitted: seq<Submitted>, ids: seq<int>)
    requires WellFormed(submitted) && SavedAs(before, after, owner, submitted, ids)
    ensures forall i :: 0 <= i < |ids| ==> ids[i] in Owned(after, owner) && after[ids[i]].ordinal == i + 1
  {
  }

  lemma LoadedAreSaved(before: Rows, after: Rows, owner: Owner, submitted: seq<Submitted>, ids: seq<int>, loaded: seq<int>)
    requires WellFormed(submitted) && SavedAs(before, after, owner, submitted, ids) && IsLoad(after, owner, loaded)
    ensures forall id :: id in loaded <==> id in ids
  {
    SavedHaveOrdinals(before, after, owner, submitted, ids);
    forall id ensures id in loaded <==> id in ids {
      if id in loaded {
        var i :| 0 <= i < |loaded| && loaded[i] == id;
        assert loaded[i] in Owned(after, owner);
      }
    }
  }

  /** Ordinals tell saved rows apart. */
  lemma OrdinalTells(after: Rows, ids: seq<int>, id: int, i: nat)
    requires forall k :: 0 <= k < |ids| ==> ids[k] in after && after[ids[k]].ordinal == k + 1
    requires i < |ids| && id in ids && after[id].ordinal == i + 1
    ensures id == ids[i]
  {
    var k :| 0 <= k < |ids| && ids[k] == id;
  }

  lemma DistinctOrdinals(after: Rows, ids: seq<int>, loaded: seq<int>, i: nat, j: nat)
    requires forall k :: 0 <= k < |ids| ==> ids[k] in after && after[ids[k]].ordinal == k + 1
    requires i < j < |loaded| && loaded[i] in ids && loaded[j] in ids
    requires Before(after, loaded[i], loaded[j])
    ensures after[loaded[i]].ordinal < after[loaded[j]].ordinal
  {
    var x, y :| 0 <= x < |ids| && 0 <= y < |ids| && ids[x] == loaded[i] && ids[y] == loaded[j];
  }

  /** The saved rows, in the order of their submission, are a load: so they are the only one. */
  lemma SavedCanBeLoaded(before: Rows, after: Rows, owner: Owner, submitted: seq<Submitted>, ids: seq<int>)
    requires WellFormed(submitted) && SavedAs(before, after, owner, submitted, ids)
    ensures IsLoad(after, owner, ids)
  {
    SavedHaveOrdinals(before, after, owner, submitted, ids);
  }

  lemma SameOrdinals(after: Rows, ids: seq<int>, loaded: seq<int>, a: seq<int>, b: seq<int>)
    requires forall id :: id in loaded <==> id in ids
    requires |a| == |loaded| && forall i :: 0 <= i < |a| ==> loaded[i] in after && a[i] == after[loaded[i]].ordinal
    requires |b| == |ids| && forall i :: 0 <= i < |b| ==> ids[i] in after && b[i] == after[ids[i]].ordinal
    ensures forall x :: x in a <==> x in b
  {
    forall x | x in a ensures x in b {
      var i :| 0 <= i < |a| && a[i] == x;
      assert loaded[i] in loaded;
      var k :| 0 <= k < |ids| && ids[k] == loaded[i];
      assert b[k] == x;
    }
    forall x | x in b ensures x in a {
      var k :| 0 <= k < |b| && b[k] == x;
      assert ids[k] in ids;
      var i :| 0 <= i < |loaded| && loaded[i] == ids[k];
      assert a[i] == x;
    }
  }

  /**
    Saving then loading gives the submitted rows in the submitted order, with
    ordinals from 1, the ids they were submitted with, and the stored values of the
    fields that were not submitted.
   */
  lemma SaveThenLoad(before: Rows, after: Rows, owner: Owner, submitted: seq<Submitted>, ids: seq<int>, loaded: seq<int>)
    requires WellFormed(submitted) && SavedAs(before, after, owner, submitted, ids) && IsLoad(after, owner, loaded)
    ensures |loaded| == |submitted|
    ensures forall i :: 0 <= i < |submitted| ==> LoadedAs(before, after, submitted[i], i, loaded[i])
  {
    LoadsInOrder(before, after, owner, submitted, ids, loaded);
  }

  /** The row loaded at a position is the one submitted there. */
  predicate LoadedAs(before: Rows, after: Rows, row: Submitted, position: nat, id: int) {
    && id in after && after[id].ordinal == position + 1
    && (row.id > 0 ==> id == row.id)
    && (row.id == 0 ==> id !in before && after[id].fields == row.input)
    && (forall f :: f in row.input ==> f in after[id].fields && after[id].fields[f] == row.input[f])
    && (row.id > 0 && row.id in before ==> forall f :: f in before[row.id].fields && f !in row.input ==>
          f in after[id].fields && after[id].fields[f] == before[row.id].fields[f])
  }

  /** The ordinals are unique again when the transaction commits, and left-out rows are gone. */
  lemma SaveKeepsUnique(before: Rows, after: Rows, owner: Owner, submitted: seq<Submitted>, ids: seq<int>)
    requires WellFormed(submitted) && UniqueOrdinals(before)
    requires SavedAs(before, after, owner, submitted, ids) && OthersKept(before, after, {owner})
    ensures UniqueOrdinals(after)
    ensures forall id :: id in Owned(before, owner) ==>
      (id in after <==> exists i :: 0 <= i < |submitted| && submitted[i].id == id && id != 0)
  {
    forall id | id in Owned(before, owner)
      ensures id in after <==> exists i :: 0 <= i < |submitted| && submitted[i].id == id && id != 0
    {
      if id in after {
        assert id in Owned(after, owner);
        var i :| 0 <= i < |ids| && ids[i] == id;
        assert submitted[i].id == id;
      }
    }
    forall a, b | a in after && b in after && a != b && after[a].owner == after[b].owner
      ensures after[a].ordinal != after[b].ordinal
    {
      if after[a].owner == owner {
        assert a in Owned(after, owner) && b in Owned(after, owner);
      }
    }
  }

  /** Swapping two rows makes their ordinals collide until the second is written. */
  lemma SwapCollidesMeanwhile(start: Rows, rows: Rows, owner: Owner, a: int, b: int, first: int, next: int)
    requires a > 0 && b > 0 && a in Owned(start, owner) && b in Owned(start, owner)
    requires start[a].ordinal == 1 && start[b].ordinal == 2
    requires Written(start, rows, owner, [Submitted(b, 1, map[])], [b], first, next)
    ensures !UniqueOrdinals(rows)
  {
    assert rows[[b][0]] == StoredRow(owner, 1, Base(start, b) + map[]);
    assert rows[a] == start[a] && rows[b].owner == owner && rows[b].ordinal == 1;
  }
}
