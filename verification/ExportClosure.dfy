/**
  Which Records a Fixture export gathers: all of one Entity and, when links are
  included, whatever they lead to.
 */
module ExportClosure {
  import opened Wrappers

  /** An Entity by app and name. */
  datatype Identity = Identity(app: string, entity: string)

  /** A Record by Entity and name. */
  datatype Key = Key(of: Identity, name: string)

  /** A link field and the target its options name; no app means the owner's, or the only one that has it. */
  datatype LinkField = LinkField(name: string, app: string, entity: string)

  /** A Record with the names its links hold; a blank name is no link. */
  datatype Record = Record(name: string, links: map<string, string>)

  /** Loaded Entities, true for collections; their link fields; their Records by id. */
  datatype Store = Store(entities: map<Identity, bool>, fields: map<Identity, seq<LinkField>>, rows: map<Identity, seq<Record>>)

  function RowsOf(store: Store, e: Identity): seq<Record> {
    if e in store.rows then store.rows[e] else []
  }

  function FieldsOf(store: Store, e: Identity): seq<LinkField> {
    if e in store.fields then store.fields[e] else []
  }

  /** Names identify the Records of an Entity. */
  predicate ValidStore(store: Store) {
    forall e :: e in store.rows ==>
      forall i, j :: 0 <= i < j < |store.rows[e]| ==> store.rows[e][i].name != store.rows[e][j].name
  }

  predicate Exists(store: Store, k: Key) {
    exists i :: 0 <= i < |RowsOf(store, k.of)| && RowsOf(store, k.of)[i].name == k.name
  }

  function AllKeys(store: Store): set<Key> {
    set e, i | e in store.rows && 0 <= i < |store.rows[e]| :: Key(e, store.rows[e][i].name)
  }

  function FindRow(rows: seq<Record>, name: string): (r: Option<Record>)
    ensures r.None? <==> forall i :: 0 <= i < |rows| ==> rows[i].name != name
    ensures r.Some? ==> r.value in rows && r.value.name == name
  {
    if rows == [] then None
    else if rows[0].name == name then Some(rows[0])
    else FindRow(rows[1..], name)
  }

  // ----- Links

  predicate OnlyMatch(store: Store, entity: string, e: Identity) {
    && e in store.entities && e.entity == entity && !store.entities[e]
    && forall o :: o in store.entities && o.entity == entity && !store.entities[o] ==> o == e
  }

  /** The Entity a link field points to, or nothing when it cannot be told or is a collection. */
  function ResolveLinkTarget(store: Store, owner: Identity, f: LinkField): (r: Option<Identity>)
    ensures r.Some? ==> r.value in store.entities && !store.entities[r.value] && r.value.entity == f.entity
  {
    if f.entity == "" then None
    else if f.app != "" then
      if Identity(f.app, f.entity) in store.entities && !store.entities[Identity(f.app, f.entity)] then Some(Identity(f.app, f.entity)) else None
    else if Identity(owner.app, f.entity) in store.entities then
      if store.entities[Identity(owner.app, f.entity)] then None else Some(Identity(owner.app, f.entity))
    else if exists e :: e in store.entities && OnlyMatch(store, f.entity, e) then
      var e :| e in store.entities && OnlyMatch(store, f.entity, e);
      Some(e)
    else None
  }

  /**
    The target is the loaded Entity of that name in the named app; without one, in
    the owner's app if it has the name at all, else the only one anywhere.
   */
  lemma ResolvedIff(store: Store, owner: Identity, f: LinkField, e: Identity)
    ensures ResolveLinkTarget(store, owner, f) == Some(e) <==>
      && f.entity != "" && e.entity == f.entity && e in store.entities && !store.entities[e]
      && (if f.app != "" then e.app == f.app
          else if Identity(owner.app, f.entity) in store.entities then e.app == owner.app
          else forall o :: o in store.entities && o.entity == f.entity && !store.entities[o] ==> o == e)
  {
    assert e == Identity(e.app, e.entity);
  }

  datatype ExportLink = ExportLink(source: Key, field: string, target: Option<Identity>, name: string)

  function LinksUpTo(store: Store, e: Identity, row: Record, k: nat): seq<ExportLink>
    requires k <= |FieldsOf(store, e)|
  {
    if k == 0 then []
    else
      var f := FieldsOf(store, e)[k - 1];
      LinksUpTo(store, e, row, k - 1)
      + if f.name in row.links && row.links[f.name] != ""
        then [ExportLink(Key(e, row.name), f.name, ResolveLinkTarget(store, e, f), row.links[f.name])] else []
  }

  function LinksOfRow(store: Store, e: Identity, row: Record): seq<ExportLink> {
    LinksUpTo(store, e, row, |FieldsOf(store, e)|)
  }

  /** Every link field that holds a name gives a link, with the target its options tell, and nothing else does. */
  lemma LinksExact(store: Store, e: Identity, row: Record, l: ExportLink)
    ensures l in LinksOfRow(store, e, row) <==>
      exists i :: 0 <= i < |FieldsOf(store, e)| && HoldsLink(store, e, row, FieldsOf(store, e)[i], l)
  {
    LinksUpToExact(store, e, row, |FieldsOf(store, e)|, l);
  }

  predicate HoldsLink(store: Store, e: Identity, row: Record, f: LinkField, l: ExportLink) {
    && f.name in row.links && row.links[f.name] != ""
    && l.source == Key(e, row.name) && l.field == f.name && l.name == row.links[f.name]
    && l.target == ResolveLinkTarget(store, e, f)
  }

  lemma {:induction false} LinksUpToExact(store: Store, e: Identity, row: Record, k: nat, l: ExportLink)
    requires k <= |FieldsOf(store, e)|
    ensures l in LinksUpTo(store, e, row, k) <==>
      exists i :: 0 <= i < k && HoldsLink(store, e, row, FieldsOf(store, e)[i], l)
  {
    if k > 0 { LinksUpToExact(store, e, row, k - 1, l); }
  }

  /** The links of a Record, as its Entity's fields describe them. */
  function LinksOf(store: Store, k: Key): seq<ExportLink> {
    var row := FindRow(RowsOf(store, k.of), k.name);
    if row.None? then [] else LinksOfRow(store, k.of, row.value)
  }

  // ----- The closure

  predicate HoldsTarget(store: Store, target: Identity, s: set<Key>) {
    forall i :: 0 <= i < |RowsOf(store, target)| ==> Key(target, RowsOf(store, target)[i].name) in s
  }

  /** Wherever a link of the set leads, when it leads to an existing Record. */
  predicate FollowsLinks(store: Store, s: set<Key>) {
    forall k, l :: k in s && l in LinksOf(store, k) && l.target.Some? && Exists(store, Key(l.target.value, l.name)) ==>
      Key(l.target.value, l.name) in s
  }

  predicate Closed(store: Store, target: Identity, includeLinks: bool, s: set<Key>) {
    HoldsTarget(store, target, s) && (includeLinks ==> FollowsLinks(store, s))
  }

  /** The store has a Record of that name. */
  predicate IsStored(store: Store, k: Key) {
    k.of in store.rows && exists i :: 0 <= i < |store.rows[k.of]| && store.rows[k.of][i].name == k.name
  }

  /** A link field of the Record at a names b, in the Entity that the field's options tell. */
  ghost predicate LinksTo(store: Store, a: Key, b: Key) {
    && a.of in store.rows && a.of in store.fields
    && exists i, j :: 0 <= i < |store.rows[a.of]| && 0 <= j < |store.fields[a.of]| && LinksBy(store, a, b, i, j)
  }

  ghost predicate LinksBy(store: Store, a: Key, b: Key, i: nat, j: nat)
    requires a.of in store.rows && a.of in store.fields && i < |store.rows[a.of]| && j < |store.fields[a.of]|
  {
    var row, f := store.rows[a.of][i], store.fields[a.of][j];
    && row.name == a.name && f.name in row.links && row.links[f.name] == b.name && b.name != ""
    && ResolveLinkTarget(store, a.of, f) == Some(b.of)
  }

  lemma {:induction false} FoundRow(rows: seq<Record>, i: nat)
    requires i < |rows| && forall a, b :: 0 <= a < b < |rows| ==> rows[a].name != rows[b].name
    ensures FindRow(rows, rows[i].name) == Some(rows[i])
  {
    if i > 0 { FoundRow(rows[1..], i - 1); }
  }

  /** The links of a stored Record lead where its link fields say. */
  lemma LinksToExact(store: Store, a: Key, b: Key)
    requires ValidStore(store)
    ensures LinksTo(store, a, b) <==> exists l :: l in LinksOf(store, a) && l.target == Some(b.of) && l.name == b.name
  {
    if LinksTo(store, a, b) {
      var i, j :| 0 <= i < |store.rows[a.of]| && 0 <= j < |store.fields[a.of]| && LinksBy(store, a, b, i, j);
      FoundRow(store.rows[a.of], i);
      var row, f := store.rows[a.of][i], store.fields[a.of][j];
      var l := ExportLink(Key(a.of, row.name), f.name, Some(b.of), b.name);
      assert HoldsLink(store, a.of, row, FieldsOf(store, a.of)[j], l);
      LinksExact(store, a.of, row, l);
    }
    if l :| l in LinksOf(store, a) && l.target == Some(b.of) && l.name == b.name {
      var row := FindRow(RowsOf(store, a.of), a.name).value;
      LinksExact(store, a.of, row, l);
      var j :| 0 <= j < |FieldsOf(store, a.of)| && HoldsLink(store, a.of, row, FieldsOf(store, a.of)[j], l);
      var i :| 0 <= i < |store.rows[a.of]| && store.rows[a.of][i] == row;
      assert LinksBy(store, a, b, i, j);
    }
  }

  lemma StoredIffExists(store: Store, k: Key)
    ensures IsStored(store, k) <==> Exists(store, k)
  {
    if k.of in store.rows {
      assert forall i :: 0 <= i < |store.rows[k.of]| ==> RowsOf(store, k.of)[i] == store.rows[k.of][i];
      if i :| 0 <= i < |RowsOf(store, k.of)| && RowsOf(store, k.of)[i].name == k.name { assert store.rows[k.of][i].name == k.name; }
    }
  }

  /** A set is closed when it has all stored Records of the target and, with links, every stored Record they lead to. */
  lemma ClosedMeans(store: Store, target: Identity, includeLinks: bool, s: set<Key>)
    requires ValidStore(store)
    ensures Closed(store, target, includeLinks, s) <==>
      && (forall k: Key :: k.of == target && IsStored(store, k) ==> k in s)
      && (includeLinks ==> forall a, b :: a in s && LinksTo(store, a, b) && IsStored(store, b) ==> b in s)
  {
    HoldsTargetMeans(store, target, s);
    FollowsLinksMeans(store, s);
  }

  lemma HoldsTargetMeans(store: Store, target: Identity, s: set<Key>)
    ensures HoldsTarget(store, target, s) <==> forall k: Key :: k.of == target && IsStored(store, k) ==> k in s
  {
    var rows := RowsOf(store, target);
    forall i | 0 <= i < |rows| ensures IsStored(store, Key(target, rows[i].name)) { }
    if HoldsTarget(store, target, s) {
      forall k: Key | k.of == target && IsStored(store, k) ensures k in s {
        var i :| 0 <= i < |rows| && rows[i].name == k.name;
        assert k == Key(target, rows[i].name);
      }
    }
  }

  lemma FollowsLinksMeans(store: Store, s: set<Key>)
    requires ValidStore(store)
    ensures FollowsLinks(store, s) <==> forall a, b :: a in s && LinksTo(store, a, b) && IsStored(store, b) ==> b in s
  {
    if FollowsLinks(store, s) {
      forall a, b | a in s && LinksTo(store, a, b) && IsStored(store, b) ensures b in s {
        LinksToExact(store, a, b);
        StoredIffExists(store, b);
        var l :| l in LinksOf(store, a) && l.target == Some(b.of) && l.name == b.name;
        assert b == Key(l.target.value, l.name);
      }
    }
    if forall a, b :: a in s && LinksTo(store, a, b) && IsStored(store, b) ==> b in s {
      forall k, l | k in s && l in LinksOf(store, k) && l.target.Some? && Exists(store, Key(l.target.value, l.name))
        ensures Key(l.target.value, l.name) in s
      {
        LinksToExact(store, k, Key(l.target.value, l.name));
        StoredIffExists(store, Key(l.target.value, l.name));
      }
    }
  }

  /** The Record belongs to every closed set. */
  ghost predicate Needed(store: Store, target: Identity, includeLinks: bool, k: Key) {
    forall s :: Closed(store, target, includeLinks, s) ==> k in s
  }

  // ----- The planner

  datatype Item = All(entity: Identity) | One(entity: Identity, name: string)

  const PAGE := 2500

  /** One page of the Records of an Entity, with the total. */
  method ListPage(store: Store, e: Identity, offset: nat) returns (page: seq<Record>, total: nat)
    ensures total == |RowsOf(store, e)|
    ensures offset <= total ==>
      page == RowsOf(store, e)[offset..if offset + PAGE <= total then offset + PAGE else total]
  {
    var rows := RowsOf(store, e);
    total := |rows|;
    page := if offset >= total then [] else if offset + PAGE <= total then rows[offset..offset + PAGE] else rows[offset..];
  }

  /** All Records of an Entity, page by page. */
  method ListAll(store: Store, e: Identity) returns (rows: seq<Record>)
    ensures rows == RowsOf(store, e)
  {
    var offset := 0;
    rows := [];
    while true
      invariant offset <= |RowsOf(store, e)| && rows == RowsOf(store, e)[..offset]
      decreases |RowsOf(store, e)| - offset
    {
      var page, total := ListPage(store, e, offset);
      rows := rows + page;
      if |page| == 0 || offset + |page| >= total { return; }
      offset := offset + |page|;
    }
  }

  /** What is asked for. */
  datatype Request = Request(store: Store, target: Identity, includeLinks: bool)

  /** The planner's fields at one moment. */
  datatype State = State(records: map<Key, Record>, links: seq<ExportLink>, queue: seq<Item>,
                         exportAll: set<Identity>, processedAll: set<Identity>, processedOne: set<Key>)

  ghost predicate IsNeeded(q: Request, k: Key) {
    Needed(q.store, q.target, q.includeLinks, k)
  }

  ghost predicate ItemNeeded(q: Request, item: Item) {
    match item
    case All(e) => e == q.target
    case One(e, name) => Exists(q.store, Key(e, name)) ==> IsNeeded(q, Key(e, name))
  }

  predicate Stored(q: Request, k: Key, row: Record) {
    k in AllKeys(q.store) && FindRow(RowsOf(q.store, k.of), k.name) == Some(row)
  }

  /** Every gathered Record is stored and needed, and so is whatever waits in the queue. */
  ghost predicate OnlyNeeded(q: Request, s: State) {
    && (forall k :: k in s.records ==> Stored(q, k, s.records[k]) && IsNeeded(q, k))
    && (forall i :: 0 <= i < |s.queue| ==> ItemNeeded(q, s.queue[i]))
  }

  /** A link that is followed is dealt with: its Entity is exported whole, or the name was looked up or waits. */
  predicate Handled(q: Request, s: State, l: ExportLink) {
    q.includeLinks && l.target.Some? ==>
      || l.target.value in s.exportAll
      || Key(l.target.value, l.name) in s.processedOne
      || One(l.target.value, l.name) in s.queue
  }

  /** The link belongs to a gathered Record. */
  ghost predicate Gathered(q: Request, s: State, l: ExportLink) {
    exists k :: k in s.records && l in LinksOf(q.store, k)
  }

  /** The links kept are those of the gathered Records, and each of them is handled. */
  ghost predicate LinksKept(q: Request, s: State) {
    && (forall k, l :: k in s.records && l in LinksOf(q.store, k) ==> l in s.links)
    && (forall l :: l in s.links ==> Gathered(q, s, l) && Handled(q, s, l))
  }

  /** Processed work is complete, pending work is queued. */
  ghost predicate WorkDone(q: Request, s: State) {
    && (forall k :: k in s.processedOne && Exists(q.store, k) ==> k in s.records)
    && s.exportAll == {q.target}
    && (if q.target in s.processedAll then HoldsTarget(q.store, q.target, s.records.Keys) else All(q.target) in s.queue)
  }

  ghost predicate Sound(q: Request, s: State) {
    ValidStore(q.store) && OnlyNeeded(q, s) && LinksKept(q, s)
  }

  ghost predicate Consistent(q: Request, s: State) {
    Sound(q, s) && WorkDone(q, s)
  }

  /** Adding Records marks nothing as processed, and queues something only when there was something to add. */
  predicate Grew(a: State, b: State) {
    && a.exportAll == b.exportAll && a.processedAll == b.processedAll && a.processedOne == b.processedOne
    && a.queue <= b.queue && a.records.Keys <= b.records.Keys
    && (a.records.Keys == b.records.Keys ==> a.queue == b.queue)
  }

  function KeysOf(e: Identity, rows: seq<Record>): set<Key> {
    set i | 0 <= i < |rows| :: Key(e, rows[i].name)
  }

  ghost predicate RowsNeeded(q: Request, e: Identity, rows: seq<Record>) {
    forall i :: 0 <= i < |rows| ==> rows[i] in RowsOf(q.store, e) && IsNeeded(q, Key(e, rows[i].name))
  }

  class ExportPlanner {
    const request: Request
    var records: map<Key, Record>
    var links: seq<ExportLink>
    var queue: seq<Item>
    var exportAll: set<Identity>
    var processedAll: set<Identity>
    var processedOne: set<Key>

    constructor (request: Request)
      requires ValidStore(request.store)
      ensures this.request == request && Consistent(request, Now())
    {
      this.request := request;
      records, links, queue := map[], [], [All(request.target)];
      exportAll, processedAll, processedOne := {request.target}, {}, {};
    }

    ghost function Now(): State
      reads this
    {
      State(records, links, queue, exportAll, processedAll, processedOne)
    }

    method EnqueueOne(e: Identity, name: string)
      modifies this`queue
      ensures queue == if e in exportAll || name == "" || Key(e, name) in processedOne then old(queue)
                       else old(queue) + [One(e, name)]
    {
      if e in exportAll || name == "" || Key(e, name) in processedOne { return; }
      queue := queue + [One(e, name)];
    }

    /** Keeps the links of a Record and queues what they lead to. */
    method CollectLinks(e: Identity, row: Record)
      modifies this`links, this`queue
      ensures links == old(links) + LinksOfRow(request.store, e, row)
      ensures Queued(request, old(Now()), Now(), LinksOfRow(request.store, e, row))
    {
      for k := 0 to |FieldsOf(request.store, e)|
        invariant links == old(links) + LinksUpTo(request.store, e, row, k)
        invariant Queued(request, old(Now()), Now(), LinksUpTo(request.store, e, row, k))
      {
        var f := FieldsOf(request.store, e)[k];
        ghost var before := LinksUpTo(request.store, e, row, k);
        assert before + [] == before;
        if f.name in row.links && row.links[f.name] != "" {
          var name := row.links[f.name];
          var found := ResolveLinkTarget(request.store, e, f);
          var l := ExportLink(Key(e, row.name), f.name, found, name);
          ghost var was := Now();
          links := links + [l];
          if found.Some? && request.includeLinks { EnqueueOne(found.value, name); }
          assert LinksUpTo(request.store, e, row, k + 1) == before + [l];
          OneMoreQueued(request, old(Now()), was, Now(), before, l);
        }
      }
    }

    /** Adds a Record that is not gathered yet, with its links. */
    method AddRecord(e: Identity, row: Record)
      requires Sound(request, Now()) && row in RowsOf(request.store, e) && IsNeeded(request, Key(e, row.name))
      modifies this`records, this`links, this`queue
      ensures Sound(request, Now()) && Grew(old(Now()), Now())
      ensures records.Keys == old(records.Keys) + {Key(e, row.name)}
    {
      if Key(e, row.name) in records { return; }
      records := records[Key(e, row.name) := row];
      ghost var mid := Now();
      CollectLinks(e, row);
      RecordAdded(request, old(Now()), mid, Now(), e, row);
    }

    /** Adds Records of one Entity. */
    method AddRecords(e: Identity, rows: seq<Record>)
      requires Sound(request, Now()) && RowsNeeded(request, e, rows)
      modifies this`records, this`links, this`queue
      ensures Sound(request, Now()) && Grew(old(Now()), Now())
      ensures records.Keys == old(records.Keys) + KeysOf(e, rows)
    {
      assert KeysOf(e, rows[..0]) == {};
      for i := 0 to |rows|
        invariant Sound(request, Now()) && Grew(old(Now()), Now())
        invariant records.Keys == old(records.Keys) + KeysOf(e, rows[..i])
      {
        ghost var mid := Now();
        AddRecord(e, rows[i]);
        GrewFurther(old(Now()), mid, Now());
        KeysOfMore(e, rows, i);
      }
      assert rows[..|rows|] == rows;
    }

    method FindByName(e: Identity, name: string) returns (r: Option<Record>)
      ensures r == FindRow(RowsOf(request.store, e), name)
    {
      r := FindRow(RowsOf(request.store, e), name);
    }

    /** The first waiting item: a whole Entity or one Record, each processed once. */
    method ProcessNext()
      requires Consistent(request, Now()) && queue != []
      modifies this
      ensures Consistent(request, Now()) && old(records.Keys) <= records.Keys
      ensures records.Keys == old(records.Keys) ==> |queue| < |old(queue)|
    {
      var item := queue[0];
      queue := queue[1..];
      if item.All? {
        if item.entity in processedAll {
          return;
        }
        ProcessAll(old(Now()), item.entity);
      } else {
        if item.entity in exportAll || Key(item.entity, item.name) in processedOne {
          return;
        }
        ProcessOne(old(Now()), item.entity, item.name);
      }
    }

    method ProcessAll(ghost was: State, e: Identity)
      requires Consistent(request, was) && was.queue != [] && was.queue[0] == All(e)
      requires Now() == was.(queue := was.queue[1..])
      modifies this
      ensures Consistent(request, Now()) && was.records.Keys <= records.Keys
      ensures records.Keys == was.records.Keys ==> queue == was.queue[1..]
    {
      var rows := ListAll(request.store, e);
      processedAll := processedAll + {e};
      ghost var mid := Now();
      AllTaken(request, was, mid);
      AddRecords(e, rows);
      AllAdded(request, was, mid, Now());
    }

    method ProcessOne(ghost was: State, e: Identity, name: string)
      requires Consistent(request, was) && was.queue != [] && was.queue[0] == One(e, name)
      requires Now() == was.(queue := was.queue[1..])
      modifies this
      ensures Consistent(request, Now()) && was.records.Keys <= records.Keys
      ensures records.Keys == was.records.Keys ==> queue == was.queue[1..]
    {
      var row := FindByName(e, name);
      processedOne := processedOne + {Key(e, name)};
      ghost var mid := Now();
      OneTaken(request, was, mid);
      if row.Some? { AddRecord(e, row.value); }
      OneAdded(request, was, mid, Now(), e, name);
    }

    /** Works the queue off. */
    method Run()
      requires Consistent(request, Now())
      modifies this
      ensures Consistent(request, Now()) && queue == []
    {
      while queue != []
        invariant Consistent(request, Now())
        decreases |AllKeys(request.store) - records.Keys|, |queue|
      {
        ghost var before := records.Keys;
        ProcessNext();
        FewerLeft(request, before, Now());
      }
    }

    /** The links that lead to no gathered Record, each as often as it was met. */
    method UnresolvedLinks() returns (unresolved: seq<ExportLink>)
      ensures unresolved == Leaving(links, records.Keys)
    {
      unresolved := [];
      for i := 0 to |links|
        invariant unresolved == Leaving(links[..i], records.Keys)
      {
        assert links[..i + 1][..i] == links[..i];
        var l := links[i];
        if l.target.None? || Key(l.target.value, l.name) !in records { unresolved := unresolved + [l]; }
      }
      assert links[..|links|] == links;
    }
  }

  /** The links that leave a set of Records, in their order. */
  function Leaving(links: seq<ExportLink>, records: set<Key>): seq<ExportLink> {
    if links == [] then []
    else
      var last := links[|links| - 1];
      Leaving(links[..|links| - 1], records) + if LeadsOut(records, last) then [last] else []
  }

  lemma {:induction false} LeavingExact(links: seq<ExportLink>, records: set<Key>, l: ExportLink)
    ensures multiset(Leaving(links, records))[l] == if LeadsOut(records, l) then multiset(links)[l] else 0
    ensures l in Leaving(links, records) <==> l in links && LeadsOut(records, l)
  {
    if links != [] {
      var front, last := links[..|links| - 1], links[|links| - 1];
      LeavingExact(front, records, l);
      assert links == front + [last];
    }
  }

  predicate LeadsOut(records: set<Key>, l: ExportLink) {
    !(l.target.Some? && Key(l.target.value, l.name) in records)
  }

  // ----- What the steps keep

  /** The queued item is where one of the links leads. */
  predicate Leads(links: seq<ExportLink>, item: Item) {
    item.One? && exists l :: l in links && l.target == Some(item.entity) && l.name == item.name
  }

  /** The queue has grown by where the links lead, and now all of them are handled. */
  ghost predicate Queued(q: Request, a: State, b: State, links: seq<ExportLink>) {
    && a.queue <= b.queue && a.exportAll == b.exportAll && a.processedOne == b.processedOne
    && (forall x :: x in b.queue[|a.queue|..] ==> q.includeLinks && Leads(links, x))
    && (forall l :: l in links && l.name != "" ==> Handled(q, b, l))
  }

  lemma InLonger(a: seq<Item>, b: seq<Item>, x: Item)
    requires a <= b && x in a
    ensures x in b
  {
    var i :| 0 <= i < |a| && a[i] == x;
    assert b[i] == x;
  }

  lemma HandledStays(q: Request, a: State, b: State, l: ExportLink)
    requires Handled(q, a, l) && a.queue <= b.queue && a.exportAll == b.exportAll && a.processedOne <= b.processedOne
    ensures Handled(q, b, l)
  {
    if l.target.Some? && One(l.target.value, l.name) in a.queue { InLonger(a.queue, b.queue, One(l.target.value, l.name)); }
  }

  lemma LeadsStill(links: seq<ExportLink>, l: ExportLink, item: Item)
    requires Leads(links, item)
    ensures Leads(links + [l], item)
  {
    var x :| x in links && x.target == Some(item.entity) && x.name == item.name;
    assert x in links + [l];
  }

  lemma OneMoreQueued(q: Request, a: State, b: State, c: State, links: seq<ExportLink>, l: ExportLink)
    requires Queued(q, a, b, links) && c.exportAll == b.exportAll && c.processedOne == b.processedOne && l.name != ""
    requires c.queue ==
      if q.includeLinks && l.target.Some? && l.target.value !in b.exportAll && Key(l.target.value, l.name) !in b.processedOne
      then b.queue + [One(l.target.value, l.name)] else b.queue
    ensures Queued(q, a, c, links + [l])
  {
    var n := |a.queue|;
    assert c.queue[n..] == b.queue[n..] || c.queue[n..] == b.queue[n..] + [One(l.target.value, l.name)];
    forall x | x in c.queue[n..] ensures q.includeLinks && Leads(links + [l], x) {
      if x in b.queue[n..] { LeadsStill(links, l, x); } else { assert l in links + [l]; }
    }
    forall x | x in links + [l] && x.name != "" ensures Handled(q, c, x) {
      if x in links { HandledStays(q, b, c, x); }
    }
  }

  lemma {:induction false} LinksHaveNames(store: Store, e: Identity, row: Record, k: nat)
    requires k <= |FieldsOf(store, e)|
    ensures forall l :: l in LinksUpTo(store, e, row, k) ==> l.name != ""
  {
    if k > 0 { LinksHaveNames(store, e, row, k - 1); }
  }

  lemma RowIsStored(q: Request, e: Identity, row: Record)
    requires ValidStore(q.store) && row in RowsOf(q.store, e)
    ensures Stored(q, Key(e, row.name), row) && LinksOf(q.store, Key(e, row.name)) == LinksOfRow(q.store, e, row)
  {
    var i :| 0 <= i < |RowsOf(q.store, e)| && RowsOf(q.store, e)[i] == row;
    var found := FindRow(RowsOf(q.store, e), row.name).value;
    var j :| 0 <= j < |RowsOf(q.store, e)| && RowsOf(q.store, e)[j] == found;
    assert i == j;
  }

  lemma GrewFurther(a: State, b: State, c: State)
    requires Grew(a, b) && Grew(b, c)
    ensures Grew(a, c)
  {
  }

  lemma KeysOfMore(e: Identity, rows: seq<Record>, i: nat)
    requires i < |rows|
    ensures KeysOf(e, rows[..i + 1]) == KeysOf(e, rows[..i]) + {Key(e, rows[i].name)}
  {
    var all, front := rows[..i + 1], rows[..i];
    forall k | k in KeysOf(e, front) ensures k in KeysOf(e, all) {
      var j :| 0 <= j < i && k == Key(e, front[j].name);
      assert all[j] == front[j];
    }
    assert all[i] == rows[i];
    forall k | k in KeysOf(e, all) ensures k in KeysOf(e, front) || k == Key(e, rows[i].name) {
      var j :| 0 <= j < i + 1 && k == Key(e, all[j].name);
      if j < i { assert front[j] == all[j]; }
    }
  }

  lemma RecordAdded(q: Request, a: State, mid: State, b: State, e: Identity, row: Record)
    requires Sound(q, a) && row in RowsOf(q.store, e) && IsNeeded(q, Key(e, row.name))
    requires mid == a.(records := a.records[Key(e, row.name) := row])
    requires b.records == mid.records && b.links == a.links + LinksOfRow(q.store, e, row)
    requires Queued(q, mid, b, LinksOfRow(q.store, e, row))
    ensures Sound(q, b)
  {
    var links := LinksOfRow(q.store, e, row);
    RowIsStored(q, e, row);
    LinksHaveNames(q.store, e, row, |FieldsOf(q.store, e)|);
    QueueStaysNeeded(q, a, mid, b, Key(e, row.name));
    forall l | l in b.links ensures Gathered(q, b, l) && Handled(q, b, l) {
      if l in a.links {
        var x :| x in a.records && l in LinksOf(q.store, x);
        assert x in b.records;
        HandledStays(q, a, b, l);
      } else {
        assert l in links && Key(e, row.name) in b.records && l in LinksOf(q.store, Key(e, row.name));
      }
    }
  }

  lemma QueueStaysNeeded(q: Request, a: State, mid: State, b: State, k: Key)
    requires IsNeeded(q, k) && mid.queue == a.queue && Queued(q, mid, b, LinksOf(q.store, k))
    requires forall i :: 0 <= i < |a.queue| ==> ItemNeeded(q, a.queue[i])
    ensures forall i :: 0 <= i < |b.queue| ==> ItemNeeded(q, b.queue[i])
  {
    forall i | 0 <= i < |b.queue| ensures ItemNeeded(q, b.queue[i]) {
      if i < |a.queue| {
        assert b.queue[i] == a.queue[i];
      } else {
        var more := b.queue[|a.queue|..];
        assert more[i - |a.queue|] == b.queue[i];
        assert b.queue[i] in more && Leads(LinksOf(q.store, k), b.queue[i]);
        LeadsToNeeded(q, k, b.queue[i]);
      }
    }
  }

  lemma LeadsToNeeded(q: Request, k: Key, item: Item)
    requires q.includeLinks && IsNeeded(q, k) && Leads(LinksOf(q.store, k), item)
    ensures ItemNeeded(q, item)
  {
    var l :| l in LinksOf(q.store, k) && l.target == Some(item.entity) && l.name == item.name;
    if Exists(q.store, Key(item.entity, item.name)) {
      forall s | Closed(q.store, q.target, q.includeLinks, s) ensures Key(item.entity, item.name) in s {
        assert k in s;
      }
    }
  }

  /** An Entity is taken from the queue: its Records are all needed. */
  lemma AllTaken(q: Request, a: State, b: State)
    requires Consistent(q, a) && a.queue != [] && a.queue[0].All?
    requires b == a.(queue := a.queue[1..], processedAll := a.processedAll + {a.queue[0].entity})
    ensures a.queue[0].entity == q.target && Sound(q, b)
    ensures RowsNeeded(q, q.target, RowsOf(q.store, q.target))
  {
    assert ItemNeeded(q, a.queue[0]);
    assert forall i :: 0 <= i < |b.queue| ==> b.queue[i] == a.queue[i + 1];
    forall l | l in b.links ensures Handled(q, b, l) { assert Handled(q, a, l); }
    assert forall l :: Gathered(q, a, l) ==> Gathered(q, b, l);
    forall i, s | 0 <= i < |RowsOf(q.store, q.target)| && Closed(q.store, q.target, q.includeLinks, s)
      ensures Key(q.target, RowsOf(q.store, q.target)[i].name) in s
    {
    }
  }

  lemma AllAdded(q: Request, a: State, mid: State, b: State)
    requires WorkDone(q, a) && Sound(q, b) && Grew(mid, b) && a.queue != []
    requires mid == a.(queue := a.queue[1..], processedAll := a.processedAll + {q.target})
    requires b.records.Keys == mid.records.Keys + KeysOf(q.target, RowsOf(q.store, q.target))
    ensures Consistent(q, b)
  {
    var rows := RowsOf(q.store, q.target);
    forall i | 0 <= i < |rows| ensures Key(q.target, rows[i].name) in b.records {
      assert Key(q.target, rows[i].name) in KeysOf(q.target, rows);
    }
  }

  /** A name is taken from the queue and marked; when such a Record exists, it is needed. */
  lemma OneTaken(q: Request, a: State, b: State)
    requires Consistent(q, a) && a.queue != [] && a.queue[0].One?
    requires b == a.(queue := a.queue[1..], processedOne := a.processedOne + {Key(a.queue[0].entity, a.queue[0].name)})
    ensures Sound(q, b)
    ensures var k := Key(a.queue[0].entity, a.queue[0].name);
      FindRow(RowsOf(q.store, k.of), k.name).Some? ==> IsNeeded(q, k)
  {
    assert ItemNeeded(q, a.queue[0]);
    assert forall i :: 0 <= i < |b.queue| ==> b.queue[i] == a.queue[i + 1];
    forall l | l in b.links ensures Handled(q, b, l) { assert Handled(q, a, l); }
    assert forall l :: Gathered(q, a, l) ==> Gathered(q, b, l);
  }

  lemma OneAdded(q: Request, a: State, mid: State, b: State, e: Identity, name: string)
    requires WorkDone(q, a) && Sound(q, b) && Grew(mid, b) && a.queue != [] && a.queue[0].One?
    requires mid == a.(queue := a.queue[1..], processedOne := a.processedOne + {Key(e, name)})
    requires FindRow(RowsOf(q.store, e), name).Some? ==> Key(e, name) in b.records
    ensures Consistent(q, b)
  {
    if All(q.target) in mid.queue { InLonger(mid.queue, b.queue, All(q.target)); }
  }

  lemma FewerLeft(q: Request, before: set<Key>, s: State)
    requires Consistent(q, s) && before <= s.records.Keys
    ensures |AllKeys(q.store) - s.records.Keys| <= |AllKeys(q.store) - before|
    ensures before != s.records.Keys ==> |AllKeys(q.store) - s.records.Keys| < |AllKeys(q.store) - before|
  {
    var after := s.records.Keys;
    forall k | k in after ensures k in AllKeys(q.store) { assert Stored(q, k, s.records[k]); }
    SmallerRest(AllKeys(q.store), before, after);
  }

  lemma SmallerRest(all: set<Key>, before: set<Key>, after: set<Key>)
    requires before <= after <= all
    ensures |all - after| <= |all - before|
    ensures before != after ==> |all - after| < |all - before|
  {
    var a, b := all - before, all - after;
    assert a == b + (after - before);
    if before != after { assert after - before != {}; }
  }

  // ----- The export

  /**
    The gathered Records are the least closed set; the unresolved links are exactly
    those of gathered Records that lead out of it.
   */
  method PlanExport(q: Request) returns (records: map<Key, Record>, unresolved: seq<ExportLink>)
    requires ValidStore(q.store)
    ensures Closed(q.store, q.target, q.includeLinks, records.Keys)
    ensures forall s :: Closed(q.store, q.target, q.includeLinks, s) ==> records.Keys <= s
    ensures forall k :: k in records ==> Stored(q, k, records[k])
    ensures forall l :: l in unresolved <==>
      (exists k :: k in records && l in LinksOf(q.store, k)) && LeadsOut(records.Keys, l)
  {
    var planner := new ExportPlanner(q);
    planner.Run();
    records := planner.records;
    unresolved := planner.UnresolvedLinks();
    EmptyQueueIsClosed(q, planner.Now());
    LeavingIsUnresolved(q, planner.Now());
  }

  lemma LeavingIsUnresolved(q: Request, s: State)
    requires Consistent(q, s)
    ensures forall l :: l in Leaving(s.links, s.records.Keys) <==>
      (exists k :: k in s.records && l in LinksOf(q.store, k)) && LeadsOut(s.records.Keys, l)
  {
    forall l ensures l in Leaving(s.links, s.records.Keys) <==>
      (exists k :: k in s.records && l in LinksOf(q.store, k)) && LeadsOut(s.records.Keys, l)
    {
      LeavingExact(s.links, s.records.Keys, l);
      if l in s.links { assert Gathered(q, s, l); }
    }
  }

  lemma EmptyQueueIsClosed(q: Request, s: State)
    requires Consistent(q, s) && s.queue == []
    ensures Closed(q.store, q.target, q.includeLinks, s.records.Keys)
    ensures forall t :: Closed(q.store, q.target, q.includeLinks, t) ==> s.records.Keys <= t
  {
    if q.includeLinks {
      forall k, l | k in s.records && l in LinksOf(q.store, k) && l.target.Some? && Exists(q.store, Key(l.target.value, l.name))
        ensures Key(l.target.value, l.name) in s.records
      {
        HandledIsGathered(q, s, l);
      }
    }
    forall t | Closed(q.store, q.target, q.includeLinks, t) ensures s.records.Keys <= t {
    }
  }

  lemma HandledIsGathered(q: Request, s: State, l: ExportLink)
    requires WorkDone(q, s) && s.queue == [] && Handled(q, s, l) && q.includeLinks && l.target.Some?
    requires Exists(q.store, Key(l.target.value, l.name))
    ensures Key(l.target.value, l.name) in s.records
  {
  }

  /** With links included, a link is unresolved exactly when its target cannot be told or is not stored. */
  lemma UnresolvedIffMissing(q: Request, records: map<Key, Record>, k: Key, l: ExportLink)
    requires q.includeLinks && Closed(q.store, q.target, true, records.Keys) && k in records && l in LinksOf(q.store, k)
    requires forall x :: x in records ==> Stored(q, x, records[x])
    ensures LeadsOut(records.Keys, l) <==> l.target.None? || !Exists(q.store, Key(l.target.value, l.name))
  {
    if l.target.Some? && Key(l.target.value, l.name) in records {
      var x := Key(l.target.value, l.name);
      assert Stored(q, x, records[x]);
    }
  }
}
