/**
 The relational store of src/db.rs and `save_resources`.

 The three tables, each keyed by its primary key:
 - resources: rowid -> (arn, region, resource_type, name, details), arn UNIQUE;
 - tags: (resource_id, key) -> value;
 - ip_addresses: (resource_id, ip_address) -> is_public.
 The two child tables are held grouped by their first key column: `tags[id]`
 is the set of tag rows whose resource_id is `id`, as a map from key to value,
 which is the same set of rows as the table keyed by the pair.

 `INSERT OR REPLACE` without an explicit id deletes the row holding the same
 arn and inserts the new row under a new rowid, above every rowid in use. The
 schema declares `ON DELETE CASCADE`, and the program never sets the
 `foreign_keys` pragma, so whether the child rows of a replaced resource are
 deleted depends on the engine's compiled-in default. `SaveRecord` models an
 engine that leaves them in their tables, only unreachable because no live
 resource carries their id any more; `SaveRecordCascade` models one that
 deletes them. The properties of the store are stated over the joined view,
 which is the same under both.
 */
module Db {
  import opened Base
  import opened Ip
  import opened Inventory

  /** A row of the `resources` table */
  datatype ResourceRow = ResourceRow(
    arn: string,
    region: string,
    resourceType: string,
    name: string,
    details: Json)

  /** The database file: the three tables and the rowid the next insert gets */
  datatype Store = Store(
    resources: map<nat, ResourceRow>,
    tags: map<nat, map<string, string>>,
    ips: map<nat, map<IpAddr, bool>>,
    nextId: nat)

  /** A database `init_db` has just created */
  const Empty := Store(map[], map[], map[], 1)

  /** The child rows carrying `id` (none when the table has no group for it) */
  function Group<K, V>(table: map<nat, map<K, V>>, id: nat): map<K, V> {
    if id in table then table[id] else map[]
  }

  /** The schema's constraints and the allocator's promise:
      - arn is UNIQUE among live rows;
      - the next rowid is above every id used so far, live or left in a child table. */
  ghost predicate Valid(s: Store) {
    && (forall i, j :: i in s.resources && j in s.resources && s.resources[i].arn == s.resources[j].arn ==> i == j)
    && (forall i :: i in s.resources ==> i < s.nextId)
    && (forall i :: i in s.tags ==> i < s.nextId)
    && (forall i :: i in s.ips ==> i < s.nextId)
  }

  /** Every address row holds its address's classification. */
  ghost predicate AddressRowsWellFormed(s: Store) {
    forall i, a :: i in s.ips && a in s.ips[i] ==> s.ips[i][a] == IsPublic(a)
  }

  lemma EmptyIsValid()
    ensures Valid(Empty) && AddressRowsWellFormed(Empty)
  {}

  // ---------------------------------------------------------------------
  // Writing
  // ---------------------------------------------------------------------

  function RowOf(r: CollectedResource): ResourceRow {
    ResourceRow(r.arn, r.region, r.resourceType, r.name, r.details)
  }

  /** The texts of a list of addresses */
  function IpTexts(ips: seq<IpAddr>): set<string> {
    set ip | ip in ips :: ToString(ip)
  }

  /** The address rows a record should leave, as a set: each of its
      addresses with its classification */
  function IpView(ips: seq<IpAddr>): map<IpAddr, bool> {
    map ip | ip in ips :: IsPublic(ip)
  }

  lemma IpViewCons(ips: seq<IpAddr>)
    requires |ips| > 0
    ensures IpView(ips) == IpView(ips[1..])[ips[0] := IsPublic(ips[0])]
  {
    assert ips == [ips[0]] + ips[1..];
    assert forall ip :: ip in ips <==> ip == ips[0] || ip in ips[1..];
  }

  /** Writing a row before a union that holds the same row, or after it, is
      the same. */
  lemma UpdateThenUnion<K, V>(m: map<K, V>, v: map<K, V>, k: K, x: V)
    requires k in v ==> v[k] == x
    ensures m[k := x] + v == m + v[k := x]
  {}

  /** Updating after a union is updating the right operand. */
  lemma UnionThenUpdate<K, V>(m: map<K, V>, v: map<K, V>, k: K, x: V)
    ensures (m + v)[k := x] == m + v[k := x]
  {}

  /** The loop of `INSERT OR REPLACE INTO ip_addresses`, one address at a time
      in list order, leaves the same rows as adding them all at once: a
      repeated address rewrites the same row. */
  function WriteIps(rows: map<IpAddr, bool>, ips: seq<IpAddr>): (rows': map<IpAddr, bool>)
    ensures rows' == rows + IpView(ips)
    decreases |ips|
  {
    if |ips| == 0 then
      assert IpView(ips) == map[];
      rows
    else
      var ip := ips[0];
      var rest := WriteIps(rows[ip := IsPublic(ip)], ips[1..]);
      IpViewCons(ips);
      UpdateThenUnion(rows, IpView(ips[1..]), ip, IsPublic(ip));
      rest
  }

  /** One iteration of the loop over the batch: the upsert of the resource
      row, then its tags, then its addresses, all under the new rowid. */
  function SaveRecord(s: Store, r: CollectedResource): (s': Store)
    ensures s'.nextId == s.nextId + 1
    ensures s'.resources.Keys == (set i | i in s.resources && s.resources[i].arn != r.arn) + {s.nextId}
  {
    var id := s.nextId;
    var kept := map i | i in s.resources && s.resources[i].arn != r.arn :: s.resources[i];
    Store(
      kept[id := RowOf(r)],
      s.tags[id := Group(s.tags, id) + r.tags],
      s.ips[id := WriteIps(Group(s.ips, id), r.ips)],
      id + 1)
  }

  /** The loop over the batch, in batch order */
  function ApplyBatch(s: Store, batch: seq<CollectedResource>): Store
    decreases |batch|
  {
    if |batch| == 0 then s
    else SaveRecord(ApplyBatch(s, batch[..|batch| - 1]), batch[|batch| - 1])
  }

  /** Saving one batch and then another is saving their concatenation. */
  lemma {:induction false} ApplyBatchAppend(s: Store, a: seq<CollectedResource>, b: seq<CollectedResource>)
    ensures ApplyBatch(ApplyBatch(s, a), b) == ApplyBatch(s, a + b)
    decreases |b|
  {
    if |b| > 0 {
      var init, last := b[..|b| - 1], b[|b| - 1];
      ApplyBatchAppend(s, a, init);
      assert b == init + [last];
      assert a + b == (a + init) + [last];
      ApplyBatchSnoc(ApplyBatch(s, a), init, last);
      ApplyBatchSnoc(s, a + init, last);
    } else {
      assert a + b == a;
    }
  }

  /** Saving a batch with one more record is saving that record last. */
  lemma ApplyBatchSnoc(s: Store, init: seq<CollectedResource>, r: CollectedResource)
    ensures ApplyBatch(s, init + [r]) == SaveRecord(ApplyBatch(s, init), r)
  {
    assert (init + [r])[..|init + [r]| - 1] == init;
  }

  /** How many statements the batch executes inside the transaction */
  function StatementCount(batch: seq<CollectedResource>): nat {
    if |batch| == 0 then 0
    else 1 + |batch[0].tags| + |batch[0].ips| + StatementCount(batch[1..])
  }

  /** `save_resources`: the batch inside one transaction. The engine may reject
      any statement: `fault` is the position of the first one it rejects
      (0 is BEGIN, then the batch's statements, then COMMIT). Any rejection
      rolls the transaction back and leaves the store as it was. */
  function SaveResources(s: Store, batch: seq<CollectedResource>, fault: Option<nat>): (out: (Store, Result<()>))
    ensures out.1.Ok? <==> fault.None? || fault.value > StatementCount(batch) + 1
    ensures out.1.Err? ==> out.0 == s
    ensures out.1.Ok? ==> out.0 == ApplyBatch(s, batch)
  {
    if fault.Some? && fault.value <= StatementCount(batch) + 1
    then (s, Err(Failed("statement rejected; transaction rolled back")))
    else (ApplyBatch(s, batch), Ok(()))
  }

  // ---------------------------------------------------------------------
  // The joined view
  // ---------------------------------------------------------------------

  /** A live resource with the child rows that carry its id */
  datatype Joined = Joined(
    arn: string,
    region: string,
    resourceType: string,
    name: string,
    details: Json,
    tags: map<string, string>,
    ips: map<IpAddr, bool>)

  function JoinedRow(s: Store, id: nat): Joined
    requires id in s.resources
  {
    var row := s.resources[id];
    Joined(row.arn, row.region, row.resourceType, row.name, row.details, Group(s.tags, id), Group(s.ips, id))
  }

  /** The arns of the live resources */
  function Arns(s: Store): set<string> {
    set id | id in s.resources :: s.resources[id].arn
  }

  /** The live id holding an arn (unique in a valid store) */
  ghost function IdOf(s: Store, arn: string): nat
    requires arn in Arns(s)
  {
    var id :| id in s.resources && s.resources[id].arn == arn; id
  }

  /** The live resources joined to their child rows, keyed by arn, the natural
      key the program upserts by; orphaned child rows do not appear. */
  ghost function ArnView(s: Store): map<string, Joined> {
    map arn | arn in Arns(s) :: JoinedRow(s, IdOf(s, arn))
  }

  /** What a saved record should look like when joined */
  function Expected(r: CollectedResource): Joined {
    Joined(r.arn, r.region, r.resourceType, r.name, r.details, r.tags, IpView(r.ips))
  }

  /** What a batch should leave: for each arn, the last record carrying it */
  function BatchView(batch: seq<CollectedResource>): map<string, Joined>
    decreases |batch|
  {
    if |batch| == 0 then map[]
    else
      var r := batch[|batch| - 1];
      BatchView(batch[..|batch| - 1])[r.arn := Expected(r)]
  }

  // ---------------------------------------------------------------------
  // Properties of a save
  // ---------------------------------------------------------------------

  lemma IdOfIsTheId(s: Store, id: nat)
    requires Valid(s) && id in s.resources
    ensures s.resources[id].arn in Arns(s) && IdOf(s, s.resources[id].arn) == id
  {}

  /** A save keeps every address row well formed. */
  lemma SaveRecordAddressRows(s: Store, r: CollectedResource)
    requires AddressRowsWellFormed(s)
    ensures AddressRowsWellFormed(SaveRecord(s, r))
  {
    var s' := SaveRecord(s, r);
    var id := s.nextId;
    assert s'.ips[id] == Group(s.ips, id) + IpView(r.ips);
  }

  /** A batch keeps every address row well formed. */
  lemma {:induction false} ApplyBatchAddressRows(s: Store, batch: seq<CollectedResource>)
    requires AddressRowsWellFormed(s)
    ensures AddressRowsWellFormed(ApplyBatch(s, batch))
    decreases |batch|
  {
    if |batch| > 0 {
      ApplyBatchAddressRows(s, batch[..|batch| - 1]);
      SaveRecordAddressRows(ApplyBatch(s, batch[..|batch| - 1]), batch[|batch| - 1]);
    }
  }

  /** A save keeps the schema's constraints. */
  lemma SaveRecordValid(s: Store, r: CollectedResource)
    requires Valid(s)
    ensures Valid(SaveRecord(s, r))
  {
    var s' := SaveRecord(s, r);
    var id := s.nextId;
    forall i, j | i in s'.resources && j in s'.resources && s'.resources[i].arn == s'.resources[j].arn
      ensures i == j
    {
      if i != id && j != id {
        assert s'.resources[i] == s.resources[i] && s'.resources[j] == s.resources[j];
      }
    }
  }

  lemma SaveRecordArns(s: Store, r: CollectedResource)
    requires Valid(s)
    ensures Arns(SaveRecord(s, r)) == Arns(s) + {r.arn}
  {
    var s' := SaveRecord(s, r);
    assert s'.resources[s.nextId].arn == r.arn;
    forall a | a in Arns(s)
      ensures a in Arns(s')
    {
      var i :| i in s.resources && s.resources[i].arn == a;
      if a != r.arn {
        assert i in s'.resources && s'.resources[i].arn == a;
      }
    }
  }

  /** The new row joins exactly the record. */
  lemma SaveRecordNewRow(s: Store, r: CollectedResource)
    requires Valid(s)
    ensures s.nextId in SaveRecord(s, r).resources
    ensures JoinedRow(SaveRecord(s, r), s.nextId) == Expected(r)
  {
    var s' := SaveRecord(s, r);
    var id := s.nextId;
    assert Group(s'.tags, id) == r.tags;
    assert Group(s'.ips, id) == IpView(r.ips);
  }

  /** A live row with another arn keeps its id and its joined child rows. */
  lemma SaveRecordOtherRow(s: Store, r: CollectedResource, i: nat)
    requires Valid(s)
    requires i in s.resources && s.resources[i].arn != r.arn
    ensures i in SaveRecord(s, r).resources
    ensures JoinedRow(SaveRecord(s, r), i) == JoinedRow(s, i)
  {}

  /** One record: its arn now shows the record, every other arn is untouched. */
  lemma SaveRecordView(s: Store, r: CollectedResource)
    requires Valid(s)
    ensures Valid(SaveRecord(s, r))
    ensures ArnView(SaveRecord(s, r)) == ArnView(s)[r.arn := Expected(r)]
  {
    var s' := SaveRecord(s, r);
    var id := s.nextId;
    SaveRecordValid(s, r);
    SaveRecordArns(s, r);
    SaveRecordNewRow(s, r);
    IdOfIsTheId(s', id);
    forall a | a in Arns(s') && a != r.arn
      ensures ArnView(s')[a] == ArnView(s)[a]
    {
      var i := IdOf(s', a);
      assert i in s.resources && s.resources[i].arn == a;
      IdOfIsTheId(s, i);
      SaveRecordOtherRow(s, r, i);
    }
  }

  /** The whole batch: the view of every arn in the batch is its last record's,
      every other arn keeps its view, and the store stays valid. */
  lemma {:induction false} ApplyBatchView(s: Store, batch: seq<CollectedResource>)
    requires Valid(s)
    ensures Valid(ApplyBatch(s, batch))
    ensures ArnView(ApplyBatch(s, batch)) == ArnView(s) + BatchView(batch)
    decreases |batch|
  {
    if |batch| > 0 {
      var init := batch[..|batch| - 1];
      var r := batch[|batch| - 1];
      var mid := ApplyBatch(s, init);
      ApplyBatchView(s, init);
      SaveRecordView(mid, r);
      assert ApplyBatch(s, batch) == SaveRecord(mid, r);
      assert BatchView(batch) == BatchView(init)[r.arn := Expected(r)];
      UnionThenUpdate(ArnView(s), BatchView(init), r.arn, Expected(r));
    }
  }

  /** The batch view holds, for an arn, the last record with that arn. */
  lemma {:induction false} BatchViewLastWins(batch: seq<CollectedResource>, j: nat)
    requires j < |batch|
    requires forall k :: j < k < |batch| ==> batch[k].arn != batch[j].arn
    ensures batch[j].arn in BatchView(batch) && BatchView(batch)[batch[j].arn] == Expected(batch[j])
    decreases |batch|
  {
    if j < |batch| - 1 {
      BatchViewLastWins(batch[..|batch| - 1], j);
    }
  }

  /** The batch view has exactly the batch's arns. */
  lemma {:induction false} BatchViewKeys(batch: seq<CollectedResource>)
    ensures BatchView(batch).Keys == set r | r in batch :: r.arn
    decreases |batch|
  {
    if |batch| > 0 {
      var init := batch[..|batch| - 1];
      BatchViewKeys(init);
      assert batch == init + [batch[|batch| - 1]];
    }
  }

  /** After a save every arn of the batch has exactly one live row, and that
      row joins the last record with that arn. */
  lemma SavedArnHasOneRow(s: Store, batch: seq<CollectedResource>, j: nat)
    requires Valid(s)
    requires j < |batch|
    requires forall k :: j < k < |batch| ==> batch[k].arn != batch[j].arn
    ensures var s' := ApplyBatch(s, batch);
      exists id :: id in s'.resources && s'.resources[id].arn == batch[j].arn
        && (forall other :: other in s'.resources && s'.resources[other].arn == batch[j].arn ==> other == id)
        && JoinedRow(s', id) == Expected(batch[j])
  {
    var s' := ApplyBatch(s, batch);
    ApplyBatchView(s, batch);
    BatchViewLastWins(batch, j);
    var a := batch[j].arn;
    assert a in ArnView(s');
    var id := IdOf(s', a);
    assert JoinedRow(s', id) == ArnView(s')[a];
  }

  /** What a caller of `save_resources` sees: a committed batch overrides
      the view at each of its arns with the arn's last record; a rejected one
      leaves the view as it was. Either way the store stays valid. */
  lemma SaveResourcesView(s: Store, batch: seq<CollectedResource>, fault: Option<nat>)
    requires Valid(s)
    ensures var out := SaveResources(s, batch, fault);
      && Valid(out.0)
      && (out.1.Ok? ==> ArnView(out.0) == ArnView(s) + BatchView(batch))
      && (out.1.Err? ==> ArnView(out.0) == ArnView(s))
  {
    ApplyBatchView(s, batch);
  }

  /** Saving the same batch twice leaves the same view as saving it once. */
  lemma SaveTwiceSameView(s: Store, batch: seq<CollectedResource>)
    requires Valid(s)
    ensures ArnView(ApplyBatch(ApplyBatch(s, batch), batch)) == ArnView(ApplyBatch(s, batch))
  {
    var once := ApplyBatch(s, batch);
    ApplyBatchView(s, batch);
    ApplyBatchView(once, batch);
    OverrideTwice(ArnView(s), ArnView(once), ArnView(ApplyBatch(once, batch)), BatchView(batch));
  }

  /** Overriding with the same map twice is overriding once. */
  lemma OverrideTwice<K, V>(m: map<K, V>, once: map<K, V>, twice: map<K, V>, v: map<K, V>)
    requires once == m + v && twice == once + v
    ensures twice == once
  {}

  /** Every address of a saved record is stored, joined to the new row, with
      its classification at write time. */
  lemma SavedFlagIsClassification(s: Store, r: CollectedResource, ip: IpAddr)
    requires ip in r.ips
    ensures var s' := SaveRecord(s, r);
      ip in Group(s'.ips, s.nextId) && Group(s'.ips, s.nextId)[ip] == IsPublic(ip)
  {
  }

  // ---------------------------------------------------------------------
  // Foreign-key enforcement
  // ---------------------------------------------------------------------

  /** The child rows of `t` whose resource id is not in `gone` */
  function DropGroups<K, V>(t: map<nat, map<K, V>>, gone: set<nat>): (t': map<nat, map<K, V>>)
    ensures forall i :: Group(t', i) == if i in gone then map[] else Group(t, i)
  {
    map i | i in t && i !in gone :: t[i]
  }

  /** A save on an engine that enforces foreign keys: the delete the REPLACE
      performs cascades to the tag and address rows of the replaced row. */
  function SaveRecordCascade(s: Store, r: CollectedResource): (s': Store)
    ensures s'.nextId == s.nextId + 1
    ensures forall prior :: prior in s.resources && s.resources[prior].arn == r.arn ==>
      Group(s'.tags, prior) == map[] && Group(s'.ips, prior) == map[]
  {
    var saved := SaveRecord(s, r);
    var gone := set i | i in s.resources && s.resources[i].arn == r.arn;
    Store(saved.resources, DropGroups(saved.tags, gone), DropGroups(saved.ips, gone), saved.nextId)
  }

  /** Apart from the replaced rows' children, a cascading save leaves what a
      plain save leaves: the same resources and, for every live row, the same
      tag and address rows. */
  lemma SaveRecordCascadeRows(s: Store, r: CollectedResource)
    requires Valid(s)
    ensures SaveRecordCascade(s, r).resources == SaveRecord(s, r).resources
    ensures SaveRecordCascade(s, r).tags.Keys <= SaveRecord(s, r).tags.Keys
    ensures SaveRecordCascade(s, r).ips.Keys <= SaveRecord(s, r).ips.Keys
    ensures forall i :: i in SaveRecord(s, r).resources ==>
      JoinedRow(SaveRecordCascade(s, r), i) == JoinedRow(SaveRecord(s, r), i)
  {
    var saved := SaveRecord(s, r);
    var c := SaveRecordCascade(s, r);
    var gone := set i | i in s.resources && s.resources[i].arn == r.arn;
    assert c.tags == DropGroups(saved.tags, gone) && c.ips == DropGroups(saved.ips, gone);
    forall i | i in saved.resources
      ensures JoinedRow(c, i) == JoinedRow(saved, i)
    {
      assert i !in gone;
    }
  }

  /** The loop over the batch on an engine that enforces foreign keys */
  function ApplyBatchCascade(s: Store, batch: seq<CollectedResource>): Store
    decreases |batch|
  {
    if |batch| == 0 then s
    else SaveRecordCascade(ApplyBatchCascade(s, batch[..|batch| - 1]), batch[|batch| - 1])
  }

  /** Two stores with the same live rows, joined to the same child rows, have
      the same view; dropping child rows keeps a store valid. */
  lemma SameLiveRowsSameView(a: Store, b: Store)
    requires Valid(a)
    requires b.resources == a.resources && b.nextId == a.nextId
    requires b.tags.Keys <= a.tags.Keys && b.ips.Keys <= a.ips.Keys
    requires forall i :: i in a.resources ==> JoinedRow(b, i) == JoinedRow(a, i)
    ensures Valid(b) && ArnView(b) == ArnView(a)
  {
    assert Arns(b) == Arns(a);
    forall x | x in Arns(b)
      ensures ArnView(b)[x] == ArnView(a)[x]
    {
      IdOfIsTheId(b, IdOf(a, x));
    }
  }

  /** Whether the replaced rows' children are deleted or orphaned, the live
      view after one save is the same, and the store stays valid. */
  lemma SaveRecordCascadeView(s: Store, r: CollectedResource)
    requires Valid(s)
    ensures Valid(SaveRecordCascade(s, r))
    ensures ArnView(SaveRecordCascade(s, r)) == ArnView(SaveRecord(s, r))
  {
    SaveRecordValid(s, r);
    SaveRecordCascadeRows(s, r);
    SameLiveRowsSameView(SaveRecord(s, r), SaveRecordCascade(s, r));
  }

  /** A batch saved with cascading deletes leaves the same live view as one
      saved without: each arn of the batch shows its last record. */
  lemma {:induction false} ApplyBatchCascadeView(s: Store, batch: seq<CollectedResource>)
    requires Valid(s)
    ensures Valid(ApplyBatchCascade(s, batch))
    ensures ArnView(ApplyBatchCascade(s, batch)) == ArnView(s) + BatchView(batch)
    ensures ArnView(ApplyBatchCascade(s, batch)) == ArnView(ApplyBatch(s, batch))
    decreases |batch|
  {
    ApplyBatchView(s, batch);
    if |batch| > 0 {
      var init := batch[..|batch| - 1];
      var r := batch[|batch| - 1];
      var mid := ApplyBatchCascade(s, init);
      ApplyBatchCascadeView(s, init);
      SaveRecordCascadeView(mid, r);
      SaveRecordView(mid, r);
      assert ApplyBatchCascade(s, batch) == SaveRecordCascade(mid, r);
      assert BatchView(batch) == BatchView(init)[r.arn := Expected(r)];
      UnionThenUpdate(ArnView(s), BatchView(init), r.arn, Expected(r));
    }
  }

  /** On an engine that leaves foreign keys unenforced, a replaced
      resource's tag and address rows stay in their tables, unchanged, but no
      live resource carries their id any more. */
  lemma ReplacedRowsAreOrphaned(s: Store, r: CollectedResource, prior: nat)
    requires Valid(s)
    requires prior in s.resources && s.resources[prior].arn == r.arn
    ensures var s' := SaveRecord(s, r);
      && prior !in s'.resources
      && Group(s'.tags, prior) == Group(s.tags, prior)
      && Group(s'.ips, prior) == Group(s.ips, prior)
  {}
}
