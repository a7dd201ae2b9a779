/**
 `identify_resource_from_db` of src/identify.rs: the resource an address
 belongs to. The statement joins resources to address rows and compares the
 stored text with the printed form of the address; the engine returns the
 first joined row it meets, which the model leaves open.
 */
module Identify {
  import opened Base
  import opened Ip
  import opened Inventory
  import opened Db

  /** The live resources joined to an address row whose text is the printed
      form of `ip`. The inner join drops orphaned address rows. */
  function Matching(s: Store, ip: IpAddr): (ids: set<nat>)
    ensures ids <= s.resources.Keys
  {
    set id | id in s.resources && exists a :: a in Group(s.ips, id) && ToString(a) == ToString(ip)
  }

  /** The line reported for a match */
  function Line(ip: IpAddr, row: ResourceRow): string {
    "IP: " + ToString(ip) + " - Type: " + row.resourceType + ", Name: " + row.name
      + ", Region: " + row.region + ", ARN/ID: " + row.arn
  }

  /** `identify_resource_from_db`. `available` says whether the database
      opens and the statement prepares; `fetchFails` whether reading the
      first row fails. A failed open or prepare is an error; a failed fetch,
      like no row at all, is no answer. Otherwise the line describes one
      matching resource, whichever the engine meets first. */
  method Identify(s: Store, ip: IpAddr, available: bool, fetchFails: bool)
    returns (out: Result<Option<string>>)
    ensures out.Err? <==> !available
    ensures out.Ok? ==> (out.value.Some? <==> !fetchFails && Matching(s, ip) != {})
    ensures out.Ok? && out.value.Some? ==>
      exists id :: id in Matching(s, ip) && out.value.value == Line(ip, s.resources[id])
  {
    if !available {
      return Err(Failed("unable to open the database or prepare the lookup"));
    }
    var ids := Matching(s, ip);
    if fetchFails || ids == {} {
      return Ok(None);
    }
    var id :| id in ids;
    out := Ok(Some(Line(ip, s.resources[id])));
  }

  /** The comparison is exact: a live resource matches an address exactly
      when that very address is among its rows. */
  lemma MatchIsExact(s: Store, ip: IpAddr, id: nat)
    ensures id in Matching(s, ip) <==> id in s.resources && ip in Group(s.ips, id)
  {
    if id in Matching(s, ip) {
      var a :| a in Group(s.ips, id) && ToString(a) == ToString(ip);
      ToStringInjective(a, ip);
    }
  }

  /** A resource whose id no live row carries is never reported, whatever
      rows it left behind. */
  lemma OrphanNeverMatches(s: Store, ip: IpAddr, id: nat)
    requires id !in s.resources
    ensures id !in Matching(s, ip)
  {}

  /** Saving a record makes each of its addresses identify it. */
  lemma SavedAddressIsFound(s: Store, r: CollectedResource, ip: IpAddr)
    requires ip in r.ips
    ensures var s' := SaveRecord(s, r);
      s.nextId in Matching(s', ip) && Line(ip, s'.resources[s.nextId]) == Line(ip, RowOf(r))
  {
    var s' := SaveRecord(s, r);
    assert ip in Group(s'.ips, s.nextId);
  }

  /** After a batch is saved, an address of the batch's last record for an
      arn finds that record's live row. */
  lemma {:induction false} FoundAfterBatch(s: Store, batch: seq<CollectedResource>, j: nat, ip: IpAddr)
    requires Valid(s)
    requires j < |batch| && ip in batch[j].ips
    requires forall k :: j < k < |batch| ==> batch[k].arn != batch[j].arn
    ensures exists id ::
      id in Matching(ApplyBatch(s, batch), ip) && ApplyBatch(s, batch).resources[id] == RowOf(batch[j])
  {
    var s' := ApplyBatch(s, batch);
    SavedArnHasOneRow(s, batch, j);
    var id :| id in s'.resources && s'.resources[id].arn == batch[j].arn
      && JoinedRow(s', id) == Expected(batch[j]);
    assert ip in IpView(batch[j].ips);
    assert ip in Group(s'.ips, id);
    MatchIsExact(s', ip, id);
    assert s'.resources[id] == RowOf(batch[j]);
  }
}
