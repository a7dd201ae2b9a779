/**
 The read side of src/query.rs: `map_service_name` and `run_query`.

 `run_query` builds a WHERE clause from the service and region filters, one
 `?` placeholder per bound parameter, groups the LEFT JOIN of resources with
 their address rows by resource id, rebuilds each group's address list from
 the comma-joined GROUP_CONCAT, and reads the group's tags through a
 json_group_object subquery. The engine's choices (the order of the groups and
 the order inside a GROUP_CONCAT) are left open: the method picks them
 arbitrarily and its contract holds for every choice.
 */
module Query {
  import opened Base
  import opened Ip
  import opened Text
  import opened Inventory
  import opened Db

  /** `Resource`: one result row */
  datatype Resource = Resource(
    arn: string,
    name: string,
    resourceType: string,
    region: string,
    ips: seq<string>,
    tags: map<string, string>,
    details: Json)

  // ---------------------------------------------------------------------
  // map_service_name
  // ---------------------------------------------------------------------

  /** The seven short names a user may give, each with its resource type */
  const ShortNames: seq<(string, string)> := [
    ("rds", RdsType),
    ("dynamodb", DynamoDbType),
    ("elasticache", ElastiCacheType),
    ("ec2", Ec2Type),
    ("elb", ElbType),
    ("eks", EksType),
    ("route53", Route53Type)
  ]

  /** `map_service_name`: a short name becomes its resource type; anything
      else is taken to be a resource type already. */
  function MapServiceName(short: string): string {
    match short
    case "rds" => "rds:db_instance"
    case "dynamodb" => "dynamodb:table"
    case "elasticache" => "elasticache:cluster"
    case "ec2" => "ec2:instance"
    case "elb" => "elbv2:loadbalancer"
    case "eks" => "eks:pod"
    case "route53" => "route53:hostedzone"
    case _ => short
  }

  predicate IsShortName(name: string) {
    exists i :: 0 <= i < |ShortNames| && ShortNames[i].0 == name
  }

  /** Each short name maps to the resource type its collector stamps. */
  lemma MapShortName(i: nat)
    requires i < |ShortNames|
    ensures MapServiceName(ShortNames[i].0) == ShortNames[i].1
  {}

  /** Any other name passes through unchanged. */
  lemma MapOtherName(name: string)
    requires !IsShortName(name)
    ensures MapServiceName(name) == name
  {
    assert ShortNames[0].0 != name && ShortNames[1].0 != name && ShortNames[2].0 != name;
    assert ShortNames[3].0 != name && ShortNames[4].0 != name && ShortNames[5].0 != name;
    assert ShortNames[6].0 != name;
  }

  /** A resource type maps to itself, so mapping twice is mapping once. */
  lemma MapServiceNameIdempotent(name: string)
    ensures MapServiceName(MapServiceName(name)) == MapServiceName(name)
  {
    var full := MapServiceName(name);
    if IsShortName(name) {
      var j :| 0 <= j < |ShortNames| && ShortNames[j].0 == name;
      MapShortName(j);
      assert ':' in full;
      assert forall i :: 0 <= i < |ShortNames| ==> ':' !in ShortNames[i].0;
    } else {
      MapOtherName(name);
    }
    MapOtherName(full);
  }

  function MapAll(services: seq<string>): (types: seq<string>)
    ensures |types| == |services|
    ensures forall i :: 0 <= i < |services| ==> types[i] == MapServiceName(services[i])
  {
    seq(|services|, i requires 0 <= i < |services| => MapServiceName(services[i]))
  }

  // ---------------------------------------------------------------------
  // The WHERE clause
  // ---------------------------------------------------------------------

  datatype Column = ResourceTypeColumn | RegionColumn

  /** `AND <column> IN (?, …)`, with the values bound to its placeholders */
  datatype Condition = In(column: Column, values: seq<string>)

  /** The conditions `run_query` appends: a filter is added only when its
      list is non-empty, services first. */
  function Conditions(services: seq<string>, regions: seq<string>): (cs: seq<Condition>)
    ensures forall c :: c in cs ==> |c.values| > 0
  {
    (if |services| == 0 then [] else [In(ResourceTypeColumn, MapAll(services))])
    + (if |regions| == 0 then [] else [In(RegionColumn, regions)])
  }

  function ColumnName(c: Column): string {
    match c
    case ResourceTypeColumn => "resource_type"
    case RegionColumn => "region"
  }

  /** One `?` per value, comma-separated */
  function Placeholders(n: nat): string {
    Join(seq(n, i => "?"), ',')
  }

  function ConditionText(c: Condition): string {
    " AND " + ColumnName(c.column) + " IN (" + Placeholders(|c.values|) + ")"
  }

  /** The text appended after `WHERE 1=1` */
  function WhereText(cs: seq<Condition>): string
    decreases |cs|
  {
    if |cs| == 0 then "" else ConditionText(cs[0]) + WhereText(cs[1..])
  }

  /** The bound parameters, in placeholder order */
  function Params(cs: seq<Condition>): seq<string>
    decreases |cs|
  {
    if |cs| == 0 then [] else cs[0].values + Params(cs[1..])
  }

  /** How many times `c` occurs in `s` */
  function Count(s: string, c: char): nat
    decreases |s|
  {
    if |s| == 0 then 0 else (if s[0] == c then 1 else 0) + Count(s[1..], c)
  }

  lemma {:induction false} CountAppend(a: string, b: string, c: char)
    ensures Count(a + b, c) == Count(a, c) + Count(b, c)
    decreases |a|
  {
    if |a| > 0 {
      assert (a + b)[0] == a[0];
      assert (a + b)[1..] == a[1..] + b;
      CountAppend(a[1..], b, c);
    } else {
      assert a + b == b;
    }
  }

  lemma {:induction false} CountAbsent(s: string, c: char)
    requires c !in s
    ensures Count(s, c) == 0
    decreases |s|
  {
    if |s| > 0 {
      assert s[0] != c;
      assert forall x :: x in s[1..] ==> x in s;
      CountAbsent(s[1..], c);
    }
  }

  /** A placeholder list for `n` values holds exactly `n` placeholders. */
  lemma {:induction false} PlaceholderCount(n: nat)
    ensures Count(Placeholders(n), '?') == n
    decreases n
  {
    var parts := seq(n, i => "?");
    if n == 1 {
      assert Placeholders(n) == "?";
    } else if n > 1 {
      assert parts[1..] == seq(n - 1, i => "?");
      assert Placeholders(n) == "?" + [','] + Placeholders(n - 1);
      CountAppend("?" + [','], Placeholders(n - 1), '?');
      PlaceholderCount(n - 1);
    }
  }

  lemma ConditionPlaceholders(c: Condition)
    ensures Count(ConditionText(c), '?') == |c.values|
  {
    var head := " AND " + ColumnName(c.column) + " IN (";
    assert '?' !in head;
    assert ConditionText(c) == head + Placeholders(|c.values|) + ")";
    CountAbsent(head, '?');
    CountAbsent(")", '?');
    CountAppend(head, Placeholders(|c.values|), '?');
    CountAppend(head + Placeholders(|c.values|), ")", '?');
    PlaceholderCount(|c.values|);
  }

  /** The WHERE clause has exactly one placeholder per bound parameter. */
  lemma {:induction false} WherePlaceholders(cs: seq<Condition>)
    ensures Count(WhereText(cs), '?') == |Params(cs)|
    decreases |cs|
  {
    if |cs| > 0 {
      ConditionPlaceholders(cs[0]);
      WherePlaceholders(cs[1..]);
      CountAppend(ConditionText(cs[0]), WhereText(cs[1..]), '?');
    }
  }

  /** The statement `run_query` prepares matches its parameters one to one,
      and the mapped services are bound before the regions. */
  lemma StatementParams(services: seq<string>, regions: seq<string>)
    ensures Count(WhereText(Conditions(services, regions)), '?') == |Params(Conditions(services, regions))|
    ensures Params(Conditions(services, regions)) == MapAll(services) + regions
  {
    var cs := Conditions(services, regions);
    WherePlaceholders(cs);
    if |services| > 0 && |regions| > 0 {
      assert cs[1..] == [In(RegionColumn, regions)];
      assert Params(cs[1..]) == regions;
    } else if |services| > 0 {
      assert cs == [In(ResourceTypeColumn, MapAll(services))];
      assert Params(cs[1..]) == [];
    } else if |regions| > 0 {
      assert cs == [In(RegionColumn, regions)];
      assert Params(cs[1..]) == [];
      assert MapAll(services) == [];
    } else {
      assert MapAll(services) == [];
    }
  }

  function ColumnValue(c: Column, row: ResourceRow): string {
    match c
    case ResourceTypeColumn => row.resourceType
    case RegionColumn => row.region
  }

  /** What the engine evaluates: every appended condition holds of the row. */
  predicate Satisfies(cs: seq<Condition>, row: ResourceRow) {
    forall i :: 0 <= i < |cs| ==> ColumnValue(cs[i].column, row) in cs[i].values
  }

  /** The filter as a user states it: one of the services (after mapping)
      unless none is given, and one of the regions unless none is given. */
  predicate Wanted(services: seq<string>, regions: seq<string>, row: ResourceRow) {
    && (|services| == 0 || exists i :: 0 <= i < |services| && MapServiceName(services[i]) == row.resourceType)
    && (|regions| == 0 || row.region in regions)
  }

  /** The prepared WHERE clause selects exactly the wanted rows. */
  lemma ConditionsSelectWanted(services: seq<string>, regions: seq<string>, row: ResourceRow)
    ensures Satisfies(Conditions(services, regions), row) <==> Wanted(services, regions, row)
  {
    var cs := Conditions(services, regions);
    var types := MapAll(services);
    if |services| > 0 {
      assert cs[0] == In(ResourceTypeColumn, types);
      if row.resourceType in types {
        var i :| 0 <= i < |types| && types[i] == row.resourceType;
        assert MapServiceName(services[i]) == row.resourceType;
      }
    }
    if |regions| > 0 {
      assert cs[|cs| - 1] == In(RegionColumn, regions);
    }
  }

  // ---------------------------------------------------------------------
  // One result row
  // ---------------------------------------------------------------------

  /** The printed forms of a list of addresses */
  function Texts(addrs: seq<IpAddr>): (ts: seq<string>)
    ensures |ts| == |addrs|
    ensures forall i :: 0 <= i < |addrs| ==> ts[i] == ToString(addrs[i])
  {
    seq(|addrs|, i requires 0 <= i < |addrs| => ToString(addrs[i]))
  }

  /** `COALESCE(GROUP_CONCAT(i.ip_address), '')` over a group's rows in the
      order the engine visits them; no row gives NULL, hence the empty text. */
  function GroupConcat(addrs: seq<IpAddr>): string {
    if |addrs| == 0 then "" else Join(Texts(addrs), ',')
  }

  /** The address list rebuilt from the concatenation */
  function SplitIps(concat: string): seq<string> {
    if concat == "" then [] else Split(concat, ',')
  }

  /** Splitting the concatenation gives back every stored text, in the
      engine's order; no rows give the empty list. */
  lemma SplitGroupConcat(addrs: seq<IpAddr>)
    ensures SplitIps(GroupConcat(addrs)) == Texts(addrs)
  {
    var ts := Texts(addrs);
    if |addrs| > 0 {
      forall i | 0 <= i < |ts|
        ensures |ts[i]| > 0 && ',' !in ts[i]
      {
        ToStringHasNoComma(addrs[i]);
      }
      JoinFirstChar(ts, ',');
      SplitJoin(ts, ',');
    }
  }

  /** The result row of a group, given the order the engine concatenates its
      addresses in */
  function Present(s: Store, id: nat, order: seq<IpAddr>): Resource
    requires id in s.resources
  {
    var row := s.resources[id];
    Resource(row.arn, row.name, row.resourceType, row.region,
      SplitIps(GroupConcat(order)), Group(s.tags, id), row.details)
  }

  predicate Distinct<T(==)>(xs: seq<T>) {
    forall i, j :: 0 <= i < j < |xs| ==> xs[i] != xs[j]
  }

  /** A result row shows the live resource `id` and exactly its child rows:
      its tag map (empty when it has no tag rows) and the printed form of each
      of its addresses once, in some order. */
  ghost predicate Presents(s: Store, id: nat, res: Resource) {
    && id in s.resources
    && var row := s.resources[id];
    && res.arn == row.arn && res.name == row.name && res.resourceType == row.resourceType
    && res.region == row.region && res.details == row.details
    && res.tags == Group(s.tags, id)
    && Distinct(res.ips)
    && (forall t :: t in res.ips <==> exists a :: a in Group(s.ips, id) && ToString(a) == t)
  }

  /** Whatever order the engine picks, the row presents the group. */
  lemma PresentIsFaithful(s: Store, id: nat, order: seq<IpAddr>)
    requires id in s.resources
    requires Distinct(order) && forall a :: a in order <==> a in Group(s.ips, id)
    ensures Presents(s, id, Present(s, id, order))
  {
    SplitGroupConcat(order);
    var ts := Texts(order);
    forall i, j | 0 <= i < j < |ts|
      ensures ts[i] != ts[j]
    {
      if ts[i] == ts[j] {
        ToStringInjective(order[i], order[j]);
      }
    }
    forall t | t in ts
      ensures exists a :: a in Group(s.ips, id) && ToString(a) == t
    {
      var i :| 0 <= i < |ts| && ts[i] == t;
      assert order[i] in Group(s.ips, id);
    }
    forall a | a in Group(s.ips, id)
      ensures ToString(a) in ts
    {
      var i :| 0 <= i < |order| && order[i] == a;
      assert ts[i] == ToString(a);
    }
  }

  /** The engine visits a set in some order, each element once. */
  method Enumerate<T>(xs: set<T>) returns (order: seq<T>)
    ensures Distinct(order)
    ensures forall x :: x in order <==> x in xs
  {
    order := [];
    var rest := xs;
    while rest != {}
      invariant Distinct(order)
      invariant forall x :: x in order <==> x in xs && x !in rest
      invariant rest <= xs
      decreases |rest|
    {
      var x :| x in rest;
      order := order + [x];
      rest := rest - {x};
    }
  }

  /** `run_query`. `available` says whether the database opens and the
      statement prepares; when it does not, the error is returned. Otherwise
      the result holds one row per live resource the filter wants, each
      presenting that resource; `ids` are the rowids of the groups, in result
      order. */
  method RunQuery(s: Store, services: seq<string>, regions: seq<string>, available: bool)
    returns (out: Result<seq<Resource>>, ids: seq<nat>)
    ensures out.Err? <==> !available
    ensures out.Ok? ==> |out.value| == |ids| && Distinct(ids)
    ensures out.Ok? ==> forall k :: 0 <= k < |ids| ==>
      && ids[k] in s.resources
      && Wanted(services, regions, s.resources[ids[k]])
      && Presents(s, ids[k], out.value[k])
    ensures out.Ok? ==> forall id :: id in s.resources && Wanted(services, regions, s.resources[id]) ==> id in ids
  {
    ids := [];
    if !available {
      return Err(Failed("unable to open the database or prepare the query")), ids;
    }
    var cs := Conditions(services, regions);
    var rows: seq<Resource> := [];
    var rest := s.resources.Keys;
    while rest != {}
      invariant rest <= s.resources.Keys
      invariant |rows| == |ids| && Distinct(ids)
      invariant forall k :: 0 <= k < |ids| ==>
        && ids[k] in s.resources && ids[k] !in rest
        && Wanted(services, regions, s.resources[ids[k]])
        && Presents(s, ids[k], rows[k])
      invariant forall id :: id in s.resources && id !in rest && Wanted(services, regions, s.resources[id]) ==> id in ids
      decreases |rest|
    {
      var id :| id in rest;
      ConditionsSelectWanted(services, regions, s.resources[id]);
      if Satisfies(cs, s.resources[id]) {
        var order := Enumerate(Group(s.ips, id).Keys);
        PresentIsFaithful(s, id, order);
        rows := rows + [Present(s, id, order)];
        ids := ids + [id];
      }
      rest := rest - {id};
    }
    out := Ok(rows);
  }
}
