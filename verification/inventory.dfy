/**
 The collectors of src/inventory.rs, reduced to what they compute: each turns
 the records a service's API returns into CollectedResource values. The API
 calls themselves (paginated listings, describe and tag requests, pod
 listing, building a Kubernetes client) are function parameters; a paginated
 listing is the concatenation of its pages, and a failed page is a failed
 listing.
 */
module Inventory {
  import opened Base
  import opened Ip
  import opened Text

  /** The `details` payload: an opaque JSON value, kept as a tree */
  datatype Json =
    | Null
    | Bool(b: bool)
    | Number(n: int)
    | Str(s: string)
    | Object(fields: seq<(string, Json)>)

  /** `CollectedResource`: the one record shape every collector produces */
  datatype CollectedResource = CollectedResource(
    arn: string,
    name: string,
    resourceType: string,
    region: string,
    ips: seq<IpAddr>,
    tags: map<string, string>,
    details: Json)

  /** The resource type each collector stamps on its records */
  const Ec2Type := "ec2:instance"
  const Route53Type := "route53:hostedzone"
  const ElbType := "elbv2:loadbalancer"
  const EksType := "eks:pod"
  const RdsType := "rds:db_instance"
  const DynamoDbType := "dynamodb:table"
  const ElastiCacheType := "elasticache:cluster"

  /** An optional text field of `details`: JSON null when absent */
  function OptText(s: Option<string>): Json {
    match s
    case Some(v) => Str(v)
    case None => Null
  }

  function OptNumber(n: Option<int>): Json {
    match n
    case Some(v) => Number(v)
    case None => Null
  }

  function OptBool(b: Option<bool>): Json {
    match b
    case Some(v) => Bool(v)
    case None => Null
  }

  // ---------------------------------------------------------------------
  // Shared normalisation
  // ---------------------------------------------------------------------

  /** Collecting key/value pairs into a HashMap, in order: a later pair with
      the same key replaces an earlier one. */
  function PairMap(pairs: seq<(string, string)>): map<string, string>
    decreases |pairs|
  {
    if |pairs| == 0 then map[]
    else
      var p := pairs[|pairs| - 1];
      PairMap(pairs[..|pairs| - 1])[p.0 := p.1]
  }

  /** The map has exactly the keys of the pairs. */
  lemma {:induction false} PairMapKeys(pairs: seq<(string, string)>)
    ensures forall k :: k in PairMap(pairs) <==> exists i :: 0 <= i < |pairs| && pairs[i].0 == k
    decreases |pairs|
  {
    if |pairs| > 0 {
      var init := pairs[..|pairs| - 1];
      PairMapKeys(init);
      forall k | (exists i :: 0 <= i < |pairs| && pairs[i].0 == k)
        ensures k in PairMap(pairs)
      {
        var i :| 0 <= i < |pairs| && pairs[i].0 == k;
        if i < |pairs| - 1 {
          assert init[i].0 == k;
        }
      }
      forall k | k in PairMap(pairs)
        ensures exists i :: 0 <= i < |pairs| && pairs[i].0 == k
      {
        if k != pairs[|pairs| - 1].0 {
          assert k in PairMap(init);
          var i :| 0 <= i < |init| && init[i].0 == k;
          assert pairs[i].0 == k;
        }
      }
    }
  }

  /** A key maps to the value of the last pair carrying it. */
  lemma {:induction false} PairMapLastWins(pairs: seq<(string, string)>, i: nat)
    requires i < |pairs|
    requires forall j :: i < j < |pairs| ==> pairs[j].0 != pairs[i].0
    ensures pairs[i].0 in PairMap(pairs) && PairMap(pairs)[pairs[i].0] == pairs[i].1
    decreases |pairs|
  {
    if i < |pairs| - 1 {
      PairMapLastWins(pairs[..|pairs| - 1], i);
    }
  }

  /** A tag as the SDKs return it: key and value may each be absent */
  datatype SdkTag = SdkTag(key: Option<string>, value: Option<string>)

  /** The pairs a tag list gives when a missing key or value becomes "" */
  function DefaultedPairs(tags: seq<SdkTag>): (pairs: seq<(string, string)>)
    ensures |pairs| == |tags|
    ensures forall i :: 0 <= i < |tags| ==> pairs[i] == (OrEmpty(tags[i].key), OrEmpty(tags[i].value))
  {
    seq(|tags|, i requires 0 <= i < |tags| => (OrEmpty(tags[i].key), OrEmpty(tags[i].value)))
  }

  /** The tag map of EC2, ELB, RDS and ElastiCache: a missing key or value
      becomes "" and nothing is dropped. */
  function TagMap(tags: seq<SdkTag>): map<string, string> {
    PairMap(DefaultedPairs(tags))
  }

  /** Every tag gives a key, the empty one when it has none; the keys are
      exactly those, and the last tag with a key supplies its value, "" when
      that tag has none. */
  lemma TagMapContents(tags: seq<SdkTag>)
    ensures forall k :: k in TagMap(tags) <==> exists i :: 0 <= i < |tags| && OrEmpty(tags[i].key) == k
    ensures forall i, k :: LastWithKey(tags, i, k) ==> TagMap(tags)[k] == OrEmpty(tags[i].value)
  {
    var pairs := DefaultedPairs(tags);
    PairMapKeys(pairs);
    forall i, k | LastWithKey(tags, i, k)
      ensures TagMap(tags)[k] == OrEmpty(tags[i].value)
    {
      PairMapLastWins(pairs, i);
    }
  }

  /** Tag `i` is the last one whose key (defaulted to "") is `k`. */
  predicate LastWithKey(tags: seq<SdkTag>, i: int, k: string) {
    0 <= i < |tags| && OrEmpty(tags[i].key) == k && forall j :: i < j < |tags| ==> OrEmpty(tags[j].key) != k
  }

  /** The pairs of the tags that have both a key and a value, in order */
  function CompletePairs(tags: seq<SdkTag>): (pairs: seq<(string, string)>)
    ensures forall p :: p in pairs <==> exists t :: t in tags && t.key == Some(p.0) && t.value == Some(p.1)
    decreases |tags|
  {
    if |tags| == 0 then []
    else
      var rest := CompletePairs(tags[1..]);
      var t := tags[0];
      assert forall u :: u in tags <==> u == t || u in tags[1..];
      if t.key.Some? && t.value.Some? then [(t.key.value, t.value.value)] + rest else rest
  }

  /** The addresses among optional address texts, in order; a missing text or
      one that does not parse is dropped. */
  function ParsedIps(texts: seq<Option<string>>): seq<IpAddr>
    decreases |texts|
  {
    if |texts| == 0 then []
    else
      var rest := ParsedIps(texts[1..]);
      match texts[0]
      case Some(t) =>
        (match Parse(t)
         case Some(ip) => [ip] + rest
         case None => rest)
      case None => rest
  }

  /** An address is kept exactly when some text parses to it. */
  lemma {:induction false} ParsedIpsMembers(texts: seq<Option<string>>)
    ensures forall ip :: ip in ParsedIps(texts) <==>
      exists i :: 0 <= i < |texts| && texts[i].Some? && Parse(texts[i].value) == Some(ip)
    decreases |texts|
  {
    if |texts| > 0 {
      ParsedIpsMembers(texts[1..]);
      forall ip | exists i :: 0 <= i < |texts| && texts[i].Some? && Parse(texts[i].value) == Some(ip)
        ensures ip in ParsedIps(texts)
      {
        var i :| 0 <= i < |texts| && texts[i].Some? && Parse(texts[i].value) == Some(ip);
        if i > 0 {
          assert texts[1..][i - 1] == texts[i];
        }
      }
      forall ip | ip in ParsedIps(texts)
        ensures exists i :: 0 <= i < |texts| && texts[i].Some? && Parse(texts[i].value) == Some(ip)
      {
        if ip !in ParsedIps(texts[1..]) {
          assert texts[0].Some? && Parse(texts[0].value) == Some(ip);
        } else {
          var i :| 0 <= i < |texts[1..]| && texts[1..][i].Some? && Parse(texts[1..][i].value) == Some(ip);
          assert texts[i + 1] == texts[1..][i];
        }
      }
    }
  }

  /** The printed forms of addresses parse back to those addresses, in order. */
  lemma {:induction false} ParsedIpsOfPrinted(addrs: seq<IpAddr>)
    ensures ParsedIps(seq(|addrs|, i requires 0 <= i < |addrs| => Some(ToString(addrs[i])))) == addrs
    decreases |addrs|
  {
    var texts := seq(|addrs|, i requires 0 <= i < |addrs| => Some(ToString(addrs[i])));
    if |addrs| > 0 {
      var rest := seq(|addrs[1..]|, i requires 0 <= i < |addrs[1..]| => Some(ToString(addrs[1..][i])));
      assert texts == [Some(ToString(addrs[0]))] + rest;
      ParseToString(addrs[0]);
      ParsedCons(ToString(addrs[0]), addrs[0], rest);
      ParsedIpsOfPrinted(addrs[1..]);
      assert addrs == [addrs[0]] + addrs[1..];
    }
  }

  lemma ParsedCons(t: string, ip: IpAddr, rest: seq<Option<string>>)
    requires Parse(t) == Some(ip)
    ensures ParsedIps([Some(t)] + rest) == [ip] + ParsedIps(rest)
  {
    assert ([Some(t)] + rest)[1..] == rest;
  }

  /** The concatenation of a list of lists */
  function Flatten<T>(xss: seq<seq<T>>): seq<T>
    decreases |xss|
  {
    if |xss| == 0 then [] else xss[0] + Flatten(xss[1..])
  }

  /** A list absent from a response counts as empty. */
  function OrNone<T>(xs: Option<seq<T>>): seq<T> {
    match xs
    case Some(v) => v
    case None => []
  }

  /** Running one collection step per item (region, cluster, table, …) in
      order, appending what each returns; the first failing step ends the run
      with its error. */
  function ForEach<T>(items: seq<T>, step: T -> Result<seq<CollectedResource>>): (r: Result<seq<CollectedResource>>)
    ensures r.Ok? <==> forall i :: 0 <= i < |items| ==> step(items[i]).Ok?
    ensures r.Err? ==> exists i ::
      0 <= i < |items| && step(items[i]).Err? && r.error == step(items[i]).error && (forall j :: 0 <= j < i ==> step(items[j]).Ok?)
    decreases |items|
  {
    if |items| == 0 then Ok([])
    else
      var first :- step(items[0]);
      var rest := ForEach(items[1..], step);
      if rest.Err? then
        assert forall j :: 0 <= j < |items| - 1 ==> items[1..][j] == items[j + 1];
        rest
      else
        assert forall j :: 1 <= j < |items| ==> items[1..][j - 1] == items[j];
        Ok(first + rest.value)
  }

  /** A successful run returns exactly the records its steps returned. */
  lemma {:induction false} ForEachRecords<T>(items: seq<T>, step: T -> Result<seq<CollectedResource>>)
    requires ForEach(items, step).Ok?
    ensures forall r :: r in ForEach(items, step).value <==>
      exists i :: 0 <= i < |items| && r in step(items[i]).value
    decreases |items|
  {
    if |items| > 0 {
      ForEachRecords(items[1..], step);
      forall r | exists i :: 0 <= i < |items| && r in step(items[i]).value
        ensures r in ForEach(items, step).value
      {
        var i :| 0 <= i < |items| && r in step(items[i]).value;
        if i > 0 {
          assert items[1..][i - 1] == items[i];
        }
      }
      forall r | r in ForEach(items[1..], step).value
        ensures exists i :: 0 <= i < |items| && r in step(items[i]).value
      {
        var i :| 0 <= i < |items[1..]| && r in step(items[1..][i]).value;
        assert items[i + 1] == items[1..][i];
      }
    }
  }

  /** Records of type `t` from the given region */
  predicate Stamped(records: seq<CollectedResource>, t: string, region: string) {
    forall r :: r in records ==> r.resourceType == t && r.region == region
  }

  /** When each region's step stamps its records with the collector's type
      and that region, the whole run's records carry the type and a scanned
      region. */
  lemma RegionsStamped(regions: seq<string>, step: string -> Result<seq<CollectedResource>>, t: string)
    requires ForEach(regions, step).Ok?
    requires forall i :: 0 <= i < |regions| && step(regions[i]).Ok? ==> Stamped(step(regions[i]).value, t, regions[i])
    ensures forall r :: r in ForEach(regions, step).value ==> r.resourceType == t && r.region in regions
  {
    ForEachRecords(regions, step);
  }

  /** Within one region, steps over its items that each stamp their records
      with the type and the region stamp the region's records too. */
  lemma ItemsStamped<T>(items: seq<T>, step: T -> Result<seq<CollectedResource>>, t: string, region: string)
    requires ForEach(items, step).Ok?
    requires forall i :: 0 <= i < |items| && step(items[i]).Ok? ==> Stamped(step(items[i]).value, t, region)
    ensures Stamped(ForEach(items, step).value, t, region)
  {
    ForEachRecords(items, step);
  }

  /** Records without addresses */
  predicate Addressless(records: seq<CollectedResource>) {
    forall r :: r in records ==> r.ips == []
  }

  /** Steps that each give records without addresses give a run without
      addresses. */
  lemma ItemsAddressless<T>(items: seq<T>, step: T -> Result<seq<CollectedResource>>)
    requires ForEach(items, step).Ok?
    requires forall i :: 0 <= i < |items| && step(items[i]).Ok? ==> Addressless(step(items[i]).value)
    ensures Addressless(ForEach(items, step).value)
  {
    ForEachRecords(items, step);
  }

  /** The records of one region's items, each mapped by `f` */
  function MapRecords<T>(xs: seq<T>, f: T -> CollectedResource): (rs: seq<CollectedResource>)
    ensures |rs| == |xs|
    ensures forall i :: 0 <= i < |xs| ==> rs[i] == f(xs[i])
  {
    seq(|xs|, i requires 0 <= i < |xs| => f(xs[i]))
  }

  // ---------------------------------------------------------------------
  // EC2
  // ---------------------------------------------------------------------

  datatype Ec2Instance = Ec2Instance(
    instanceId: Option<string>,
    privateIp: Option<string>,
    publicIp: Option<string>,
    tags: Option<seq<SdkTag>>,
    instanceType: Option<string>)

  datatype Reservation = Reservation(instances: Option<seq<Ec2Instance>>)

  /** One instance: the arn is its id, the name its `Name` tag or else its id */
  function Ec2Record(inst: Ec2Instance, region: string): CollectedResource {
    var tags := TagMap(OrNone(inst.tags));
    var id := OrEmpty(inst.instanceId);
    CollectedResource(
      id,
      if "Name" in tags then tags["Name"] else id,
      Ec2Type,
      region,
      ParsedIps([inst.privateIp, inst.publicIp]),
      tags,
      Object([("instance_type", OptText(inst.instanceType))]))
  }

  function Ec2Instances(reservations: seq<Reservation>): seq<Ec2Instance> {
    Flatten(seq(|reservations|, i requires 0 <= i < |reservations| => OrNone(reservations[i].instances)))
  }

  /** One region: every instance of every reservation, or the listing's error */
  function Ec2Region(listing: Result<seq<Reservation>>, region: string): Result<seq<CollectedResource>> {
    var reservations :- listing;
    Ok(MapRecords(Ec2Instances(reservations), inst => Ec2Record(inst, region)))
  }

  function CollectEc2(regions: seq<string>, describe: string -> Result<seq<Reservation>>): Result<seq<CollectedResource>> {
    ForEach(regions, region => Ec2Region(describe(region), region))
  }

  /** The EC2 name is the value of the last tag keyed `Name`, and the
      instance id when no tag has that key. */
  lemma Ec2NameFallback(inst: Ec2Instance, region: string)
    ensures var tags := OrNone(inst.tags);
      var r := Ec2Record(inst, region);
      && ((forall j :: 0 <= j < |tags| ==> OrEmpty(tags[j].key) != "Name") ==> r.name == OrEmpty(inst.instanceId))
      && (forall i :: LastWithKey(tags, i, "Name") ==> r.name == OrEmpty(tags[i].value))
  {
    TagMapContents(OrNone(inst.tags));
  }

  /** EC2 addresses: the private address, then the public one, each only
      when present. */
  lemma Ec2Addresses(inst: Ec2Instance, region: string, a: IpAddr, b: IpAddr)
    ensures inst.privateIp == Some(ToString(a)) && inst.publicIp == Some(ToString(b)) ==>
      Ec2Record(inst, region).ips == [a, b]
    ensures inst.privateIp == Some(ToString(a)) && inst.publicIp.None? ==>
      Ec2Record(inst, region).ips == [a]
    ensures inst.privateIp.None? && inst.publicIp == Some(ToString(b)) ==>
      Ec2Record(inst, region).ips == [b]
  {
    var ips := Ec2Record(inst, region).ips;
    assert ips == ParsedIps([inst.privateIp, inst.publicIp]);
    ParsedPair(inst.privateIp, inst.publicIp);
    ParsedSingle(a);
    ParsedSingle(b);
  }

  lemma ParsedPair(x: Option<string>, y: Option<string>)
    ensures ParsedIps([x, y]) == ParsedIps([x]) + ParsedIps([y])
  {
    assert [x, y][1..] == [y];
    assert [x][1..] == [] && [y][1..] == [];
  }

  lemma ParsedSingle(ip: IpAddr)
    ensures ParsedIps([Some(ToString(ip))]) == [ip]
    ensures ParsedIps([None]) == []
  {
    ParseToString(ip);
    ParsedText(ToString(ip), ip);
    var none: seq<Option<string>> := [None];
    assert none[1..] == [];
  }

  lemma ParsedText(t: string, ip: IpAddr)
    requires Parse(t) == Some(ip)
    ensures ParsedIps([Some(t)]) == [ip]
  {
    ParsedCons(t, ip, []);
    assert [Some(t)] + [] == [Some(t)];
  }

  /** Every EC2 record is an instance of one of the scanned regions. */
  lemma Ec2RecordsFromRegions(regions: seq<string>, describe: string -> Result<seq<Reservation>>)
    requires CollectEc2(regions, describe).Ok?
    ensures forall r :: r in CollectEc2(regions, describe).value ==> r.resourceType == Ec2Type && r.region in regions
  {
    RegionsStamped(regions, region => Ec2Region(describe(region), region), Ec2Type);
  }

  // ---------------------------------------------------------------------
  // Route 53
  // ---------------------------------------------------------------------

  datatype ZoneConfig = ZoneConfig(privateZone: bool)

  datatype HostedZone = HostedZone(
    id: string,
    name: string,
    config: Option<ZoneConfig>,
    recordCount: Option<int>)

  /** The text after the last `/` of a zone id (the whole id when it has none) */
  function LastSegment(id: string): string {
    var parts := Split(id, '/');
    parts[|parts| - 1]
  }

  lemma {:induction false} JoinLast(parts: seq<string>, sep: char)
    requires |parts| >= 2
    ensures Join(parts, sep) == Join(parts[..|parts| - 1], sep) + [sep] + parts[|parts| - 1]
    decreases |parts|
  {
    if |parts| > 2 {
      JoinLast(parts[1..], sep);
      assert parts[1..][..|parts| - 2] == parts[..|parts| - 1][1..];
    }
  }

  /** The segment is the id's suffix after its last `/`: it holds no `/` and
      is either the whole id or preceded by a `/`. */
  lemma LastSegmentIsSuffix(id: string)
    ensures var seg := LastSegment(id);
      && '/' !in seg && |seg| <= |id| && id[|id| - |seg|..] == seg
      && (|seg| == |id| || id[|id| - |seg| - 1] == '/')
  {
    var parts := Split(id, '/');
    var seg := parts[|parts| - 1];
    JoinSplit(id, '/');
    if |parts| >= 2 {
      JoinLast(parts, '/');
      var head := Join(parts[..|parts| - 1], '/');
      assert id == head + ['/'] + seg;
      assert id[|id| - |seg|..] == seg;
    } else {
      assert id == seg;
    }
  }

  /** Route 53's tag map: only tags with both a key and a value */
  function Route53TagMap(tags: seq<SdkTag>): map<string, string> {
    PairMap(CompletePairs(tags))
  }

  /** Tags are requested only for a non-empty id; a failed request gives no tags. */
  function Route53Tags(resourceId: string, listTags: string -> Result<seq<SdkTag>>): map<string, string> {
    if resourceId == "" then map[]
    else
      match listTags(resourceId)
      case Ok(tags) => Route53TagMap(tags)
      case Err(_) => map[]
  }

  /** A zone's tags: none when the id has no last segment or the request
      fails; otherwise exactly the keys of the complete tags returned. */
  lemma Route53TagsFacts(resourceId: string, listTags: string -> Result<seq<SdkTag>>)
    ensures resourceId == "" || listTags(resourceId).Err? ==> Route53Tags(resourceId, listTags) == map[]
    ensures resourceId != "" && listTags(resourceId).Ok? ==>
      forall k :: k in Route53Tags(resourceId, listTags) <==>
        exists t :: t in listTags(resourceId).value && t.key == Some(k) && t.value.Some?
  {
    if resourceId != "" && listTags(resourceId).Ok? {
      var tags := listTags(resourceId).value;
      var pairs := CompletePairs(tags);
      PairMapKeys(pairs);
      forall k | k in Route53Tags(resourceId, listTags)
        ensures exists t :: t in tags && t.key == Some(k) && t.value.Some?
      {
        var i :| 0 <= i < |pairs| && pairs[i].0 == k;
        assert pairs[i] in pairs;
      }
      forall k | exists t :: t in tags && t.key == Some(k) && t.value.Some?
        ensures k in Route53Tags(resourceId, listTags)
      {
        var t :| t in tags && t.key == Some(k) && t.value.Some?;
        var p := (k, t.value.value);
        assert p in pairs;
        var i :| 0 <= i < |pairs| && pairs[i] == p;
        assert pairs[i].0 == k;
      }
    }
  }

  /** `(private_zone, resource_record_set_count)`: both come from the zone
      only when it carries a config. */
  function ZoneFacts(zone: HostedZone): (bool, int) {
    match zone.config
    case Some(c) => (c.privateZone, zone.recordCount.GetOr(0))
    case None => (false, 0)
  }

  function Route53Record(zone: HostedZone, listTags: string -> Result<seq<SdkTag>>): CollectedResource {
    var facts := ZoneFacts(zone);
    CollectedResource(
      zone.id,
      zone.name,
      Route53Type,
      "global",
      [],
      Route53Tags(LastSegment(zone.id), listTags),
      Object([("private_zone", Bool(facts.0)), ("resource_record_set_count", Number(facts.1))]))
  }

  /** Route 53 is global: one listing, whatever regions were asked for */
  function CollectRoute53(zones: Result<seq<HostedZone>>, listTags: string -> Result<seq<SdkTag>>): (r: Result<seq<CollectedResource>>)
    ensures r.Ok? <==> zones.Ok?
    ensures r.Ok? ==> |r.value| == |zones.value|
    ensures r.Ok? ==> forall i :: 0 <= i < |r.value| ==>
      r.value[i].arn == zones.value[i].id && r.value[i].region == "global" && r.value[i].resourceType == Route53Type && r.value[i].ips == []
    ensures r.Ok? ==> forall i :: 0 <= i < |r.value| ==>
      r.value[i].name == zones.value[i].name && r.value[i].tags == Route53Tags(LastSegment(zones.value[i].id), listTags)
    ensures r.Ok? ==> forall i :: 0 <= i < |r.value| ==>
      r.value[i].details == Object([("private_zone", Bool(ZoneFacts(zones.value[i]).0)),
                                    ("resource_record_set_count", Number(ZoneFacts(zones.value[i]).1))])
  {
    var zs :- zones;
    Ok(MapRecords(zs, zone => Route53Record(zone, listTags)))
  }

  /** A zone without a config reports a public zone with no record sets,
      whatever record count the listing gives; with a config both come from
      the zone, a missing count reading as 0. */
  lemma ZoneFactsOfConfig(zone: HostedZone)
    ensures zone.config.None? ==> ZoneFacts(zone) == (false, 0)
    ensures zone.config.Some? ==>
      ZoneFacts(zone) == (zone.config.value.privateZone, if zone.recordCount.Some? then zone.recordCount.value else 0)
  {}

  /** Two config-less zones that differ only in their record count give the
      same record. */
  lemma ConfiglessCountIgnored(zone: HostedZone, count: Option<int>, listTags: string -> Result<seq<SdkTag>>)
    requires zone.config.None?
    ensures Route53Record(zone, listTags) == Route53Record(zone.(recordCount := count), listTags)
    ensures Route53Record(zone, listTags).details
      == Object([("private_zone", Bool(false)), ("resource_record_set_count", Number(0))])
  {}

  // ---------------------------------------------------------------------
  // Elastic Load Balancing
  // ---------------------------------------------------------------------

  datatype LbAddress = LbAddress(ipAddress: Option<string>)

  datatype AvailabilityZone = AvailabilityZone(addresses: Option<seq<LbAddress>>)

  datatype LoadBalancer = LoadBalancer(
    arn: Option<string>,
    name: Option<string>,
    zones: Option<seq<AvailabilityZone>>,
    dnsName: Option<string>,
    lbType: Option<string>,
    scheme: Option<string>)

  datatype TagDescription = TagDescription(resourceArn: Option<string>, tags: Option<seq<SdkTag>>)

  /** How many arns one DescribeTags request carries */
  const TagBatch := 20

  /** `chunks(n)`: consecutive pieces of `n` elements, the last possibly shorter */
  function Chunks<T>(xs: seq<T>, n: nat): (cs: seq<seq<T>>)
    requires n > 0
    ensures forall i :: 0 <= i < |cs| ==> 0 < |cs[i]| <= n
    ensures forall i :: 0 <= i < |cs| - 1 ==> |cs[i]| == n
    ensures Flatten(cs) == xs
    decreases |xs|
  {
    if |xs| == 0 then []
    else if |xs| <= n then
      assert Flatten([xs]) == xs + Flatten([xs][1..]);
      [xs]
    else
      var rest := Chunks(xs[n..], n);
      assert xs == xs[..n] + xs[n..];
      assert ([xs[..n]] + rest)[1..] == rest;
      [xs[..n]] + rest
  }

  /** The tag requests of a region cover its balancers in consecutive
      batches of at most twenty, in listing order, as few as possible. */
  lemma {:induction false} ElbBatchesPartition(lbs: seq<LoadBalancer>)
    ensures var cs := Chunks(lbs, TagBatch);
      && Flatten(cs) == lbs
      && (forall i :: 0 <= i < |cs| ==> 0 < |cs[i]| <= 20)
      && |cs| == (|lbs| + 19) / 20
    decreases |lbs|
  {
    if |lbs| > TagBatch {
      ElbBatchesPartition(lbs[TagBatch..]);
    }
  }

  /** The arns a chunk's balancers carry, in order */
  function KnownArns(lbs: seq<LoadBalancer>): (arns: seq<string>)
    ensures forall a :: a in arns <==> exists lb :: lb in lbs && lb.arn == Some(a)
    decreases |lbs|
  {
    if |lbs| == 0 then []
    else
      var rest := KnownArns(lbs[1..]);
      assert forall lb :: lb in lbs <==> lb == lbs[0] || lb in lbs[1..];
      match lbs[0].arn
      case Some(a) => [a] + rest
      case None => rest
  }

  /** `tags_map.insert` for each description of one response, in order */
  function InsertDescriptions(m: map<string, map<string, string>>, descs: seq<TagDescription>): map<string, map<string, string>>
    decreases |descs|
  {
    if |descs| == 0 then m
    else
      var d := descs[|descs| - 1];
      InsertDescriptions(m, descs[..|descs| - 1])[OrEmpty(d.resourceArn) := TagMap(OrNone(d.tags))]
  }

  /** The tag lookups of a region, one request per chunk that carries an arn;
      a failed request fails the region. */
  function ElbTagsMap(region: string, chunks: seq<seq<LoadBalancer>>, m: map<string, map<string, string>>,
                      describeTags: (string, seq<string>) -> Result<seq<TagDescription>>): (r: Result<map<string, map<string, string>>>)
    ensures r.Ok? <==> forall i :: 0 <= i < |chunks| && |KnownArns(chunks[i])| > 0 ==> describeTags(region, KnownArns(chunks[i])).Ok?
    decreases |chunks|
  {
    if |chunks| == 0 then Ok(m)
    else
      var arns := KnownArns(chunks[0]);
      assert forall i :: 1 <= i < |chunks| ==> chunks[1..][i - 1] == chunks[i];
      if |arns| == 0 then ElbTagsMap(region, chunks[1..], m, describeTags)
      else
        var descs :- describeTags(region, arns);
        ElbTagsMap(region, chunks[1..], InsertDescriptions(m, descs), describeTags)
  }

  /** The descriptions the tag requests return, response after response in
      request order; a chunk without arns sends no request. */
  function TagResponses(region: string, chunks: seq<seq<LoadBalancer>>,
                        describeTags: (string, seq<string>) -> Result<seq<TagDescription>>): seq<TagDescription>
    decreases |chunks|
  {
    if |chunks| == 0 then []
    else
      var arns := KnownArns(chunks[0]);
      var rest := TagResponses(region, chunks[1..], describeTags);
      if |arns| == 0 then rest
      else
        match describeTags(region, arns)
        case Ok(descs) => descs + rest
        case Err(_) => rest
  }

  /** `k` is the last description that names `arn` */
  predicate LastDescription(descs: seq<TagDescription>, k: int, arn: string) {
    0 <= k < |descs| && OrEmpty(descs[k].resourceArn) == arn
    && forall j :: k < j < |descs| ==> OrEmpty(descs[j].resourceArn) != arn
  }

  /** No description names `arn` */
  predicate NoDescription(descs: seq<TagDescription>, arn: string) {
    forall j :: 0 <= j < |descs| ==> OrEmpty(descs[j].resourceArn) != arn
  }

  /** Inserting descriptions one by one: an arn some description names gets
      the tags of the last such description; any other arn keeps its entry,
      or stays absent. */
  lemma {:induction false} InsertDescriptionsContents(m: map<string, map<string, string>>, descs: seq<TagDescription>, arn: string)
    ensures var r := InsertDescriptions(m, descs);
      && (forall k :: LastDescription(descs, k, arn) ==> arn in r && r[arn] == TagMap(OrNone(descs[k].tags)))
      && (NoDescription(descs, arn) ==> (arn in r <==> arn in m) && (arn in m ==> r[arn] == m[arn]))
    decreases |descs|
  {
    if |descs| > 0 {
      var n := |descs| - 1;
      var init := descs[..n];
      var before := InsertDescriptions(m, init);
      assert InsertDescriptions(m, descs) == before[OrEmpty(descs[n].resourceArn) := TagMap(OrNone(descs[n].tags))];
      InsertDescriptionsContents(m, init, arn);
      if OrEmpty(descs[n].resourceArn) != arn {
        forall k | LastDescription(descs, k, arn)
          ensures LastDescription(init, k, arn)
        {
          assert k != n;
        }
        if NoDescription(descs, arn) {
          assert NoDescription(init, arn);
        }
      } else {
        assert !NoDescription(descs, arn);
        forall k | LastDescription(descs, k, arn)
          ensures k == n
        {
        }
      }
    }
  }

  /** Inserting two lists of descriptions is inserting their concatenation. */
  lemma {:induction false} InsertDescriptionsAppend(m: map<string, map<string, string>>, a: seq<TagDescription>, b: seq<TagDescription>)
    ensures InsertDescriptions(InsertDescriptions(m, a), b) == InsertDescriptions(m, a + b)
    decreases |b|
  {
    if |b| > 0 {
      InsertDescriptionsAppend(m, a, b[..|b| - 1]);
      assert (a + b)[..|a + b| - 1] == a + b[..|b| - 1];
      assert (a + b)[|a + b| - 1] == b[|b| - 1];
    } else {
      assert a + b == a;
    }
  }

  /** A successful lookup is the insertion of every response, in request
      order. */
  lemma {:induction false} ElbTagsMapIsInsertion(region: string, chunks: seq<seq<LoadBalancer>>, m: map<string, map<string, string>>,
                                                 describeTags: (string, seq<string>) -> Result<seq<TagDescription>>)
    requires ElbTagsMap(region, chunks, m, describeTags).Ok?
    ensures ElbTagsMap(region, chunks, m, describeTags).value == InsertDescriptions(m, TagResponses(region, chunks, describeTags))
    decreases |chunks|
  {
    if |chunks| > 0 {
      var arns := KnownArns(chunks[0]);
      var rest := TagResponses(region, chunks[1..], describeTags);
      if |arns| == 0 {
        ElbTagsMapIsInsertion(region, chunks[1..], m, describeTags);
      } else {
        var descs := describeTags(region, arns).value;
        ElbTagsMapIsInsertion(region, chunks[1..], InsertDescriptions(m, descs), describeTags);
        InsertDescriptionsAppend(m, descs, rest);
      }
    }
  }

  /** The tags of a balancer's record: those of the last description, over all
      responses in request order, that names the balancer's arn, and none
      when no description names it. */
  lemma ElbRecordTags(lbs: seq<LoadBalancer>, region: string,
                      describeTags: (string, seq<string>) -> Result<seq<TagDescription>>, i: nat)
    requires ElbRegion(Ok(lbs), region, describeTags).Ok? && i < |lbs|
    ensures var r := ElbRegion(Ok(lbs), region, describeTags).value;
      var descs := TagResponses(region, Chunks(lbs, TagBatch), describeTags);
      var arn := OrEmpty(lbs[i].arn);
      && i < |r|
      && (forall k :: LastDescription(descs, k, arn) ==> r[i].tags == TagMap(OrNone(descs[k].tags)))
      && (NoDescription(descs, arn) ==> r[i].tags == map[])
  {
    var cs := Chunks(lbs, TagBatch);
    var tagsMap := ElbTagsMap(region, cs, map[], describeTags);
    ElbTagsMapIsInsertion(region, cs, map[], describeTags);
    InsertDescriptionsContents(map[], TagResponses(region, cs, describeTags), OrEmpty(lbs[i].arn));
    assert ElbRegion(Ok(lbs), region, describeTags).value[i] == ElbRecord(lbs[i], region, tagsMap.value);
  }

  /** The address texts of a balancer, zone by zone, address by address */
  function AddressTexts(zones: Option<seq<AvailabilityZone>>): seq<Option<string>> {
    var zs := OrNone(zones);
    Flatten(seq(|zs|, i requires 0 <= i < |zs| => ZoneTexts(zs[i])))
  }

  /** The address texts of one zone, in order */
  function ZoneTexts(zone: AvailabilityZone): seq<Option<string>> {
    var addrs := OrNone(zone.addresses);
    seq(|addrs|, j requires 0 <= j < |addrs| => addrs[j].ipAddress)
  }

  function ElbRecord(lb: LoadBalancer, region: string, tagsMap: map<string, map<string, string>>): CollectedResource {
    var arn := OrEmpty(lb.arn);
    CollectedResource(
      arn,
      OrEmpty(lb.name),
      ElbType,
      region,
      ParsedIps(AddressTexts(lb.zones)),
      if arn in tagsMap then tagsMap[arn] else map[],
      Object([("dns_name", OptText(lb.dnsName)), ("type", OptText(lb.lbType)), ("scheme", OptText(lb.scheme))]))
  }

  function ElbRegion(listing: Result<seq<LoadBalancer>>, region: string,
                     describeTags: (string, seq<string>) -> Result<seq<TagDescription>>): Result<seq<CollectedResource>> {
    var lbs :- listing;
    if |lbs| == 0 then Ok([])
    else
      var tagsMap :- ElbTagsMap(region, Chunks(lbs, TagBatch), map[], describeTags);
      Ok(MapRecords(lbs, lb => ElbRecord(lb, region, tagsMap)))
  }

  function CollectElb(regions: seq<string>, describe: string -> Result<seq<LoadBalancer>>,
                      describeTags: (string, seq<string>) -> Result<seq<TagDescription>>): Result<seq<CollectedResource>> {
    ForEach(regions, region => ElbRegion(describe(region), region, describeTags))
  }

  /** A listed region fails exactly when one of its tag requests fails, and
      otherwise yields one record per balancer, in order. */
  lemma ElbRegionOutcome(lbs: seq<LoadBalancer>, region: string,
                         describeTags: (string, seq<string>) -> Result<seq<TagDescription>>)
    ensures var out := ElbRegion(Ok(lbs), region, describeTags);
      var cs := Chunks(lbs, TagBatch);
      && (out.Ok? <==> forall i :: 0 <= i < |cs| && |KnownArns(cs[i])| > 0 ==> describeTags(region, KnownArns(cs[i])).Ok?)
      && (out.Ok? ==> |out.value| == |lbs|)
      && (out.Ok? ==> forall i :: 0 <= i < |lbs| ==> out.value[i].arn == OrEmpty(lbs[i].arn) && out.value[i].region == region)
  {
    var out := ElbRegion(Ok(lbs), region, describeTags);
    if |lbs| > 0 {
      var cs := Chunks(lbs, TagBatch);
      var tagsMap := ElbTagsMap(region, cs, map[], describeTags);
      assert tagsMap.Ok? <==> forall i :: 0 <= i < |cs| && |KnownArns(cs[i])| > 0 ==> describeTags(region, KnownArns(cs[i])).Ok?;
      assert out.Ok? <==> tagsMap.Ok?;
      if tagsMap.Ok? {
        assert out.value == MapRecords(lbs, lb => ElbRecord(lb, region, tagsMap.value));
      }
    } else {
      assert |Chunks(lbs, TagBatch)| == 0;
    }
  }

  /** Every ELB record is a balancer of one of the scanned regions. */
  lemma ElbRecordsFromRegions(regions: seq<string>, describe: string -> Result<seq<LoadBalancer>>,
                              describeTags: (string, seq<string>) -> Result<seq<TagDescription>>)
    requires CollectElb(regions, describe, describeTags).Ok?
    ensures forall r :: r in CollectElb(regions, describe, describeTags).value ==> r.resourceType == ElbType && r.region in regions
  {
    RegionsStamped(regions, region => ElbRegion(describe(region), region, describeTags), ElbType);
  }

  /** A balancer's addresses are exactly those among its zones' address texts
      that parse; a missing or malformed text is dropped. */
  lemma ElbAddresses(lb: LoadBalancer, region: string, tagsMap: map<string, map<string, string>>)
    ensures forall ip :: ip in ElbRecord(lb, region, tagsMap).ips <==>
      exists i :: 0 <= i < |AddressTexts(lb.zones)| && AddressTexts(lb.zones)[i].Some?
        && Parse(AddressTexts(lb.zones)[i].value) == Some(ip)
  {
    ParsedIpsMembers(AddressTexts(lb.zones));
  }

  /** Parsing a concatenation of texts is parsing each part. */
  lemma {:induction false} ParsedIpsAppend(a: seq<Option<string>>, b: seq<Option<string>>)
    ensures ParsedIps(a + b) == ParsedIps(a) + ParsedIps(b)
    decreases |a|
  {
    if |a| == 0 {
      assert a + b == b;
    } else {
      ParsedIpsAppend(a[1..], b);
      assert (a + b)[1..] == a[1..] + b;
    }
  }

  /** Parsing the texts of several groups is parsing group by group, in
      group order. */
  lemma {:induction false} ParsedIpsFlatten(xss: seq<seq<Option<string>>>)
    ensures ParsedIps(Flatten(xss)) == Flatten(seq(|xss|, i requires 0 <= i < |xss| => ParsedIps(xss[i])))
    decreases |xss|
  {
    if |xss| > 0 {
      ParsedIpsFlatten(xss[1..]);
      ParsedIpsAppend(xss[0], Flatten(xss[1..]));
      var parsed := seq(|xss|, i requires 0 <= i < |xss| => ParsedIps(xss[i]));
      assert parsed[1..] == seq(|xss[1..]|, i requires 0 <= i < |xss[1..]| => ParsedIps(xss[1..][i]));
    }
  }

  /** A balancer's addresses go zone by zone, in zone order, and inside a
      zone in address order, each zone keeping the texts that parse. */
  lemma ElbAddressesByZone(lb: LoadBalancer, region: string, tagsMap: map<string, map<string, string>>)
    ensures var zs := OrNone(lb.zones);
      ElbRecord(lb, region, tagsMap).ips == Flatten(seq(|zs|, i requires 0 <= i < |zs| => ParsedIps(ZoneTexts(zs[i]))))
  {
    var zs := OrNone(lb.zones);
    var texts := seq(|zs|, i requires 0 <= i < |zs| => ZoneTexts(zs[i]));
    ParsedIpsFlatten(texts);
    assert seq(|texts|, i requires 0 <= i < |texts| => ParsedIps(texts[i]))
      == seq(|zs|, i requires 0 <= i < |zs| => ParsedIps(ZoneTexts(zs[i])));
  }

  /** When every zone reports printed addresses, the record holds exactly
      those addresses: the first zone's in its order, then the next zone's,
      and so on. */
  lemma ElbPrintedAddresses(lb: LoadBalancer, region: string, tagsMap: map<string, map<string, string>>,
                            addrs: seq<seq<IpAddr>>)
    requires |addrs| == |OrNone(lb.zones)|
    requires forall i :: 0 <= i < |addrs| ==>
      ZoneTexts(OrNone(lb.zones)[i]) == seq(|addrs[i]|, j requires 0 <= j < |addrs[i]| => Some(ToString(addrs[i][j])))
    ensures ElbRecord(lb, region, tagsMap).ips == Flatten(addrs)
  {
    var zs := OrNone(lb.zones);
    ElbAddressesByZone(lb, region, tagsMap);
    forall i | 0 <= i < |zs|
      ensures ParsedIps(ZoneTexts(zs[i])) == addrs[i]
    {
      ParsedIpsOfPrinted(addrs[i]);
    }
    assert seq(|zs|, i requires 0 <= i < |zs| => ParsedIps(ZoneTexts(zs[i]))) == addrs;
  }

  // ---------------------------------------------------------------------
  // EKS
  // ---------------------------------------------------------------------

  datatype CertificateAuthority = CertificateAuthority(data: Option<string>)

  datatype EksCluster = EksCluster(endpoint: Option<string>, certificateAuthority: Option<CertificateAuthority>)

  /** What DescribeCluster gives: a description, or a failure (a cluster the
      service does not know, or any other error) */
  datatype DescribeOutcome = Described(cluster: Option<EksCluster>) | DescribeFailed(notFound: bool)

  datatype PodStatus = PodStatus(podIp: Option<string>)

  datatype Pod = Pod(
    name: Option<string>,
    generateName: Option<string>,
    namespace: Option<string>,
    labels: Option<map<string, string>>,
    status: Option<PodStatus>)

  /** The calls the EKS collector makes. `connect` stands for building the
      kubeconfig and the Kubernetes client from a cluster, its endpoint, its
      CA data and the token command's arguments. */
  datatype EksApi = EksApi(
    listClusters: string -> Result<seq<string>>,
    describeCluster: (string, string) -> DescribeOutcome,
    connect: (string, string, string, seq<string>) -> Result<()>,
    listPods: (string, string) -> Result<seq<Pod>>)

  /** The clusters scanned in a region: the explicit list, or discovery when
      that list is empty */
  function ClustersToProcess(explicit: seq<string>, region: string, api: EksApi): (r: Result<seq<string>>)
    ensures |explicit| > 0 ==> r == Ok(explicit)
    ensures |explicit| == 0 ==> r == api.listClusters(region)
  {
    if |explicit| == 0 then api.listClusters(region) else Ok(explicit)
  }

  /** An explicit list never consults discovery: the clusters scanned are
      the list, whatever the service would list. An empty list scans exactly
      what the service lists, and fails exactly when listing fails. */
  lemma ClustersExplicitOrDiscovered(explicit: seq<string>, region: string, api: EksApi, other: EksApi)
    ensures |explicit| > 0 ==> ClustersToProcess(explicit, region, api) == ClustersToProcess(explicit, region, other)
    ensures |explicit| > 0 ==> ClustersToProcess(explicit, region, api) == Ok(explicit)
    ensures |explicit| == 0 ==> (ClustersToProcess(explicit, region, api).Ok? <==> api.listClusters(region).Ok?)
    ensures |explicit| == 0 && api.listClusters(region) == other.listClusters(region) ==>
      ClustersToProcess(explicit, region, api) == ClustersToProcess(explicit, region, other)
  {}

  /** The arguments of `aws eks get-token` for a cluster */
  function ExecArgs(cluster: string, region: string, profile: string): seq<string> {
    ["eks", "get-token", "--cluster-name", cluster, "--region", region]
      + (if profile != "" then ["--profile", profile] else [])
  }

  /** Reading `--flag value` pairs the way a command line parser does; a
      later flag overrides an earlier one. */
  function FlagValues(args: seq<string>): map<string, string>
    decreases |args|
  {
    if |args| < 2 then map[] else FlagValues(args[2..])[args[0] := args[1]]
  }

  /** The token command names the cluster and the region, and the profile
      exactly when one is set. */
  lemma ExecArgsRead(cluster: string, region: string, profile: string)
    ensures var args := ExecArgs(cluster, region, profile);
      && args[..2] == ["eks", "get-token"]
      && FlagValues(args[2..]) == map["--cluster-name" := cluster, "--region" := region]
           + (if profile != "" then map["--profile" := profile] else map[])
  {
    var args := ExecArgs(cluster, region, profile);
    if profile != "" {
      assert args[2..][2..] == ["--region", region, "--profile", profile];
      assert args[2..][2..][2..] == ["--profile", profile];
      assert args[2..][2..][2..][2..] == [];
      assert FlagValues(args[2..][2..][2..]) == map["--profile" := profile];
      assert FlagValues(args[2..][2..]) == map["--profile" := profile]["--region" := region];
      assert FlagValues(args[2..]) == map["--profile" := profile]["--region" := region]["--cluster-name" := cluster];
    } else {
      assert args[2..][2..] == ["--region", region];
      assert args[2..][2..][2..] == [];
      assert FlagValues(args[2..][2..]) == map["--region" := region];
      assert FlagValues(args[2..]) == map["--region" := region]["--cluster-name" := cluster];
    }
  }

  /** kube's `name_any`: the name, else the generated-name prefix, else "" */
  function NameAny(pod: Pod): string {
    match pod.name
    case Some(n) => n
    case None => OrEmpty(pod.generateName)
  }

  /** The address a pod reports, when it reports one that parses */
  function PodAddress(pod: Pod): Option<IpAddr> {
    match pod.status
    case Some(st) =>
      (match st.podIp
       case Some(t) => Parse(t)
       case None => None)
    case None => None
  }

  /** The pod's record, if it has an address */
  function PodRecord(pod: Pod, region: string, cluster: string): Option<CollectedResource> {
    match PodAddress(pod)
    case Some(ip) =>
      var name := NameAny(pod);
      var namespace := OrEmpty(pod.namespace);
      Some(CollectedResource(
        region + "/" + cluster + "/" + namespace + "/" + name,
        name,
        EksType,
        region,
        [ip],
        (match pod.labels case Some(l) => l case None => map[]),
        Object([("cluster", Str(cluster)), ("namespace", Str(namespace))])))
    case None => None
  }

  function PodRecords(pods: seq<Pod>, region: string, cluster: string): seq<CollectedResource>
    decreases |pods|
  {
    if |pods| == 0 then []
    else
      var rest := PodRecords(pods[1..], region, cluster);
      match PodRecord(pods[0], region, cluster)
      case Some(r) => [r] + rest
      case None => rest
  }

  /** A pod with an address yields a record carrying that one address; its
      arn `region/cluster/namespace/name` splits back into those four parts
      when none of them contains a `/`. */
  lemma PodRecordFacts(pod: Pod, region: string, cluster: string)
    ensures PodRecord(pod, region, cluster).Some? <==> PodAddress(pod).Some?
    ensures PodAddress(pod).Some? ==>
      var r := PodRecord(pod, region, cluster).value;
      && r.ips == [PodAddress(pod).value] && r.name == NameAny(pod) && r.region == region
      && ('/' !in region && '/' !in cluster && '/' !in OrEmpty(pod.namespace) && '/' !in NameAny(pod) ==>
            Split(r.arn, '/') == [region, cluster, OrEmpty(pod.namespace), NameAny(pod)])
  {
    if PodAddress(pod).Some? {
      var r := PodRecord(pod, region, cluster).value;
      var parts := [region, cluster, OrEmpty(pod.namespace), NameAny(pod)];
      if '/' !in region && '/' !in cluster && '/' !in OrEmpty(pod.namespace) && '/' !in NameAny(pod) {
        assert Join(parts[3..], '/') == NameAny(pod);
        assert Join(parts[2..], '/') == OrEmpty(pod.namespace) + "/" + NameAny(pod);
        assert Join(parts[1..], '/') == cluster + "/" + OrEmpty(pod.namespace) + "/" + NameAny(pod);
        assert Join(parts, '/') == r.arn;
        SplitJoin(parts, '/');
      }
    }
  }

  /** The pods' records are pods of the region, one address each, and the
      addresses they carry are exactly the addresses the pods report. */
  lemma {:induction false} PodRecordsAddresses(pods: seq<Pod>, region: string, cluster: string)
    ensures forall r :: r in PodRecords(pods, region, cluster) ==>
      r.region == region && r.resourceType == EksType && |r.ips| == 1
    ensures forall ip :: (exists r :: r in PodRecords(pods, region, cluster) && ip in r.ips) <==>
      exists p :: p in pods && PodAddress(p) == Some(ip)
    decreases |pods|
  {
    if |pods| > 0 {
      var rest := PodRecords(pods[1..], region, cluster);
      PodRecordsAddresses(pods[1..], region, cluster);
      assert forall p :: p in pods <==> p == pods[0] || p in pods[1..];
      var all := PodRecords(pods, region, cluster);
      assert forall r :: r in all <==> r in rest || Some(r) == PodRecord(pods[0], region, cluster);
      forall ip | exists p :: p in pods && PodAddress(p) == Some(ip)
        ensures exists r :: r in all && ip in r.ips
      {
        var p :| p in pods && PodAddress(p) == Some(ip);
        if p == pods[0] {
          var r := PodRecord(p, region, cluster).value;
          assert r in all && ip in r.ips;
        } else {
          assert exists r :: r in rest && ip in r.ips;
        }
      }
    }
  }

  /** One cluster: a failed describe, a missing endpoint or CA, or a failed
      pod listing skips it; a description without a cluster panics; a failed
      client setup fails the run. */
  function ClusterPods(api: EksApi, region: string, cluster: string, profile: string): Result<seq<CollectedResource>> {
    match api.describeCluster(region, cluster)
    case DescribeFailed(_) => Ok([])
    case Described(None) => Err(Panicked("called `Option::unwrap()` on a `None` value"))
    case Described(Some(c)) =>
      match (c.endpoint, c.certificateAuthority)
      case (Some(endpoint), Some(CertificateAuthority(Some(ca)))) =>
        var _ :- api.connect(cluster, endpoint, ca, ExecArgs(cluster, region, profile));
        (match api.listPods(region, cluster)
         case Ok(pods) => Ok(PodRecords(pods, region, cluster))
         case Err(_) => Ok([]))
      case _ => Ok([])
  }

  function EksRegion(api: EksApi, explicit: seq<string>, region: string, profile: string): Result<seq<CollectedResource>> {
    var clusters :- ClustersToProcess(explicit, region, api);
    ForEach(clusters, cluster => ClusterPods(api, region, cluster, profile))
  }

  function CollectEks(api: EksApi, explicit: seq<string>, regions: seq<string>, profile: string): Result<seq<CollectedResource>> {
    ForEach(regions, region => EksRegion(api, explicit, region, profile))
  }

  /** A cluster that cannot be described is skipped; a cluster fails only by
      a description without a cluster or a failed client setup; its records
      are pods of its region. */
  lemma ClusterPodsFacts(api: EksApi, region: string, cluster: string, profile: string)
    ensures api.describeCluster(region, cluster).DescribeFailed? ==> ClusterPods(api, region, cluster, profile) == Ok([])
    ensures ClusterPods(api, region, cluster, profile).Err? ==>
      api.describeCluster(region, cluster) == Described(None)
      || exists endpoint, ca ::
        api.describeCluster(region, cluster) == Described(Some(EksCluster(Some(endpoint), Some(CertificateAuthority(Some(ca))))))
        && api.connect(cluster, endpoint, ca, ExecArgs(cluster, region, profile)).Err?
    ensures ClusterPods(api, region, cluster, profile).Ok? ==>
      forall r :: r in ClusterPods(api, region, cluster, profile).value ==> r.region == region && r.resourceType == EksType
  {
    var d := api.describeCluster(region, cluster);
    if d.Described? && d.cluster.Some? {
      var c := d.cluster.value;
      if c.endpoint.Some? && c.certificateAuthority.Some? && c.certificateAuthority.value.data.Some? {
        var endpoint, ca := c.endpoint.value, c.certificateAuthority.value.data.value;
        assert c == EksCluster(Some(endpoint), Some(CertificateAuthority(Some(ca))));
        if api.listPods(region, cluster).Ok? {
          PodRecordsAddresses(api.listPods(region, cluster).value, region, cluster);
        }
      }
    }
  }

  /** Every EKS record is a pod of one of the scanned regions. */
  lemma EksRecordsFromRegions(api: EksApi, explicit: seq<string>, regions: seq<string>, profile: string)
    requires CollectEks(api, explicit, regions, profile).Ok?
    ensures forall r :: r in CollectEks(api, explicit, regions, profile).value ==> r.resourceType == EksType && r.region in regions
  {
    forall i | 0 <= i < |regions| && EksRegion(api, explicit, regions[i], profile).Ok?
      ensures Stamped(EksRegion(api, explicit, regions[i], profile).value, EksType, regions[i])
    {
      var region := regions[i];
      var clusters := ClustersToProcess(explicit, region, api).value;
      forall j | 0 <= j < |clusters| && ClusterPods(api, region, clusters[j], profile).Ok?
        ensures Stamped(ClusterPods(api, region, clusters[j], profile).value, EksType, region)
      {
        ClusterPodsFacts(api, region, clusters[j], profile);
      }
      ItemsStamped(clusters, cluster => ClusterPods(api, region, cluster, profile), EksType, region);
    }
    RegionsStamped(regions, region => EksRegion(api, explicit, region, profile), EksType);
  }

  // ---------------------------------------------------------------------
  // RDS
  // ---------------------------------------------------------------------

  datatype DbInstance = DbInstance(
    identifier: Option<string>,
    arn: Option<string>,
    tagList: Option<seq<SdkTag>>,
    engine: Option<string>,
    instanceClass: Option<string>,
    publiclyAccessible: Option<bool>)

  /** RDS endpoints are host names, so an instance has no addresses. */
  function RdsRecord(db: DbInstance, region: string): CollectedResource {
    CollectedResource(
      OrEmpty(db.arn),
      OrEmpty(db.identifier),
      RdsType,
      region,
      [],
      TagMap(OrNone(db.tagList)),
      Object([("engine", OptText(db.engine)), ("instance_class", OptText(db.instanceClass)),
              ("publicly_accessible", OptBool(db.publiclyAccessible))]))
  }

  function RdsRegion(listing: Result<seq<DbInstance>>, region: string): Result<seq<CollectedResource>> {
    var dbs :- listing;
    Ok(MapRecords(dbs, db => RdsRecord(db, region)))
  }

  function CollectRds(regions: seq<string>, describe: string -> Result<seq<DbInstance>>): Result<seq<CollectedResource>> {
    ForEach(regions, region => RdsRegion(describe(region), region))
  }

  /** Every RDS record is an instance of one of the scanned regions. */
  lemma RdsRecordsFromRegions(regions: seq<string>, describe: string -> Result<seq<DbInstance>>)
    requires CollectRds(regions, describe).Ok?
    ensures forall r :: r in CollectRds(regions, describe).value ==> r.resourceType == RdsType && r.region in regions
  {
    RegionsStamped(regions, region => RdsRegion(describe(region), region), RdsType);
  }

  /** RDS records carry no addresses, and each names its instance by the
      identifier under the instance's arn. */
  lemma RdsHasNoAddresses(regions: seq<string>, describe: string -> Result<seq<DbInstance>>)
    requires CollectRds(regions, describe).Ok?
    ensures Addressless(CollectRds(regions, describe).value)
    ensures forall r :: r in CollectRds(regions, describe).value ==>
      exists i, db :: 0 <= i < |regions| && describe(regions[i]).Ok? && db in describe(regions[i]).value
        && r.arn == OrEmpty(db.arn) && r.name == OrEmpty(db.identifier)
  {
    var step := region => RdsRegion(describe(region), region);
    ForEachRecords(regions, step);
    ItemsAddressless(regions, step);
    forall r | r in CollectRds(regions, describe).value
      ensures exists i, db ::
        0 <= i < |regions| && describe(regions[i]).Ok? && db in describe(regions[i]).value
        && r.arn == OrEmpty(db.arn) && r.name == OrEmpty(db.identifier)
    {
      var i :| 0 <= i < |regions| && r in step(regions[i]).value;
      var dbs := describe(regions[i]).value;
      var k :| 0 <= k < |dbs| && step(regions[i]).value[k] == r;
      assert dbs[k] in dbs;
    }
  }

  // ---------------------------------------------------------------------
  // DynamoDB
  // ---------------------------------------------------------------------

  /** DynamoDB tags always carry both a key and a value. */
  datatype DynamoTag = DynamoTag(key: string, value: string)

  datatype Table = Table(arn: Option<string>, name: Option<string>, itemCount: Option<int>, sizeBytes: Option<int>)

  /** The calls the DynamoDB collector makes; a description may lack its table. */
  datatype DynamoDbApi = DynamoDbApi(
    listTables: string -> Result<seq<string>>,
    describeTable: (string, string) -> Result<Option<Table>>,
    listTags: (string, string) -> Result<seq<DynamoTag>>)

  function DynamoPairs(tags: seq<DynamoTag>): seq<(string, string)> {
    seq(|tags|, i requires 0 <= i < |tags| => (tags[i].key, tags[i].value))
  }

  /** One table: a failed describe or tag request fails the run, and a
      description without a table or a table without an arn panics. */
  function TableRecords(api: DynamoDbApi, region: string, tableName: string): Result<seq<CollectedResource>> {
    var desc :- api.describeTable(region, tableName);
    match desc
    case None => Err(Panicked("called `Option::unwrap()` on a `None` value"))
    case Some(table) =>
      match table.arn
      case None => Err(Panicked("called `Option::unwrap()` on a `None` value"))
      case Some(arn) =>
        var tags :- api.listTags(region, arn);
        Ok([CollectedResource(
          arn,
          OrEmpty(table.name),
          DynamoDbType,
          region,
          [],
          PairMap(DynamoPairs(tags)),
          Object([("item_count", OptNumber(table.itemCount)), ("table_size_bytes", OptNumber(table.sizeBytes))]))])
  }

  /** A table yields one record, under the arn its description carries, or
      fails; it fails exactly when a request fails or the description lacks
      the table or its arn. */
  lemma TableRecordsOutcome(api: DynamoDbApi, region: string, tableName: string)
    ensures var out := TableRecords(api, region, tableName);
      var desc := api.describeTable(region, tableName);
      && (out.Ok? <==>
            desc.Ok? && desc.value.Some? && desc.value.value.arn.Some? && api.listTags(region, desc.value.value.arn.value).Ok?)
      && (out.Ok? ==>
            |out.value| == 1 && out.value[0].arn == desc.value.value.arn.value && out.value[0].resourceType == DynamoDbType
            && out.value[0].region == region)
      && (desc.Ok? && (desc.value.None? || desc.value.value.arn.None?) ==> out.Err? && out.error.Panicked?)
  {}

  function DynamoDbRegion(api: DynamoDbApi, region: string): Result<seq<CollectedResource>> {
    var names :- api.listTables(region);
    ForEach(names, name => TableRecords(api, region, name))
  }

  function CollectDynamoDb(api: DynamoDbApi, regions: seq<string>): Result<seq<CollectedResource>> {
    ForEach(regions, region => DynamoDbRegion(api, region))
  }

  /** Every DynamoDB record is a table of one of the scanned regions. */
  lemma DynamoDbRecordsFromRegions(api: DynamoDbApi, regions: seq<string>)
    requires CollectDynamoDb(api, regions).Ok?
    ensures forall r :: r in CollectDynamoDb(api, regions).value ==> r.resourceType == DynamoDbType && r.region in regions
  {
    forall i | 0 <= i < |regions| && DynamoDbRegion(api, regions[i]).Ok?
      ensures Stamped(DynamoDbRegion(api, regions[i]).value, DynamoDbType, regions[i])
    {
      var region := regions[i];
      var names := api.listTables(region).value;
      forall j | 0 <= j < |names| && TableRecords(api, region, names[j]).Ok?
        ensures Stamped(TableRecords(api, region, names[j]).value, DynamoDbType, region)
      {
        TableRecordsOutcome(api, region, names[j]);
      }
      ItemsStamped(names, name => TableRecords(api, region, name), DynamoDbType, region);
    }
    RegionsStamped(regions, region => DynamoDbRegion(api, region), DynamoDbType);
  }

  /** DynamoDB records carry no addresses. */
  lemma DynamoDbHasNoAddresses(api: DynamoDbApi, regions: seq<string>)
    requires CollectDynamoDb(api, regions).Ok?
    ensures Addressless(CollectDynamoDb(api, regions).value)
  {
    forall i | 0 <= i < |regions| && DynamoDbRegion(api, regions[i]).Ok?
      ensures Addressless(DynamoDbRegion(api, regions[i]).value)
    {
      var region := regions[i];
      ItemsAddressless(api.listTables(region).value, name => TableRecords(api, region, name));
    }
    ItemsAddressless(regions, region => DynamoDbRegion(api, region));
  }

  // ---------------------------------------------------------------------
  // ElastiCache
  // ---------------------------------------------------------------------

  datatype CacheCluster = CacheCluster(
    arn: Option<string>,
    id: Option<string>,
    engine: Option<string>,
    engineVersion: Option<string>,
    nodeType: Option<string>)

  datatype ElastiCacheApi = ElastiCacheApi(
    describeClusters: string -> Result<seq<CacheCluster>>,
    listTags: (string, string) -> Result<seq<SdkTag>>)

  /** One cache cluster: a failed tag request fails the run; node endpoints
      are host names, so a cluster has no addresses. */
  function CacheClusterRecords(api: ElastiCacheApi, region: string, c: CacheCluster): Result<seq<CollectedResource>> {
    var arn := OrEmpty(c.arn);
    var tags :- api.listTags(region, arn);
    Ok([CollectedResource(
      arn,
      OrEmpty(c.id),
      ElastiCacheType,
      region,
      [],
      TagMap(tags),
      Object([("engine", OptText(c.engine)), ("engine_version", OptText(c.engineVersion)),
              ("cache_node_type", OptText(c.nodeType))]))])
  }

  function ElastiCacheRegion(api: ElastiCacheApi, region: string): Result<seq<CollectedResource>> {
    var clusters :- api.describeClusters(region);
    ForEach(clusters, c => CacheClusterRecords(api, region, c))
  }

  function CollectElastiCache(api: ElastiCacheApi, regions: seq<string>): Result<seq<CollectedResource>> {
    ForEach(regions, region => ElastiCacheRegion(api, region))
  }

  /** Every ElastiCache record is a cluster of one of the scanned regions. */
  lemma ElastiCacheRecordsFromRegions(api: ElastiCacheApi, regions: seq<string>)
    requires CollectElastiCache(api, regions).Ok?
    ensures forall r :: r in CollectElastiCache(api, regions).value ==> r.resourceType == ElastiCacheType && r.region in regions
  {
    forall i | 0 <= i < |regions| && ElastiCacheRegion(api, regions[i]).Ok?
      ensures Stamped(ElastiCacheRegion(api, regions[i]).value, ElastiCacheType, regions[i])
    {
      var region := regions[i];
      ItemsStamped(api.describeClusters(region).value, c => CacheClusterRecords(api, region, c), ElastiCacheType, region);
    }
    RegionsStamped(regions, region => ElastiCacheRegion(api, region), ElastiCacheType);
  }

  /** ElastiCache records carry no addresses. */
  lemma ElastiCacheHasNoAddresses(api: ElastiCacheApi, regions: seq<string>)
    requires CollectElastiCache(api, regions).Ok?
    ensures Addressless(CollectElastiCache(api, regions).value)
  {
    forall i | 0 <= i < |regions| && ElastiCacheRegion(api, regions[i]).Ok?
      ensures Addressless(ElastiCacheRegion(api, regions[i]).value)
    {
      var region := regions[i];
      ItemsAddressless(api.describeClusters(region).value, c => CacheClusterRecords(api, region, c));
    }
    ItemsAddressless(regions, region => ElastiCacheRegion(api, region));
  }
}
