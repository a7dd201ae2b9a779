/**
 The `inventory` command of src/main.rs: which services and regions a run
 covers, which collectors it builds, and the loop that collects, saves and
 counts. The database starts as a given store (opening it is I/O), the
 service APIs are the collectors' parameters, and the list of regions that
 `all` stands for is a parameter (src/config.rs is not part of this model).
 */
module Run {
  import opened Base
  import opened Inventory
  import opened Db
  import Query

  /** The command's options */
  datatype Options = Options(
    profile: Option<string>,
    regions: seq<string>,
    services: seq<string>,
    allServices: bool,
    noEks: bool,
    eksClusters: seq<string>)

  /** The service names `--all-services` stands for, in run order */
  const AllServices: seq<string> := ["ec2", "elb", "rds", "dynamodb", "elasticache", "eks", "route53"]

  /** `retain(|s| s != x)`: the list without `x`, order kept */
  function Without(xs: seq<string>, x: string): (ys: seq<string>)
    ensures |ys| <= |xs|
    decreases |xs|
  {
    if |xs| == 0 then []
    else if xs[0] == x then Without(xs[1..], x)
    else [xs[0]] + Without(xs[1..], x)
  }

  /** Removing `x` keeps every other entry, drops every `x`, and changes
      nothing when there is none. */
  lemma {:induction false} WithoutContents(xs: seq<string>, x: string)
    ensures forall y :: y in Without(xs, x) <==> y in xs && y != x
    ensures x !in xs ==> Without(xs, x) == xs
    decreases |xs|
  {
    if |xs| > 0 {
      WithoutContents(xs[1..], x);
      assert forall y :: y in xs <==> y == xs[0] || y in xs[1..];
      if x !in xs {
        assert xs == [xs[0]] + xs[1..];
      }
    }
  }

  /** Removal works entry by entry: on a concatenation it is the
      concatenation of the removals. */
  lemma {:induction false} WithoutAppend(a: seq<string>, b: seq<string>, x: string)
    ensures Without(a + b, x) == Without(a, x) + Without(b, x)
    decreases |a|
  {
    if |a| == 0 {
      assert a + b == b;
    } else {
      WithoutAppend(a[1..], b, x);
      assert (a + b)[1..] == a[1..] + b;
    }
  }

  /** A single entry survives exactly when it is not `x`. */
  lemma WithoutSingle(y: string, x: string)
    ensures Without([y], x) == (if y == x then [] else [y])
  {
    assert [y][1..] == [];
  }

  /** Every name other than `x` keeps its number of occurrences; `x` has none
      left. */
  lemma {:induction false} WithoutCounts(xs: seq<string>, x: string)
    ensures multiset(Without(xs, x)) == multiset(xs)[x := 0]
    decreases |xs|
  {
    if |xs| > 0 {
      WithoutCounts(xs[1..], x);
      assert xs == [xs[0]] + xs[1..];
      assert multiset(xs) == multiset{xs[0]} + multiset(xs[1..]);
    }
  }

  /** `--all-services --no-eks` runs every service but EKS, in run order. */
  lemma AllServicesWithoutEks()
    ensures Without(AllServices, "eks") == ["ec2", "elb", "rds", "dynamodb", "elasticache", "route53"]
  {
    var head := ["ec2", "elb", "rds", "dynamodb", "elasticache"];
    assert AllServices == head + (["eks"] + ["route53"]);
    WithoutAppend(head, ["eks"] + ["route53"], "eks");
    WithoutAppend(["eks"], ["route53"], "eks");
    WithoutSingle("eks", "eks");
    WithoutSingle("route53", "eks");
    WithoutContents(head, "eks");
  }

  /** The services a run covers: all of them, or the given list, or `ec2`
      when none is given; `--no-eks` then removes `eks` whatever was asked. */
  function ResolveServices(opts: Options): seq<string> {
    var chosen := if opts.allServices then AllServices else if |opts.services| == 0 then ["ec2"] else opts.services;
    if opts.noEks then Without(chosen, "eks") else chosen
  }

  /** The resolved list: `--no-eks` wins over everything, `--all-services`
      wins over the list, and an empty list means `ec2` alone. */
  lemma ResolveServicesFacts(opts: Options)
    ensures opts.noEks ==> "eks" !in ResolveServices(opts)
    ensures !opts.noEks && opts.allServices ==> ResolveServices(opts) == AllServices
    ensures !opts.allServices && |opts.services| == 0 ==> ResolveServices(opts) == ["ec2"]
    ensures !opts.noEks && !opts.allServices && |opts.services| > 0 ==> ResolveServices(opts) == opts.services
    ensures forall s :: s in ResolveServices(opts) <==>
      s in (if opts.allServices then AllServices else if |opts.services| == 0 then ["ec2"] else opts.services)
      && !(opts.noEks && s == "eks")
    ensures opts.noEks && opts.allServices ==>
      ResolveServices(opts) == ["ec2", "elb", "rds", "dynamodb", "elasticache", "route53"]
    ensures opts.noEks && !opts.allServices && |opts.services| > 0 ==>
      ResolveServices(opts) == Without(opts.services, "eks")
      && multiset(ResolveServices(opts)) == multiset(opts.services)["eks" := 0]
  {
    var chosen := if opts.allServices then AllServices else if |opts.services| == 0 then ["ec2"] else opts.services;
    WithoutContents(chosen, "eks");
    WithoutCounts(chosen, "eks");
    AllServicesWithoutEks();
  }

  /** The regions each collector receives: the available regions when any
      given region is `all`, the given ones otherwise */
  function ExpandRegions(regions: seq<string>, available: seq<string>): (scan: seq<string>)
    ensures "all" in regions ==> scan == available
    ensures "all" !in regions ==> scan == regions
  {
    if "all" in regions then available else regions
  }

  /** What the collectors receive: `all` anywhere, whatever else is given,
      means the available regions and never reaches a collector itself
      unless that list holds it; without `all` the given regions pass
      unchanged, repeats included; expanding again changes nothing. */
  lemma ExpandRegionsFacts(regions: seq<string>, available: seq<string>)
    ensures "all" in regions ==> ExpandRegions(regions, available) == ExpandRegions(["all"], available)
    ensures "all" in ExpandRegions(regions, available) ==> "all" in available
    ensures forall r :: r in ExpandRegions(regions, available) ==> r in available || r in regions
    ensures "all" !in regions ==> ExpandRegions(regions, available) == regions
    ensures "all" !in available ==>
      ExpandRegions(ExpandRegions(regions, available), available) == ExpandRegions(regions, available)
  {}

  datatype Collector =
    | Ec2Collector
    | ElbCollector
    | RdsCollector
    | DynamoDbCollector
    | ElastiCacheCollector
    | EksCollector(clusters: seq<string>)
    | Route53Collector

  /** The collector a service name selects; an unknown name selects none and
      is skipped. */
  function Dispatch(service: string, eksClusters: seq<string>): Option<Collector> {
    match service
    case "ec2" => Some(Ec2Collector)
    case "elb" => Some(ElbCollector)
    case "rds" => Some(RdsCollector)
    case "dynamodb" => Some(DynamoDbCollector)
    case "elasticache" => Some(ElastiCacheCollector)
    case "eks" => Some(EksCollector(eksClusters))
    case "route53" => Some(Route53Collector)
    case _ => None
  }

  /** The collectors of a service list, in list order, unknown names skipped */
  function Collectors(services: seq<string>, eksClusters: seq<string>): seq<Collector>
    decreases |services|
  {
    if |services| == 0 then []
    else
      var rest := Collectors(services[1..], eksClusters);
      match Dispatch(services[0], eksClusters)
      case Some(c) => [c] + rest
      case None => rest
  }

  /** The resource type a collector stamps on its records */
  function TypeOf(c: Collector): string {
    match c
    case Ec2Collector => Ec2Type
    case ElbCollector => ElbType
    case RdsCollector => RdsType
    case DynamoDbCollector => DynamoDbType
    case ElastiCacheCollector => ElastiCacheType
    case EksCollector(_) => EksType
    case Route53Collector => Route53Type
  }

  /** The command line and the query agree on service names: a name selects a
      collector exactly when the query knows it as a short name, and then the
      collector's records carry the type the query maps the name to. */
  lemma DispatchMatchesQuery(service: string, eksClusters: seq<string>)
    ensures Dispatch(service, eksClusters).Some? <==> Query.IsShortName(service)
    ensures Dispatch(service, eksClusters).Some? ==>
      TypeOf(Dispatch(service, eksClusters).value) == Query.MapServiceName(service)
  {
    if Query.IsShortName(service) {
      var i :| 0 <= i < |Query.ShortNames| && Query.ShortNames[i].0 == service;
      Query.MapShortName(i);
    } else {
      assert Query.ShortNames[0].0 != service && Query.ShortNames[1].0 != service;
      assert Query.ShortNames[2].0 != service && Query.ShortNames[3].0 != service;
      assert Query.ShortNames[4].0 != service && Query.ShortNames[5].0 != service;
      assert Query.ShortNames[6].0 != service;
    }
  }

  /** Collectors are built for exactly the known names, in order. */
  lemma {:induction false} CollectorsOfKnownNames(services: seq<string>, eksClusters: seq<string>)
    ensures forall c :: c in Collectors(services, eksClusters) <==>
      exists i :: 0 <= i < |services| && Dispatch(services[i], eksClusters) == Some(c)
    ensures |Collectors(services, eksClusters)| <= |services|
    decreases |services|
  {
    if |services| > 0 {
      CollectorsOfKnownNames(services[1..], eksClusters);
      forall c | exists i :: 0 <= i < |services| && Dispatch(services[i], eksClusters) == Some(c)
        ensures c in Collectors(services, eksClusters)
      {
        var i :| 0 <= i < |services| && Dispatch(services[i], eksClusters) == Some(c);
        if i > 0 {
          assert services[1..][i - 1] == services[i];
        }
      }
      forall c | c in Collectors(services[1..], eksClusters)
        ensures exists i :: 0 <= i < |services| && Dispatch(services[i], eksClusters) == Some(c)
      {
        var i :| 0 <= i < |services[1..]| && Dispatch(services[1..][i], eksClusters) == Some(c);
        assert services[i + 1] == services[1..][i];
      }
    }
  }

  /** A list of known names builds one collector per name, position by
      position, repeated names included. */
  lemma {:induction false} CollectorsOfKnownList(services: seq<string>, eksClusters: seq<string>)
    requires forall i :: 0 <= i < |services| ==> Dispatch(services[i], eksClusters).Some?
    ensures |Collectors(services, eksClusters)| == |services|
    ensures forall i :: 0 <= i < |services| ==>
      Collectors(services, eksClusters)[i] == Dispatch(services[i], eksClusters).value
    decreases |services|
  {
    if |services| > 0 {
      assert forall i :: 1 <= i < |services| ==> services[1..][i - 1] == services[i];
      CollectorsOfKnownList(services[1..], eksClusters);
    }
  }

  /** Building collectors works name by name: the collectors of a
      concatenation are the concatenation of the collectors. */
  lemma {:induction false} CollectorsAppend(a: seq<string>, b: seq<string>, eksClusters: seq<string>)
    ensures Collectors(a + b, eksClusters) == Collectors(a, eksClusters) + Collectors(b, eksClusters)
    decreases |a|
  {
    if |a| == 0 {
      assert a + b == b;
    } else {
      CollectorsAppend(a[1..], b, eksClusters);
      assert (a + b)[1..] == a[1..] + b;
    }
  }

  /** Only the name `eks` selects the EKS collector. */
  lemma DispatchEks(service: string, eksClusters: seq<string>)
    ensures Dispatch(service, eksClusters).Some? && Dispatch(service, eksClusters).value.EksCollector?
      <==> service == "eks"
  {}

  /** A list without `eks` builds no EKS collector. */
  lemma {:induction false} NoEksNameNoEksCollector(services: seq<string>, eksClusters: seq<string>)
    requires "eks" !in services
    ensures forall c :: c in Collectors(services, eksClusters) ==> !c.EksCollector?
    decreases |services|
  {
    if |services| > 0 {
      assert services[0] in services;
      DispatchEks(services[0], eksClusters);
      assert forall x :: x in services[1..] ==> x in services;
      NoEksNameNoEksCollector(services[1..], eksClusters);
    }
  }

  /** With `--no-eks` no EKS collector is built. */
  lemma NoEksMeansNoEksCollector(opts: Options)
    requires opts.noEks
    ensures forall c :: c in Collectors(ResolveServices(opts), opts.eksClusters) ==> !c.EksCollector?
  {
    var chosen := if opts.allServices then AllServices else if |opts.services| == 0 then ["ec2"] else opts.services;
    WithoutContents(chosen, "eks");
    NoEksNameNoEksCollector(ResolveServices(opts), opts.eksClusters);
  }

  /** The service APIs every collector reads from */
  datatype Apis = Apis(
    ec2: string -> Result<seq<Reservation>>,
    hostedZones: Result<seq<HostedZone>>,
    zoneTags: string -> Result<seq<SdkTag>>,
    loadBalancers: string -> Result<seq<LoadBalancer>>,
    balancerTags: (string, seq<string>) -> Result<seq<TagDescription>>,
    eks: EksApi,
    rds: string -> Result<seq<DbInstance>>,
    dynamoDb: DynamoDbApi,
    elastiCache: ElastiCacheApi)

  /** `collector.collect(profile, regions)` */
  function Collect(c: Collector, apis: Apis, profile: string, regions: seq<string>): Result<seq<CollectedResource>> {
    match c
    case Ec2Collector => CollectEc2(regions, apis.ec2)
    case ElbCollector => CollectElb(regions, apis.loadBalancers, apis.balancerTags)
    case RdsCollector => CollectRds(regions, apis.rds)
    case DynamoDbCollector => CollectDynamoDb(apis.dynamoDb, regions)
    case ElastiCacheCollector => CollectElastiCache(apis.elastiCache, regions)
    case EksCollector(clusters) => CollectEks(apis.eks, clusters, regions, profile)
    case Route53Collector => CollectRoute53(apis.hostedZones, apis.zoneTags)
  }

  /** Every record a collector returns carries the collector's type, and the
      region it was found in: a scanned one, or `global` for Route 53. */
  lemma CollectStamps(c: Collector, apis: Apis, profile: string, regions: seq<string>)
    requires Collect(c, apis, profile, regions).Ok?
    ensures forall r :: r in Collect(c, apis, profile, regions).value ==>
      r.resourceType == TypeOf(c) && (if c.Route53Collector? then r.region == "global" else r.region in regions)
  {
    match c
    case Ec2Collector => Ec2RecordsFromRegions(regions, apis.ec2);
    case ElbCollector => ElbRecordsFromRegions(regions, apis.loadBalancers, apis.balancerTags);
    case RdsCollector => RdsRecordsFromRegions(regions, apis.rds);
    case DynamoDbCollector => DynamoDbRecordsFromRegions(apis.dynamoDb, regions);
    case ElastiCacheCollector => ElastiCacheRecordsFromRegions(apis.elastiCache, regions);
    case EksCollector(clusters) => EksRecordsFromRegions(apis.eks, clusters, regions, profile);
    case Route53Collector =>
      var zs := Collect(c, apis, profile, regions).value;
      forall r | r in zs
        ensures r.resourceType == Route53Type && r.region == "global"
      {
        var i :| 0 <= i < |zs| && zs[i] == r;
      }
  }

  /** Only the EC2, ELB and EKS collectors record addresses: RDS, DynamoDB
      and ElastiCache endpoints are host names, and hosted zones have none. */
  lemma OnlyHostCollectorsRecordAddresses(c: Collector, apis: Apis, profile: string, regions: seq<string>)
    requires Collect(c, apis, profile, regions).Ok?
    requires !c.Ec2Collector? && !c.ElbCollector? && !c.EksCollector?
    ensures Addressless(Collect(c, apis, profile, regions).value)
  {
    match c
    case RdsCollector => RdsHasNoAddresses(regions, apis.rds);
    case DynamoDbCollector => DynamoDbHasNoAddresses(apis.dynamoDb, regions);
    case ElastiCacheCollector => ElastiCacheHasNoAddresses(apis.elastiCache, regions);
    case Route53Collector =>
      var zs := Collect(c, apis, profile, regions).value;
      forall r | r in zs
        ensures r.ips == []
      {
        var i :| 0 <= i < |zs| && zs[i] == r;
      }
  }

  /** What a run collects for a service name is what a query for that name
      finds: a query by the service alone selects each record's row, and a
      query by the service and the scanned regions selects it too, except for
      Route 53, whose rows are `global`. */
  lemma CollectedAreQueried(service: string, eksClusters: seq<string>, apis: Apis, profile: string, regions: seq<string>)
    requires Dispatch(service, eksClusters).Some?
    requires Collect(Dispatch(service, eksClusters).value, apis, profile, regions).Ok?
    ensures forall r :: r in Collect(Dispatch(service, eksClusters).value, apis, profile, regions).value ==>
      Query.Wanted([service], [], RowOf(r))
      && (service != "route53" ==> Query.Wanted([service], regions, RowOf(r)))
  {
    var c := Dispatch(service, eksClusters).value;
    DispatchMatchesQuery(service, eksClusters);
    CollectStamps(c, apis, profile, regions);
    forall r | r in Collect(c, apis, profile, regions).value
      ensures Query.Wanted([service], [], RowOf(r))
    {
      assert Query.MapServiceName([service][0]) == RowOf(r).resourceType;
    }
  }

  /** Whether a collector's step gets past: its collection succeeds, and a
      non-empty batch is committed (an empty one is never saved). `fault` is
      the first statement the engine rejects, if any. */
  predicate Succeeds(batch: Result<seq<CollectedResource>>, fault: Option<nat>) {
    batch.Ok? && (|batch.value| == 0 || fault.None? || fault.value > StatementCount(batch.value) + 1)
  }

  /** The records of the first `n` collectors, in run order */
  function Collected(cs: seq<Collector>, collect: Collector -> Result<seq<CollectedResource>>, n: nat): seq<CollectedResource>
    requires n <= |cs|
    decreases n
  {
    if n == 0 then []
    else
      Collected(cs, collect, n - 1) + match collect(cs[n - 1]) case Ok(records) => records case Err(_) => []
  }

  /** The store after the batches of the first `n` collectors, each saved
      on its own */
  function Committed(s0: Store, cs: seq<Collector>, collect: Collector -> Result<seq<CollectedResource>>, n: nat): Store
    requires n <= |cs|
    decreases n
  {
    if n == 0 then s0
    else ApplyBatch(Committed(s0, cs, collect, n - 1), match collect(cs[n - 1]) case Ok(records) => records case Err(_) => [])
  }

  lemma SavedAfter(s0: Store, a: seq<CollectedResource>, b: seq<CollectedResource>, s1: Store, s2: Store)
    requires s1 == ApplyBatch(s0, a) && s2 == ApplyBatch(s1, b)
    ensures s2 == ApplyBatch(s0, a + b)
  {
    ApplyBatchAppend(s0, a, b);
  }

  /** Saving the batches one by one is saving all records in run order. */
  lemma {:induction false} CommittedIsCollected(s0: Store, cs: seq<Collector>, collect: Collector -> Result<seq<CollectedResource>>, n: nat)
    requires n <= |cs|
    ensures Committed(s0, cs, collect, n) == ApplyBatch(s0, Collected(cs, collect, n))
    decreases n
  {
    if n > 0 {
      var b := match collect(cs[n - 1]) case Ok(records) => records case Err(_) => [];
      CommittedIsCollected(s0, cs, collect, n - 1);
      SavedAfter(s0, Collected(cs, collect, n - 1), b, Committed(s0, cs, collect, n - 1), Committed(s0, cs, collect, n));
    }
  }

  /** Whether the first `n` collectors all get past their step */
  predicate AllSucceed(cs: seq<Collector>, collect: Collector -> Result<seq<CollectedResource>>, faults: nat -> Option<nat>, n: nat)
    requires n <= |cs|
    decreases n
  {
    n == 0 || (AllSucceed(cs, collect, faults, n - 1) && Succeeds(collect(cs[n - 1]), faults(n - 1)))
  }

  lemma {:induction false} AllSucceedMeans(cs: seq<Collector>, collect: Collector -> Result<seq<CollectedResource>>, faults: nat -> Option<nat>, n: nat)
    requires n <= |cs|
    ensures AllSucceed(cs, collect, faults, n) <==> forall j :: 0 <= j < n ==> Succeeds(collect(cs[j]), faults(j))
    decreases n
  {
    if n > 0 {
      AllSucceedMeans(cs, collect, faults, n - 1);
    }
  }

  /** One collector's step: collect, then save a non-empty batch in one
      transaction and count it. A failed collection or save leaves the store
      and the count as they were. */
  method Step(s0: Store, cs: seq<Collector>, collect: Collector -> Result<seq<CollectedResource>>,
              faults: nat -> Option<nat>, i: nat, s: Store, total: nat)
    returns (s': Store, total': nat, out: Result<()>)
    requires i < |cs|
    requires s == Committed(s0, cs, collect, i) && total == |Collected(cs, collect, i)|
    ensures out.Ok? <==> Succeeds(collect(cs[i]), faults(i))
    ensures AllSucceed(cs, collect, faults, i) ==> (out.Ok? <==> AllSucceed(cs, collect, faults, i + 1))
    ensures out.Ok? ==> s' == Committed(s0, cs, collect, i + 1) && total' == |Collected(cs, collect, i + 1)|
    ensures out.Err? ==> s' == s && total' == total
    ensures collect(cs[i]).Err? ==> out == Err(collect(cs[i]).error)
  {
    var batch := collect(cs[i]);
    if batch.Err? {
      return s, total, Err(batch.error);
    }
    var records := batch.value;
    assert Collected(cs, collect, i + 1) == Collected(cs, collect, i) + records;
    if |records| == 0 {
      return s, total, Ok(());
    }
    var saved := SaveResources(s, records, faults(i));
    if saved.1.Err? {
      return s, total, saved.1;
    }
    s', total', out := saved.0, total + |records|, Ok(());
  }

  /** Collector `k` is the first whose step fails. */
  predicate FirstFailure(cs: seq<Collector>, collect: Collector -> Result<seq<CollectedResource>>, faults: nat -> Option<nat>, k: nat) {
    k < |cs| && AllSucceed(cs, collect, faults, k) && !Succeeds(collect(cs[k]), faults(k))
  }

  /** A failing collector fails every longer prefix. */
  lemma {:induction false} AllSucceedFails(cs: seq<Collector>, collect: Collector -> Result<seq<CollectedResource>>,
                                           faults: nat -> Option<nat>, i: nat, n: nat)
    requires i < n <= |cs| && !Succeeds(collect(cs[i]), faults(i))
    ensures !AllSucceed(cs, collect, faults, n)
    decreases n
  {
    if n - 1 > i {
      AllSucceedFails(cs, collect, faults, i, n - 1);
    }
  }

  /** The collect/save loop from collector `i` on, with the batches of the
      collectors before `i` committed. The first collector whose step fails
      ends the run; what was committed before it stays. */
  method RunFrom(s0: Store, cs: seq<Collector>, collect: Collector -> Result<seq<CollectedResource>>,
                 faults: nat -> Option<nat>, i: nat, s: Store, total: nat)
    returns (s': Store, total': nat, out: Result<()>)
    requires i <= |cs| && AllSucceed(cs, collect, faults, i)
    requires s == Committed(s0, cs, collect, i) && total == |Collected(cs, collect, i)|
    ensures out.Ok? <==> AllSucceed(cs, collect, faults, |cs|)
    ensures out.Ok? ==> s' == Committed(s0, cs, collect, |cs|) && total' == |Collected(cs, collect, |cs|)|
    ensures out.Err? ==> exists k :: FirstFailure(cs, collect, faults, k) && s' == Committed(s0, cs, collect, k)
    decreases |cs| - i
  {
    if i == |cs| {
      return s, total, Ok(());
    }
    var s1, total1, step := Step(s0, cs, collect, faults, i, s, total);
    if step.Err? {
      AllSucceedFails(cs, collect, faults, i, |cs|);
      assert FirstFailure(cs, collect, faults, i);
      return s, total, step;
    }
    s', total', out := RunFrom(s0, cs, collect, faults, i + 1, s1, total1);
  }

  /** The collect/save loop over the built collectors. `faults(i)` is the
      first statement the engine rejects while saving collector `i`'s batch.
      The run succeeds exactly when every step does; it then has saved every
      collected record in run order, as one batch would, and counted them. A
      failed run keeps the batches of the collectors before the failing one. */
  method RunCollectors(s0: Store, cs: seq<Collector>, collect: Collector -> Result<seq<CollectedResource>>,
                       faults: nat -> Option<nat>)
    returns (s: Store, total: nat, out: Result<()>)
    ensures out.Ok? <==> forall j :: 0 <= j < |cs| ==> Succeeds(collect(cs[j]), faults(j))
    ensures out.Ok? ==> s == ApplyBatch(s0, Collected(cs, collect, |cs|)) && total == |Collected(cs, collect, |cs|)|
    ensures out.Err? ==> exists k :: FirstFailure(cs, collect, faults, k) && s == ApplyBatch(s0, Collected(cs, collect, k))
  {
    s, total, out := RunFrom(s0, cs, collect, faults, 0, s0, 0);
    AllSucceedMeans(cs, collect, faults, |cs|);
    if out.Ok? {
      CommittedIsCollected(s0, cs, collect, |cs|);
    } else {
      var k :| FirstFailure(cs, collect, faults, k) && s == Committed(s0, cs, collect, k);
      CommittedIsCollected(s0, cs, collect, k);
    }
  }

  /** The `inventory` command from the opened store on: resolve the regions
      and the services, build the collectors, run them. A failed run keeps
      what the collectors before the failing one saved. */
  method InventoryCommand(s0: Store, opts: Options, available: seq<string>, apis: Apis, faults: nat -> Option<nat>)
    returns (s: Store, total: nat, out: Result<()>)
    ensures var cs := Collectors(ResolveServices(opts), opts.eksClusters);
      var collect := c => Collect(c, apis, OrEmpty(opts.profile), ExpandRegions(opts.regions, available));
      && (out.Ok? <==> forall j :: 0 <= j < |cs| ==> Succeeds(collect(cs[j]), faults(j)))
      && (out.Ok? ==> s == ApplyBatch(s0, Collected(cs, collect, |cs|)) && total == |Collected(cs, collect, |cs|)|)
      && (out.Ok? && Valid(s0) ==> Valid(s) && ArnView(s) == ArnView(s0) + BatchView(Collected(cs, collect, |cs|)))
      && (out.Err? ==> exists k :: FirstFailure(cs, collect, faults, k) && s == ApplyBatch(s0, Collected(cs, collect, k)))
  {
    var cs := Collectors(ResolveServices(opts), opts.eksClusters);
    var collect := c => Collect(c, apis, OrEmpty(opts.profile), ExpandRegions(opts.regions, available));
    s, total, out := RunCollectors(s0, cs, collect, faults);
    if out.Ok? && Valid(s0) {
      ApplyBatchView(s0, Collected(cs, collect, |cs|));
    }
  }
}
