# aws-inventory-sdk in Dafny

This is a model of the core of `aws-inventory-sdk`, a command-line tool that
builds a local SQLite inventory of AWS resources and answers questions about
it. The model covers these parts:

- **Collection.** The EC2, Route 53, ELB, EKS, RDS, DynamoDB and ElastiCache
  collectors turn service responses into `CollectedResource` records
  (`inventory.dfy`). The model covers their tag maps, their address parsing,
  their fallbacks for missing fields, and which failures abort and which are
  skipped.
- **The `inventory` command.** This covers resolving the service list
  (`--all-services`, the `ec2` default, `--no-eks`) and expanding the region
  `all`. It also covers dispatching names to collectors, and the loop that
  collects, saves non-empty batches and counts them (`run.dfy`).
- **The store.** Three tables and `save_resources`: one transaction per
  batch, `INSERT OR REPLACE` keyed by a unique arn, and rowids allocated above
  every id in use (`db.dfy`). The program never sets the `foreign_keys`
  pragma, so whether a replaced resource's tag and address rows are deleted
  by the schema's `ON DELETE CASCADE` or left behind as orphans depends on the
  engine's compiled-in default. Both engines are modelled. The store's
  properties are stated over the live view joined through the resources
  table, which is the same under both.
- **The address classifier `is_public`.** It is checked against an
  independent table of reserved CIDR blocks. The module also has the address
  text form and its parser, with the round trip that makes stored address
  texts a faithful key (`ip.dfy`, `text.dfy`).
- **The read side.** `map_service_name` and `run_query` with its filters,
  grouping, address-list split and tag default (`query.dfy`). Also
  `identify_resource_from_db` (`identify.dfy`).

Service APIs are parameters of type `Result`, one per call the collector
makes. These calls include the EKS cluster description and the Kubernetes
client setup. A page stream is modelled as its concatenated listing. A
failure anywhere in that stream is the listing's failure. `unwrap()` on a
missing value becomes the error `Panicked`. The database engine's own
failures are a parameter: the position of the first statement it rejects.
The available-region list that `all` stands for is a parameter.
src/config.rs is not part of this model.

## Model

| member | source | states |
|---|---|---|
| Ip.IsPublic | src/db.rs:82-107 | an address is public exactly when it lies in none of the reserved blocks of the reference table |
| Ip.ClassifierMatchesTable | src/db.rs:84-105 | the reference table agrees, per family, with the disjunction of the standard-library predicates the classifier negates |
| Ip.PrivateIsRfc1918 | src/db.rs:85 | `is_private` is membership in 10/8, 172.16/12 or 192.168/16 |
| Ip.DocumentationIsTestNets | src/db.rs:89 | `is_documentation` is membership in TEST-NET-1, -2 or -3 |
| Ip.UniqueLocalMaskIsInterval | src/db.rs:94-95 | the `& 0xfe00 == 0xfc00` test selects exactly first segments fc00 to fdff (fc00::/7) |
| Ip.LinkLocalMaskIsInterval | src/db.rs:96-97 | the `& 0xffc0 == 0xfe80` test selects exactly first segments fe80 to febf (fe80::/10) |
| Ip.DocumentationIsBlock6 | src/db.rs:103-104 | the segment test is membership in 2001:db8::/32 |
| Ip.ParseToString | src/db.rs:71 | the text stored for an address parses back to that address |
| Ip.ToStringInjective | src/db.rs:71 | two addresses with the same stored text are the same address, so the text column is a faithful key |
| Ip.ParseV4IsCanonical | src/inventory.rs:69-72 | an IPv4 text that parses is exactly the text the store writes for it |
| Text.JoinSplit | src/query.rs:60 | joining the pieces of a split gives back the string |
| Text.SplitJoin | src/query.rs:57-61 | splitting a join of separator-free pieces gives back the pieces |
| Text.DigitsValue | src/db.rs:71 | the printed digits of a number denote that number |
| Text.CanonicalDigits | src/inventory.rs:69-70 | a decimal text without a leading zero is the printed form of its value |
| Db.WriteIps | src/db.rs:68-73 | a record's address rows override the existing rows of that id, and each row is flagged with its classification |
| Db.SaveResourcesView | src/db.rs:48-78 | a committed save overrides the arn view at each arn of the batch with that arn's last record and leaves every other arn as it was; a rejected save leaves the view unchanged; the store stays valid either way |
| Db.ApplyBatchAppend | src/db.rs:51-74 | saving one batch and then another is saving their concatenation |
| Db.EmptyIsValid | src/db.rs:13-43 | a fresh database meets the schema's constraints |
| Db.SaveRecordValid | src/db.rs:15-57 | a save keeps arns unique among live rows and the allocator above every id in use |
| Db.SaveRecordArns | src/db.rs:53-56 | after a save, the live arns are the old ones plus the record's |
| Db.SaveRecordNewRow | src/db.rs:53-73 | the new row joined with its tags and addresses is exactly the record |
| Db.SaveRecordOtherRow | src/db.rs:53-57 | a live row with another arn keeps its joined view |
| Db.SaveRecordView | src/db.rs:51-73 | the arn view after a save is the old view with the record's arn updated |
| Db.ApplyBatchView | src/db.rs:48-78 | the arn view after a batch is the old view overridden by the batch's view, and validity is kept |
| Db.BatchViewLastWins | src/db.rs:51-56 | the last record of a batch with a given arn supplies that arn's view |
| Db.BatchViewKeys | src/db.rs:51-56 | a batch's view covers exactly the arns of its records |
| Db.SavedArnHasOneRow | src/db.rs:15-57 | after a batch, each arn of it has exactly one live row, joined to the last such record |
| Db.SaveTwiceSameView | src/db.rs:48-78 | saving the same batch twice leaves the same arn view as saving it once |
| Db.SavedFlagIsClassification | src/db.rs:68-73 | each saved address row of a record carries `is_public` of its address |
| Db.ApplyBatchAddressRows | src/db.rs:68-73 | saving keeps every address row flagged with its address's classification |
| Db.ReplacedRowsAreOrphaned | src/db.rs:24-56 | on an engine that leaves foreign keys unenforced, replacing an arn deletes its old row, and the old row's tag and address rows are left in place |
| Db.SaveRecordCascade | src/db.rs:24-56 | on an engine that enforces foreign keys, replacing an arn also deletes the old row's tag and address rows through `ON DELETE CASCADE` |
| Db.SaveRecordCascadeRows | src/db.rs:24-56 | apart from the replaced row's children, a cascading save leaves the same resources and the same child rows for every live row as a save without enforcement |
| Db.SameLiveRowsSameView | src/db.rs:24-40 | two stores whose live rows join to the same child rows show the same arn view, and dropping child rows keeps a store valid |
| Db.SaveRecordCascadeView | src/db.rs:48-78 | one save leaves the same arn view whether or not foreign keys are enforced, and the store stays valid |
| Db.ApplyBatchCascadeView | src/db.rs:48-78 | with foreign keys enforced, the arn view after a batch is still the old view overridden by the batch's view, the same as without enforcement |
| Query.MapShortName | src/query.rs:106-114 | each of the seven short names maps to its resource type |
| Query.MapOtherName | src/query.rs:116 | any other name is passed through unchanged |
| Query.MapServiceNameIdempotent | src/query.rs:106-118 | mapping a mapped name changes nothing |
| Query.StatementParams | src/query.rs:36-50 | the WHERE clause has one placeholder per bound parameter; the parameters are the mapped services followed by the regions |
| Query.ConditionsSelectWanted | src/query.rs:36-50 | a row satisfies the built conditions exactly when its type is a mapped service (if any are given) and its region is a given region (if any are given) |
| Query.SplitGroupConcat | src/query.rs:56-61 | splitting the concatenated address column gives back every stored address text; a resource without addresses gets the empty list |
| Query.PresentIsFaithful | src/query.rs:55-79 | a result row carries the resource's columns, each of its address texts exactly once, and its tag map, empty when it has no tag rows |
| Query.RunQuery | src/query.rs:18-87 | the result lists each wanted live resource exactly once, with its addresses and tags, and fails exactly when the database cannot be read |
| Identify.MatchIsExact | src/identify.rs:13-18 | a resource matches exactly when the looked-up address is among its address rows |
| Identify.OrphanNeverMatches | src/identify.rs:12-13 | an address row of a replaced resource never identifies anything |
| Identify.Identify | src/identify.rs:6-30 | an open failure is an error; no match or a failed fetch is no answer; otherwise the answer describes a matching resource |
| Identify.SavedAddressIsFound | src/identify.rs:9-26 | right after a record is saved, each of its addresses identifies it |
| Identify.FoundAfterBatch | src/identify.rs:9-26 | after a batch, an address of the last record with a given arn finds that record's row |
| Inventory.PairMapKeys | src/inventory.rs:80-85 | the keys of a collected map are exactly the keys of the pairs |
| Inventory.PairMapLastWins | src/inventory.rs:80-85 | a pair with no later pair of the same key supplies that key's value |
| Inventory.TagMapContents | src/inventory.rs:80-85 | the tag map has every tag's key, defaulted, and the last tag with a key supplies its value |
| Inventory.CompletePairs | src/inventory.rs:140 | only tags with both a key and a value are kept |
| Inventory.ParsedIpsMembers | src/inventory.rs:68-78 | the addresses are exactly the present texts that parse |
| Inventory.ParsedIpsOfPrinted | src/inventory.rs:68-78 | texts that are printed addresses parse back to those addresses, in order |
| Inventory.ForEach | src/inventory.rs:58-104 | a run over regions (or items) succeeds exactly when every step does; otherwise it fails with the first failing step's error |
| Inventory.ForEachRecords | src/inventory.rs:58-104 | a successful run's records are exactly the steps' records |
| Inventory.RegionsStamped | src/inventory.rs:58-104 | records stamped per region by their step carry the collector's type and a scanned region |
| Inventory.Ec2NameFallback | src/inventory.rs:80-87 | an instance is named by its last `Name` tag, and by its instance id when it has none |
| Inventory.Ec2Addresses | src/inventory.rs:68-78 | the private address comes before the public one, and a missing one is skipped |
| Inventory.Ec2RecordsFromRegions | src/inventory.rs:55-105 | EC2 records are `ec2:instance` records of a scanned region |
| Inventory.LastSegmentIsSuffix | src/inventory.rs:124-125 | the zone's resource id is the part of its id after the last `/` |
| Inventory.Route53TagsFacts | src/inventory.rs:127-149 | an empty resource id or a failed tag request gives no tags; otherwise the keys are those of the complete tags returned |
| Inventory.CollectRoute53 | src/inventory.rs:112-175 | the run fails exactly when the zone listing fails; otherwise there is one `global` record per zone, in order, under its id and name, without addresses, tagged with the tags of the id's last segment, and with the zone's privacy and record count as details |
| Inventory.ZoneFactsOfConfig | src/inventory.rs:151-155 | a zone without a config reports (false, 0); with a config, its privacy and its record count, a missing count reading as 0 |
| Inventory.ConfiglessCountIgnored | src/inventory.rs:151-168 | a config-less zone's record is the same whatever record count the listing gives, with details `private_zone: false` and `resource_record_set_count: 0` |
| Inventory.Chunks | src/inventory.rs:202 | the chunks are non-empty, at most the batch size, full except the last, and concatenate to the input |
| Inventory.ElbBatchesPartition | src/inventory.rs:202 | the balancers go in ceil(n/20) tag requests of at most 20 |
| Inventory.KnownArns | src/inventory.rs:203-206 | a chunk's request names exactly the balancers' present arns |
| Inventory.ElbTagsMap | src/inventory.rs:202-215 | collecting tags succeeds exactly when the request of every chunk that has an arn succeeds |
| Inventory.InsertDescriptionsContents | src/inventory.rs:216-225 | after the inserts, an arn some description names maps to the tags of the last such description; any other arn keeps its entry or stays absent |
| Inventory.InsertDescriptionsAppend | src/inventory.rs:202-226 | inserting the descriptions of one response after another is inserting their concatenation |
| Inventory.ElbTagsMapIsInsertion | src/inventory.rs:201-226 | a successful lookup is the map built by inserting every response's descriptions in request order |
| Inventory.ElbRecordTags | src/inventory.rs:201-232 | a balancer's record gets the tags of the last description, over all responses in request order, that names its arn, and no tags when none does |
| Inventory.ElbRegionOutcome | src/inventory.rs:185-263 | a listed region fails exactly when a tag request fails; otherwise there is one record per balancer, in order, under its arn |
| Inventory.ElbRecordsFromRegions | src/inventory.rs:182-268 | ELB records are `elbv2:loadbalancer` records of a scanned region |
| Inventory.ElbAddresses | src/inventory.rs:234-247 | a balancer's addresses are exactly the zone addresses that parse |
| Inventory.ParsedIpsAppend | src/inventory.rs:234-247 | parsing a concatenation of texts is parsing each part, in order |
| Inventory.ElbAddressesByZone | src/inventory.rs:234-247 | a balancer's addresses go zone by zone in zone order, and inside a zone in address order, keeping the texts that parse |
| Inventory.ElbPrintedAddresses | src/inventory.rs:234-247 | when every zone reports printed addresses, the record holds exactly those addresses, the first zone's in order, then the next zone's |
| Inventory.ClustersExplicitOrDiscovered | src/inventory.rs:292-303 | a non-empty explicit cluster list is scanned as given, whatever discovery would list; an empty one scans exactly what discovery lists and fails exactly when the listing fails |
| Inventory.ExecArgsRead | src/inventory.rs:336-347 | the token command reads as `eks get-token` with the cluster, the region and, when given, the profile |
| Inventory.PodRecordFacts | src/inventory.rs:403-423 | a pod yields a record exactly when it reports a parsable address; the record's arn splits into region, cluster, namespace and name |
| Inventory.PodRecordsAddresses | src/inventory.rs:403-428 | a cluster's records have one address each, and they are exactly the pods' parsable addresses |
| Inventory.ClusterPodsFacts | src/inventory.rs:305-430 | a cluster that cannot be described is skipped; a cluster fails only by a description without a cluster or a failed client setup |
| Inventory.EksRecordsFromRegions | src/inventory.rs:285-434 | EKS records are `eks:pod` records of a scanned region |
| Inventory.RdsRecordsFromRegions | src/inventory.rs:442-483 | RDS records are `rds:db_instance` records of a scanned region |
| Inventory.RdsHasNoAddresses | src/inventory.rs:461-469 | RDS records have no addresses and carry a listed instance's arn and identifier |
| Inventory.TableRecordsOutcome | src/inventory.rs:505-529 | a table yields one record under its arn, or fails exactly when a request fails or the description lacks the table or its arn, which panics |
| Inventory.DynamoDbRecordsFromRegions | src/inventory.rs:490-534 | DynamoDB records are `dynamodb:table` records of a scanned region |
| Inventory.DynamoDbHasNoAddresses | src/inventory.rs:517-523 | DynamoDB records have no addresses |
| Inventory.ElastiCacheRecordsFromRegions | src/inventory.rs:541-592 | ElastiCache records are `elasticache:cluster` records of a scanned region |
| Inventory.ElastiCacheHasNoAddresses | src/inventory.rs:562-578 | ElastiCache records have no addresses |
| Run.WithoutContents | src/main.rs:132-134 | removing `eks` keeps every other name and changes nothing when there is none |
| Run.WithoutAppend | src/main.rs:132-134 | removal works entry by entry, so the remaining names keep their order |
| Run.WithoutSingle | src/main.rs:132-134 | a single name survives exactly when it is not the removed one |
| Run.WithoutCounts | src/main.rs:132-134 | every other name keeps its number of occurrences, and the removed name has none left |
| Run.AllServicesWithoutEks | src/main.rs:119-134 | `--all-services --no-eks` runs ec2, elb, rds, dynamodb, elasticache and route53, in that order |
| Run.ResolveServicesFacts | src/main.rs:118-134 | `--no-eks` wins over everything, `--all-services` wins over the list, and an empty list means `ec2` alone; with `--no-eks` and `--all-services` the list is the six other services in run order, and with `--no-eks` and a given list every other name keeps its place and its number of occurrences |
| Run.ExpandRegionsFacts | src/main.rs:101-108 | a region `all` anywhere stands for the available regions, whatever else is given, and is never scanned itself unless that list holds it; otherwise the given regions are scanned unchanged, repeats included; expanding again changes nothing |
| Run.DispatchMatchesQuery | src/main.rs:138-148 | a name selects a collector exactly when the query knows it as a short name, and the collector's type is the query's mapping of it |
| Run.CollectorsOfKnownNames | src/main.rs:138-149 | collectors are built for exactly the known names; unknown names are skipped |
| Run.CollectorsOfKnownList | src/main.rs:138-149 | a list of known names builds one collector per name, position by position, repeated names included |
| Run.CollectorsAppend | src/main.rs:138-149 | collectors are built name by name, so they follow the list order |
| Run.NoEksNameNoEksCollector | src/main.rs:138-149 | a list without `eks` builds no EKS collector |
| Run.NoEksMeansNoEksCollector | src/main.rs:131-134 | with `--no-eks` no EKS collector is built |
| Run.CollectStamps | src/main.rs:154 | a collector's records carry its type and a scanned region, or `global` for Route 53 |
| Run.OnlyHostCollectorsRecordAddresses | src/main.rs:153-154 | only the EC2, ELB and EKS collectors produce addresses |
| Run.CollectedAreQueried | src/main.rs:138-154 | a query by the same service finds every collected record, and so does a query that adds the scanned regions, except for Route 53 |
| Run.CommittedIsCollected | src/main.rs:153-161 | saving the collectors' batches one by one is saving all their records in run order |
| Run.Step | src/main.rs:154-160 | one step succeeds exactly when collection succeeds and a non-empty batch commits; an empty batch is not saved; a failure leaves the store and the count unchanged |
| Run.RunFrom | src/main.rs:153-161 | the rest of the loop succeeds exactly when every remaining step does; a failure keeps what the steps before the first failure committed |
| Run.RunCollectors | src/main.rs:151-161 | the loop succeeds exactly when every step does, then it has saved every collected record in order and counted them; a failure keeps the batches committed before the failing collector |
| Run.InventoryCommand | src/main.rs:101-161 | the command runs the resolved collectors over the expanded regions; on success, the arn view is the old view overridden by everything collected; on failure, the store holds exactly the batches of the collectors before the first failing one |

## Left out

- I/O and configuration are not modelled. This covers opening the database
  file, the WAL pragma, the default database path, the SDK configuration and
  profile loading, and all printing (`println!`/`eprintln!`, `query_resources`
  and `print_text_output`).
- The network is not modelled. Each service call is a parameter that returns
  a `Result`. Pagination is folded into a single listing. This gives up the
  order of failures in the ElastiCache collector, which sends a tag request
  for each cluster of a page before fetching the next page
  (src/inventory.rs:551-554). In the model a failure of a later page ends the
  collector before a failing tag request of an earlier page would have. Both
  are errors of the same collector and neither saves a record, so the store
  is the same. Route 53 (src/inventory.rs:122-147) also sends a request per
  zone between pages, but its failure is caught, and DynamoDB
  (src/inventory.rs:500-509) fetches every page before its per-table
  requests, so neither depends on the folding.
- Kubeconfig construction is not modelled. It and the Kubernetes client setup
  are one `connect` parameter, which receives the cluster, the endpoint, the
  CA data and the token-command arguments.
- SQL text is not modelled. The statements are modelled by their effect on
  the tables. Only the WHERE clause of `run_query` is modelled as text, to
  count its placeholders.
- The JSON round trip of `details` is not modelled. `serde_json::to_value`
  and the reparse with `unwrap_or_default` are not modelled. `details` is a
  JSON value stored and returned as is. A serialisation failure falls under
  the engine-rejection parameter of `SaveResources`.
- src/config.rs, src/server.rs and the `export`, `query` and `identify` command
  wiring in src/main.rs outside lines 101-161 are not part of this model.
- Ip.ToString: IPv6 addresses are printed as eight groups, lower-case and
  without leading zeros, but without the zero-run compression of RFC 5952 that
  Rust's `Display` applies, and an IPv4-mapped address is printed as eight
  groups rather than in Rust's `::ffff:a.b.c.d` form. The properties proved about the stored text (the
  parse round trip and injectivity) hold for both forms.
- Db.ReplacedRowsAreOrphaned: holds only on an engine whose foreign-key
  default is off. With enforcement on, the cascade deletes the replaced
  row's tag and address rows, as `Db.SaveRecordCascade` states. The view
  lemmas hold for both engines.
- Identify.Identify: the SQL engine returns the first joined row it meets;
  the model lets it be any matching resource, because the statement has no
  ORDER BY.
- Query.RunQuery: the order of the result rows and the order of the addresses
  inside one row are the engine's choice and are left open.
- Inventory.ClusterPodsFacts: every description failure is skipped. The
  source's separate test for a missing named cluster also ends in `continue`,
  so both branches behave the same.
