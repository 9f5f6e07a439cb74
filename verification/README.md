# Google Cloud inventory collector: verified model

The collector reads the resources of a Google Cloud project and turns them into inventory
records. Most of it passes data through. This project models the parts that hold state, share
objects, compute or parse, and proves what can be relied on for every input, every run and
every interleaving of the worker threads.

Google API answers, the URL parser, the rendering of a response and the completion order of
the thread pool are parameters. Objects that the program updates in place are classes with the
same fields; a method on them is proved against a function of the old state, and the results
below are proved about that function.

| file | what it models |
|---|---|
| `RegionRegistry.dfy` | the shared list of region codes, updated by check-then-append from all workers |
| `CollectionRun.dfy` | one manager's block of responses, and the stream drained in completion order |
| `Recommenders.dfy` | merging recommendations into a module-level table that adopts list objects, and its totals |
| `RecommendationTotals.dfy` | cost, level counts and primary priority of a list of recommendations |
| `RecommendationQueries.dfy` | what the answers to the query paths come to in the groups and totals |
| `RecommendationParents.dfy` | the query paths of the recommender service, and what is read back from them |
| `MachineTypes.dfy` | the machine type list that serves as a cache over a run of VMs |
| `LoadBalancers.dfy` | the join of VMs with backend services and forwarding rules that all VMs share |
| `LoadBalancerEntries.dfy` | which groups, services, pools and rules give a VM which entries |
| `Firewalls.dfy` | the expansion of firewall rules into one entry per port |
| `InstanceFilter.dfy` | the printer of the instance query filter, with a parser for its output |
| `ExternalAddresses.dfy` | the merge of three address sources against a side list |
| `ExternalAddressSources.dfy` | the merged addresses in terms of the rules, VMs and interfaces they come from |
| `Durations.dfy` | the display of a number of seconds in two units |
| `ServiceTypes.dfy` | the rewriting of service codes and icons on every collection |
| `ResourceUrls.dfy` | a parameter out of a resource URL, a region out of a zone |
| `Basics.dfy`, `Text.dfy`, `Sequences.dfy`, `Pairing.dfy`, `Rounding.dfy` | shared values, string operations, list facts, matching pairs of positions, rounding |

Findings, each with its exact condition below:

- The location of a recommendation is lost for every project whose id, followed by a slash,
  contains `locations/`; an id such as `my-locations` does (`LocationReadBack`,
  `ProjectNamedLocations`).
- Two zones of one region among the assets make the region's recommenders be asked twice, and
  everything they bring is counted twice (`HowOftenAPathIsAsked`, `NoPathIsAskedTwiceExactlyWhen`,
  `NoLocationRepeatsExactlyWhen`, `EachQueryDelivers`, `TwoZonesDoubleTheTotals`).
- The recommender table is never cleared: a later collection in the same process shows the
  totals of the earlier ones too, exactly when the table already held a recommendation
  (`GroupIsItsOwnExactlyWhenNew`, `TotalsAreTheirOwnExactlyWhenNew`, `RecordAfterCollections`).
- A region code can be in the shared list once per thread that records it, and no more
  (`CopiesAreBoundedByRecorders`, `BoundIsReached`, `ListedOnceExactlyWhenOneRecords`,
  `TwoThreadsListARegionTwice`).
- Every firewall entry says "outbound", also for ingress rules (`DirectionIsAlwaysOutbound`).
- When one forwarding rule targets several matched pools with one link, all its entries show
  the last pool's name (`EntriesNameTheirOwnPool`, `TwoPoolsWithOneLink`); pools with links of
  their own are safe (`OwnLinksShowOwnNames`).
- A mapper that sends a service code to another of its own keys moves the code again on every
  collection (`CodesAreStableExactlyWhenSettled`, `ChainedCodesMove`).
- The query text loses the filters' meaning when a key or value holds the printer's own
  delimiters (`ParsePrinted`, `DelimitersLoseTheMeaning`).

## Model

| member | source | states |
|---|---|---|
| `RegionRegistry.Registry.SetRegionCode` | src/spaceone/inventory/libs/manager.py:145-150 | the list gains the region, or "global" for an unknown one, unless it has it |
| `RegionRegistry.Registry.CollectRegion` | src/spaceone/inventory/libs/manager.py:137-143 | the reports are the known codes of the list, in order, repetitions included |
| `RegionRegistry.KnownOfKeeps` | src/spaceone/inventory/libs/manager.py:137-143 | the known part of a list keeps its order and repetitions and drops nothing known |
| `RegionRegistry.EveryInterleavingKeepsTheRegistry` | src/spaceone/inventory/libs/manager.py:137-150 | in every interleaving the list only grows, only by known codes, and every region a thread recorded is in the list and in each of its later reports |
| `RegionRegistry.CopiesAreBoundedByRecorders` | src/spaceone/inventory/libs/manager.py:145-150 | in every interleaving a code that was absent has at most as many copies as threads record it; one that was present is never appended |
| `RegionRegistry.OneWorkerRecordsOnce` | src/spaceone/inventory/libs/manager.py:145-150 | with one worker a recorded new code is in the list exactly once |
| `RegionRegistry.BoundIsReached` | src/spaceone/inventory/service/collector_service.py:117-123 | for every pool there is an interleaving that leaves one copy of an absent code per thread that records it |
| `RegionRegistry.ListedOnceExactlyWhenOneRecords` | src/spaceone/inventory/libs/manager.py:145-150 | an absent code is listed at most once in every interleaving exactly when at most one thread records it |
| `RegionRegistry.TwoThreadsListARegionTwice` | src/spaceone/inventory/libs/manager.py:145-150 | two threads with one region, test, test, append, append: the region is listed twice |
| `RegionRegistry.UninterruptedRecord` | src/spaceone/inventory/libs/manager.py:145-150 | a thread's test and append without interruption add the region, or "global" for an unknown one, unless it is there |
| `CollectionRun.CollectResources` | src/spaceone/inventory/libs/manager.py:62-135 | the block is types, resources, errors, regions; after an exception the stages before it and what the handler adds |
| `CollectionRun.BlockByStage` | src/spaceone/inventory/libs/manager.py:62-135 | on success the block is exactly what the stages gave, types, resources, errors, regions; with an exception exactly the stages before it, and behind them one error of the first service type unless it is silent |
| `CollectionRun.DisabledExactly` | src/spaceone/inventory/libs/manager.py:79-91 | a disabled service is a 403 with one of two reasons at one of two places |
| `CollectionRun.InvalidExactly` | src/spaceone/inventory/libs/manager.py:101-117 | an invalid request is a 400 with its reason at one of two places, for BigQuery only |
| `CollectionRun.SkippedExactlyWhenExpected` | src/spaceone/inventory/libs/manager.py:77-133 | an exception adds one error of the manager's first type, none exactly for a disabled service or an invalid BigQuery request, and loses the block exactly when a needed first type is missing |
| `CollectionRun.RenderedUpTo` | src/spaceone/inventory/service/collector_service.py:125-137 | a block is passed on up to its first response that cannot be rendered, which becomes one error |
| `CollectionRun.DrainFutures` | src/spaceone/inventory/service/collector_service.py:125-137 | the drained stream is the rendered blocks in completion order |
| `CollectionRun.CollectorService.Collect` | src/spaceone/inventory/service/collector_service.py:78-143 | nothing without the project; else a setup error if the managers cannot be found, the drained blocks, the metrics; the manager list survives a failed lookup |
| `CollectionRun.StreamConservesBlocks` | src/spaceone/inventory/service/collector_service.py:117-141 | any two completion orders give the same responses, each as often |
| `CollectionRun.BlocksAreContiguous` | src/spaceone/inventory/service/collector_service.py:125-128 | each manager's block stands in one piece behind the blocks completed before it |
| `CollectionRun.StagesReachTheStream` | src/spaceone/inventory/service/collector_service.py:125-137 | a manager that succeeds and whose responses render has all its types, resources, errors and regions in the stream, in one piece and in that order |
| `CollectionRun.OneErrorPerFailingManager` | src/spaceone/inventory/service/collector_service.py:125-137 | the stream has exactly one error per manager whose block is lost, cut short at a rendering, or ended by a reported exception |
| `CollectionRun.RecordedRegionsAreCollected` | src/spaceone/inventory/libs/manager.py:66-76 | in every interleaving a manager that succeeds has every region its thread recorded in its block |
| `CollectionRun.CloudServiceGroupsToTypes` | src/spaceone/inventory/service/collector_service.py:157-164 | the managers of the groups that exist, in request order |
| `CollectionRun.RequestedManagers` | src/spaceone/inventory/service/collector_service.py:145-164 | a manager runs exactly when a requested existing group names it |
| `CollectionRun.ManagersInRequestOrder` | src/spaceone/inventory/service/collector_service.py:157-164 | the managers of earlier groups come first, those of one group in its own order |
| `Recommenders.CreateRecommenders` | src/spaceone/inventory/manager/recommender/recommendation_manager.py:463-503 | one recommender per recommendation, each with a new list object that no other shares |
| `Recommenders.RecommendationManager.MergeOne` | src/spaceone/inventory/manager/recommender/recommendation_manager.py:508-515 | adopts the list object or appends to the entry's own; terminates, keeps the input list, leaves other entries alone, keeps entries separate |
| `Recommenders.RecommendationManager.MergeRecommenders` | src/spaceone/inventory/manager/recommender/recommendation_manager.py:505-517 | for any starting table: every entry is its old state with its deliveries received in order, results alias the table's entries, an unknown id stops the merge with what came before kept |
| `Recommenders.MergedItems` | src/spaceone/inventory/manager/recommender/recommendation_manager.py:505-517 | an id's list is its old list followed by everything delivered for it; ids without a delivery are untouched |
| `Recommenders.DeliveredOne` | src/spaceone/inventory/manager/recommender/recommendation_manager.py:512-515 | one delivery counts with its items in their order |
| `Recommenders.MergedInfo` | src/spaceone/inventory/manager/recommender/recommendation_manager.py:509-510 | an entry without a list takes the first delivery's description, one with a list keeps its own |
| `Recommenders.MergedTwice` | src/spaceone/inventory/manager/recommender/recommendation_manager.py:74 | two collections over the same table act like one with both deliveries |
| `Recommenders.CollectingTwiceDoubles` | src/spaceone/inventory/manager/recommender/recommendation_manager.py:74 | for any table, the same deliveries collected again stand in the list a second time |
| `Recommenders.GroupIsItsOwnExactlyWhenNew` | src/spaceone/inventory/manager/recommender/recommendation_manager.py:505-517 | an id's list is what this collection delivered exactly when the entry held nothing before |
| `Recommenders.TotalsAreTheirOwnExactlyWhenNew` | src/spaceone/inventory/manager/recommender/recommendation_manager.py:161-178 | so are the totals, whenever they exist: older items always show |
| `Recommenders.RecordAfterCollections` | src/spaceone/inventory/manager/recommender/recommendation_manager.py:74-188 | after n equal collections the record shows the totals held at first plus n times those delivered |
| `Recommenders.GroupingConserves` | src/spaceone/inventory/manager/recommender/recommendation_manager.py:505-517 | all groups together hold exactly the delivered recommendations |
| `Recommenders.Summarise` | src/spaceone/inventory/manager/recommender/recommendation_manager.py:162-188 | the entry's record, or the error of a list that cannot be summed with the entry unchanged; zero totals leave older ones |
| `Recommenders.RecordIsExact` | src/spaceone/inventory/manager/recommender/recommendation_manager.py:163-188 | a record exists exactly when the list can be summed; only the COST category shows savings, the rounded sum of its costs; the resources are those named; the priority is the highest and the state follows it; zero values leave what was there |
| `Recommenders.NoSavingsOutsideCost` | src/spaceone/inventory/manager/recommender/recommendation_manager.py:171-181 | outside the COST category, and for a zero sum, the savings stay as they were |
| `Recommenders.TotalsAgain` | src/spaceone/inventory/manager/recommender/recommendation_manager.py:161-188 | totalling an entry again gives the same record and changes nothing |
| `Recommenders.SummariseAll` | src/spaceone/inventory/manager/recommender/recommendation_manager.py:161-214 | with one entry listed many times each occurrence gives the record the entry alone determines |
| `Recommenders.Aggregate` | src/spaceone/inventory/manager/recommender/recommendation_manager.py:159-188 | one record per recommendation, that of everything the table held for its id and everything delivered |
| `RecommendationTotals.CostIsTheAbsoluteAmount` | src/spaceone/inventory/manager/recommender/recommendation_manager.py:353-370 | the cost before rounding is the absolute amount exactly when units and nanos do not have opposite signs; the shown one is within half a cent |
| `Rounding.Round2` | src/spaceone/inventory/manager/recommender/recommendation_manager.py:181 | a whole number of cents within half a cent of the amount |
| `Rounding.NearestHundredth` | src/spaceone/inventory/manager/recommender/recommendation_manager.py:181 | the nearest cent, the even one of a tie |
| `RecommendationTotals.SumUp` | src/spaceone/inventory/manager/recommender/recommendation_manager.py:163-178 | the loop computes the totals or the first error |
| `RecommendationTotals.TotalsOfBoth` | src/spaceone/inventory/manager/recommender/recommendation_manager.py:163-178 | two lists together have the sum of their costs, counts and levels, and an error exactly when one of them has |
| `RecommendationTotals.TotalsOfRepeated` | src/spaceone/inventory/manager/recommender/recommendation_manager.py:163-178 | a list n times over has its totals added n times |
| `RecommendationTotals.ScaledIsProduct` | src/spaceone/inventory/manager/recommender/recommendation_manager.py:163-178 | totals added n times have n times the cost and each count |
| `RecommendationTotals.TotalsExist` | src/spaceone/inventory/manager/recommender/recommendation_manager.py:171-178 | there are totals exactly when every priority is one of four and, for COST, no cost is missing |
| `RecommendationTotals.CostIsTheSum` | src/spaceone/inventory/manager/recommender/recommendation_manager.py:171-173 | the total cost is the sum of the recommendations' costs for COST and zero otherwise |
| `RecommendationTotals.TotalsStopAtTheFirst` | src/spaceone/inventory/manager/recommender/recommendation_manager.py:170-178 | without totals the error is that of the first recommendation that stops them: a type error for a missing cost, else a key error |
| `RecommendationTotals.CountsAreExact` | src/spaceone/inventory/manager/recommender/recommendation_manager.py:165-178 | each level count counts its level, the four sum to the list, resources are counted |
| `RecommendationTotals.PrimaryPriorityIsTheHighest` | src/spaceone/inventory/manager/recommender/recommendation_manager.py:519-530 | the primary priority is the highest present, the state follows it; only the empty list reports an absent one |
| `RecommendationTotals.CountedPriorities` | src/spaceone/inventory/manager/recommender/recommendation_manager.py:332-343 | exactly P1 to P4 become counted levels, in decreasing rank |
| `RecommendationTotals.ShownTotalIsClose` | src/spaceone/inventory/manager/recommender/recommendation_manager.py:171-181 | over n costs the shown total is within (n+1) half cents of the exact sum |
| `RecommendationParents.SelectAvailableLocations` | src/spaceone/inventory/manager/recommender/recommendation_manager.py:532-542 | the region of each zone and each known region, in asset order |
| `RecommendationParents.AvailableInOrder` | src/spaceone/inventory/manager/recommender/recommendation_manager.py:532-542 | the locations of later assets come behind those of earlier ones |
| `RecommendationParents.AvailableOfOne` | src/spaceone/inventory/manager/recommender/recommendation_manager.py:535-540 | an asset location gives the region it is a zone of, then itself when it is a known region |
| `RecommendationParents.HowOftenALocationIsAsked` | src/spaceone/inventory/manager/recommender/recommendation_manager.py:532-542 | a location is selected once per mention of its zones and, if a known region, per mention of itself |
| `RecommendationParents.CreateRecommendationParents` | src/spaceone/inventory/manager/recommender/recommendation_manager.py:292-317 | the paths of all locations and recommenders, in order |
| `RecommendationParents.ParentsExact` | src/spaceone/inventory/manager/recommender/recommendation_manager.py:295-315 | a path is asked exactly when it is that of an available location and a recommender of the table, or, for a cost recommender and a location that is neither "global" nor ends in "-a", "-b" or "-c", that of the location with one of these endings |
| `RecommendationParents.PathsOfOne` | src/spaceone/inventory/manager/recommender/recommendation_manager.py:297-315 | one location and one recommender: the location's path, then those of its zones a, b and c if they are asked |
| `RecommendationParents.ParentsInOrder` | src/spaceone/inventory/manager/recommender/recommendation_manager.py:295-315 | the paths of later locations come behind those of earlier ones |
| `RecommendationParents.LocationPathsInOrder` | src/spaceone/inventory/manager/recommender/recommendation_manager.py:296-315 | and within a location those of later recommenders |
| `RecommendationParents.NoLocationRepeatsExactlyWhen` | src/spaceone/inventory/manager/recommender/recommendation_manager.py:532-542 | no location is selected twice exactly when the assets have no two zones of one region and no known region beside its zone |
| `RecommendationParents.HowOftenAPathIsAsked` | src/spaceone/inventory/manager/recommender/recommendation_manager.py:295-315 | a path is asked once per mention of its place among the locations, and for a cost recommender once more per mention of the region the place is a zone of |
| `RecommendationParents.NoPathIsAskedTwiceExactlyWhen` | src/spaceone/inventory/manager/recommender/recommendation_manager.py:295-315 | no path is asked twice exactly when no location repeats and no cost region is available beside its own zone (or there is no recommender) |
| `RecommendationParents.TwoZonesAskTwice` | src/spaceone/inventory/manager/recommender/recommendation_manager.py:295-315 | two zones of one region among the assets: its path is asked twice |
| `RecommendationQueries.CollectRecommendations` | src/spaceone/inventory/manager/recommender/recommendation_manager.py:92-157 | the answers to all paths, one after the other |
| `RecommendationQueries.EachQueryDelivers` | src/spaceone/inventory/manager/recommender/recommendation_manager.py:92-157 | a recommendation that one path brings stands in its group exactly as often as the path is asked |
| `RecommendationQueries.TotalsAddUp` | src/spaceone/inventory/manager/recommender/recommendation_manager.py:92-178 | a recommender's totals are the sum over its queries, a repeated one counting each time |
| `RecommendationQueries.TwoZonesDoubleTheTotals` | src/spaceone/inventory/manager/recommender/recommendation_manager.py:92-178 | with two zones of one region among the assets a recommender of the region shows twice its totals |
| `RecommendationParents.SplitAtMarker` | src/spaceone/inventory/manager/recommender/recommendation_manager.py:428-429 | the split at "locations/" has two parts exactly when neither side holds another marker |
| `RecommendationParents.LocationReadBack` | src/spaceone/inventory/manager/recommender/recommendation_manager.py:425-435 | the location is read back exactly when it has no slash and project id, location and recommender id bring no further marker |
| `RecommendationParents.ProjectNamedLocations` | src/spaceone/inventory/manager/recommender/recommendation_manager.py:425-435 | for the project id "my-locations" no location is read back |
| `RecommendationParents.NameReadBack` | src/spaceone/inventory/manager/recommender/recommendation_manager.py:319-330 | a recommendation's name gives back location and recommender exactly when no part brings a further marker, and nothing otherwise |
| `MachineTypes.GetCoreAndMemory` | src/spaceone/inventory/manager/compute_engine/vm_instance/vm_instance_manager_resource_helper.py:299-314 | cores and memory of the first entry with the link or the name; zeros without one |
| `MachineTypes.SearchGivesTheFirstMatch` | src/spaceone/inventory/manager/compute_engine/vm_instance/vm_instance_manager_resource_helper.py:299-314 | for any list: the first entry with the link, or with the name behind its last slash; zeros without one |
| `MachineTypes.NameFollowsTheLastSlash` | src/spaceone/inventory/manager/compute_engine/vm_instance/vm_instance_manager_resource_helper.py:300-301 | the name is what follows the last slash of the link |
| `MachineTypes.WholeGigabytes` | src/spaceone/inventory/manager/compute_engine/vm_instance/vm_instance_manager_resource_helper.py:311 | 1024 n megabytes are shown as n gigabytes |
| `MachineTypes.ShownGigabytes` | src/spaceone/inventory/manager/compute_engine/vm_instance/vm_instance_manager_resource_helper.py:311 | what is shown is within half a hundredth of a gigabyte |
| `MachineTypes.MachineTypeList.GetCustomImageType` | src/spaceone/inventory/manager/compute_engine/vm_instance/vm_instance_manager_resource_helper.py:260-271 | a fetched type joins the list; a failed fetch leaves it alone |
| `MachineTypes.MachineTypeList.GetHardwareData` | src/spaceone/inventory/manager/compute_engine/vm_instance/vm_instance_manager_resource_helper.py:204-226 | the list first, the fetch when the list gave zeros |
| `MachineTypes.MachineTypeList.CollectHardware` | src/spaceone/inventory/manager/compute_engine/vm_instance_manager.py:78-111 | the loop over VMs with one shared list; a failed VM does not stop it |
| `MachineTypes.SearchFindsTheName` | src/spaceone/inventory/manager/compute_engine/vm_instance/vm_instance_manager_resource_helper.py:299-314 | in an agreeing list the search finds a type exactly when its name is listed, and what the name stands for |
| `MachineTypes.StepAsCache` | src/spaceone/inventory/manager/compute_engine/vm_instance/vm_instance_manager_resource_helper.py:204-226 | a listed name costs no fetch, a fetched type is listed, a failure changes nothing |
| `MachineTypes.StepOfAnyList` | src/spaceone/inventory/manager/compute_engine/vm_instance/vm_instance_manager_resource_helper.py:204-226 | for any list a type is fetched exactly when the search finds nothing or only zeros; a fetched type joins the list, a failure leaves it |
| `MachineTypes.ListAfterRun` | src/spaceone/inventory/manager/compute_engine/vm_instance_manager.py:78-111 | over any run the list agrees with the names, only missing names were added, each once, and the listed names are the available ones |
| `MachineTypes.EveryVmGetsItsType` | src/spaceone/inventory/manager/compute_engine/vm_instance_manager.py:78-111 | every VM gets what its type's name stands for, or its own fetch error when the type was not available before |
| `LoadBalancers.PrintedRange` | src/spaceone/inventory/manager/compute_engine/vm_instance/load_balancer_manager_resource_helper.py:155-163 | the printed text of two bounds expands to the range of the two |
| `LoadBalancers.PrintedPort` | src/spaceone/inventory/manager/compute_engine/vm_instance/load_balancer_manager_resource_helper.py:155-163 | the printed text of one port expands to that port |
| `LoadBalancerEntries.OnePort` | src/spaceone/inventory/manager/compute_engine/vm_instance/load_balancer_manager_resource_helper.py:155-163 | a text without a dash, or starting with one, is read as one number or is a value error |
| `LoadBalancerEntries.TwoBounds` | src/spaceone/inventory/manager/compute_engine/vm_instance/load_balancer_manager_resource_helper.py:155-163 | two numbers around one dash are a range; anything else there is a value error |
| `LoadBalancerEntries.ManyPieces` | src/spaceone/inventory/manager/compute_engine/vm_instance/load_balancer_manager_resource_helper.py:155-163 | more dashes leave the pieces; a missing text is an attribute error |
| `LoadBalancers.RangeIsExact` | src/spaceone/inventory/manager/compute_engine/vm_instance/load_balancer_manager_resource_helper.py:159-163 | a range is every integer between its bounds, strictly increasing |
| `LoadBalancers.GetLbNameFromBackendSvc` | src/spaceone/inventory/manager/compute_engine/vm_instance/load_balancer_manager_resource_helper.py:125-132 | the first URL map whose default service is the link |
| `LoadBalancers.GetMatchedInstanceGroup` | src/spaceone/inventory/manager/compute_engine/vm_instance/load_balancer_manager_resource_helper.py:104-114 | the groups with the VM among their members, each once |
| `LoadBalancers.GetMatchedBackendSvcForHttp` | src/spaceone/inventory/manager/compute_engine/vm_instance/load_balancer_manager_resource_helper.py:83-102 | exactly the matching services, in order, each carrying the URL map that its link selects; or the error of a search for an absent group key |
| `LoadBalancers.GetMatchedTargetPool` | src/spaceone/inventory/manager/compute_engine/vm_instance/load_balancer_manager_resource_helper.py:134-141 | the pools with an instance text that contains the VM's link |
| `LoadBalancers.MatchRulesOfPool` | src/spaceone/inventory/manager/compute_engine/vm_instance/load_balancer_manager_resource_helper.py:146-152 | one pool is written into exactly the rules that target it, which are returned in order |
| `LoadBalancers.GetMatchedForwardingRules` | src/spaceone/inventory/manager/compute_engine/vm_instance/load_balancer_manager_resource_helper.py:143-153 | the rules by pool, then rule; each carries the last pool it targets |
| `LoadBalancers.GetLoadbalancerInfo` | src/spaceone/inventory/manager/compute_engine/vm_instance/load_balancer_manager_resource_helper.py:8-81 | the VM's load balancers are a function of the fixed inputs, whatever entries earlier VMs left in the shared dictionaries |
| `LoadBalancers.CollectLoadBalancers` | src/spaceone/inventory/manager/compute_engine/vm_instance_manager.py:194-201 | whatever order the VMs come in and whatever entries earlier ones left in the shared dictionaries, each VM gets at its place the value that it and the read-only fields alone determine |
| `LoadBalancers.PairsExact` | src/spaceone/inventory/manager/compute_engine/vm_instance/load_balancer_manager_resource_helper.py:143-153 | exactly the pools and rules that match, ordered by pool, then rule |
| `LoadBalancers.RuleLbsAt` | src/spaceone/inventory/manager/compute_engine/vm_instance/load_balancer_manager_resource_helper.py:62-79 | each entry is made of its own rule and the last pool that rule targets |
| `LoadBalancers.RuleLbsSucceed` | src/spaceone/inventory/manager/compute_engine/vm_instance/load_balancer_manager_resource_helper.py:66-79 | the join succeeds exactly when every matched rule's port range can be read |
| `LoadBalancers.EntriesNameTheirOwnPool` | src/spaceone/inventory/manager/compute_engine/vm_instance/load_balancer_manager_resource_helper.py:143-153 | every entry shows its own pool's name exactly when pools that one rule targets together have one name |
| `LoadBalancers.OwnLinksShowOwnNames` | src/spaceone/inventory/manager/compute_engine/vm_instance/load_balancer_manager_resource_helper.py:143-153 | pools with links of their own always show their own names |
| `LoadBalancers.TwoPoolsWithOneLink` | src/spaceone/inventory/manager/compute_engine/vm_instance/load_balancer_manager_resource_helper.py:54-81 | two pools of a VM with one link: both entries of the VM show the second pool's name |
| `LoadBalancers.AllGroupLbsFail` | src/spaceone/inventory/manager/compute_engine/vm_instance/load_balancer_manager_resource_helper.py:83-102 | the HTTP half fails, with a type error, exactly for a group without a link while there is a looked-at service with backends |
| `LoadBalancerEntries.SelectUrlMapExact` | src/spaceone/inventory/manager/compute_engine/vm_instance/load_balancer_manager_resource_helper.py:125-132 | the URL map of a service is the first with its link as default service |
| `LoadBalancerEntries.KeyExact` | src/spaceone/inventory/manager/compute_engine/vm_instance/load_balancer_manager_resource_helper.py:116-123 | a group is searched by its link from the first "/projects/" on, by the last character without one, and not at all without a link |
| `LoadBalancerEntries.HttpEntries` | src/spaceone/inventory/manager/compute_engine/vm_instance/load_balancer_manager_resource_helper.py:34-58 | on success one entry per given group with the VM among its members and HTTP service behind a URL map with a backend text that contains the group's key, by group, then service; its type, protocol, scheme and port are the service's, its name the first URL map's |
| `LoadBalancerEntries.HttpFailsExactly` | src/spaceone/inventory/manager/compute_engine/vm_instance/load_balancer_manager_resource_helper.py:83-123 | the HTTP half fails, with a type error, exactly for a group of the VM without a link and an HTTP service with backends |
| `LoadBalancerEntries.PoolEntries` | src/spaceone/inventory/manager/compute_engine/vm_instance/load_balancer_manager_resource_helper.py:60-79 | on success one entry per given pool with an instance text that contains the VM's link and rule that targets it, by pool, then rule; its type, protocol, scheme and ports are the rule's, its name that of the last such pool |
| `LoadBalancerEntries.PoolsFailExactly` | src/spaceone/inventory/manager/compute_engine/vm_instance/load_balancer_manager_resource_helper.py:134-163 | the target-pool half fails exactly for a matching rule whose port range cannot be read, with the first such rule's error |
| `LoadBalancerEntries.VmEntries` | src/spaceone/inventory/manager/compute_engine/vm_instance/load_balancer_manager_resource_helper.py:34-81 | a VM has its HTTP entries, then its pool entries, and none exactly when one half fails; the HTTP error comes first |
| `Firewalls.ChkNetworkTagIsMatched` | src/spaceone/inventory/manager/compute_engine/vm_instance/firewall_manager_resource_helper.py:131-139 | matched exactly when a target tag is a tag of the VM |
| `Firewalls.ChkServiceAccountIsMatched` | src/spaceone/inventory/manager/compute_engine/vm_instance/firewall_manager_resource_helper.py:141-149 | matched exactly when a target account is an account of the VM |
| `Firewalls.ListFirewallRuleData` | src/spaceone/inventory/manager/compute_engine/vm_instance/firewall_manager_resource_helper.py:79-100 | one entry per protocol and port with its own bounds, although one dictionary is overwritten for all ports |
| `Firewalls.ListFirewallRulesInfo` | src/spaceone/inventory/manager/compute_engine/vm_instance/firewall_manager_resource_helper.py:12-37 | the entries of the rules that apply, in order |
| `Firewalls.OneEntryPerPort` | src/spaceone/inventory/manager/compute_engine/vm_instance/firewall_manager_resource_helper.py:12-37 | the result is exactly one entry per applying rule, protocol and port, in input order without repetition |
| `Firewalls.EntriesSayTheRule` | src/spaceone/inventory/manager/compute_engine/vm_instance/firewall_manager_resource_helper.py:12-115 | the entries are those of the ports of the allowed items, or without those of the denied ones, of the rules that apply; each has its rule's id, name, priority and action, its item's protocol, its port's bounds |
| `Firewalls.BoundsExact` | src/spaceone/inventory/manager/compute_engine/vm_instance/firewall_manager_resource_helper.py:102-115 | for any port text the bounds are the text twice, or the pieces before its first and its second dash |
| `Firewalls.PortBounds` | src/spaceone/inventory/manager/compute_engine/vm_instance/firewall_manager_resource_helper.py:102-115 | a port without a dash is both bounds; otherwise the bounds are the first two pieces and the rest is dropped |
| `Firewalls.DirectionIsAlwaysOutbound` | src/spaceone/inventory/manager/compute_engine/vm_instance/firewall_manager_resource_helper.py:117-122 | every entry says "outbound", which is right exactly for the rules that are not ingress |
| `InstanceFilter.GetFilterToParams` | src/spaceone/inventory/connector/compute_engine/vm_instance.py:351-362 | the printed clauses joined by AND, empty clauses dropped; no text at all for an empty list |
| `InstanceFilter.ListInstancesFilter` | src/spaceone/inventory/connector/compute_engine/vm_instance.py:54-75 | the status filter is appended to the caller's list, whose printed text is sent |
| `InstanceFilter.ListInstancesRepeatedly` | src/spaceone/inventory/connector/compute_engine/vm_instance.py:68-75 | call number n with one list sends n status filters |
| `InstanceFilter.DroppedFilters` | src/spaceone/inventory/connector/compute_engine/vm_instance.py:387-400 | a filter prints to nothing exactly without a key, for an empty list, or for a mapping |
| `InstanceFilter.ParsePrinted` | src/spaceone/inventory/connector/compute_engine/vm_instance.py:351-400 | parsing the printed text gives back the filters without the empty ones, exactly when those are free of the printer's delimiters |
| `InstanceFilter.PrintedMeaning` | src/spaceone/inventory/connector/compute_engine/vm_instance.py:351-400 | the text accepts an instance exactly when every kept filter has a value equal to its field |
| `InstanceFilter.PrintedTwo` | src/spaceone/inventory/connector/compute_engine/vm_instance.py:351-400 | the text of two filters spelled out |
| `InstanceFilter.DelimitersLoseTheMeaning` | src/spaceone/inventory/connector/compute_engine/vm_instance.py:387-400 | a value that holds " OR " prints like two values: two filters of different meaning have one text |
| `InstanceFilter.RepeatedListingsAskTheSame` | src/spaceone/inventory/connector/compute_engine/vm_instance.py:54-75 | any number of appended status filters asks the same question: the caller's filters and one of the eight states in the field "status" |
| `ExternalAddresses.MergeStatics` | src/spaceone/inventory/manager/networking/external_ip_address_manager.py:147-169 | the reserved external addresses, updated in place; the side list has their addresses |
| `ExternalAddresses.MergeRules` | src/spaceone/inventory/manager/networking/external_ip_address_manager.py:171-201 | adds the external rules with a new address; the side list stays the output's addresses |
| `ExternalAddresses.MergeInstances` | src/spaceone/inventory/manager/networking/external_ip_address_manager.py:203-238 | adds a new dictionary per new NAT address |
| `ExternalAddresses.GetExternalIpAddresses` | src/spaceone/inventory/manager/networking/external_ip_address_manager.py:135-240 | the dictionaries returned hold the merged entries, or an index error ends the merge |
| `ExternalAddresses.RulesFacts` | src/spaceone/inventory/manager/networking/external_ip_address_manager.py:171-201 | rules add exactly their new addresses, each once, behind the entries there were |
| `ExternalAddresses.StaticsExact` | src/spaceone/inventory/manager/networking/external_ip_address_manager.py:147-169 | the static entries are exactly the reserved external addresses, in order, each once per mention |
| `ExternalAddresses.RulesOrigin` | src/spaceone/inventory/manager/networking/external_ip_address_manager.py:171-201 | an added entry is made from the first external rule with its address |
| `ExternalAddresses.CandidatesFacts` | src/spaceone/inventory/manager/networking/external_ip_address_manager.py:203-238 | interfaces add exactly their new addresses, each once, behind the entries there were |
| `ExternalAddresses.CandidatesOrigin` | src/spaceone/inventory/manager/networking/external_ip_address_manager.py:203-238 | an added entry is made from the first interface with its address |
| `ExternalAddressSources.MergeOfThreeSources` | src/spaceone/inventory/manager/networking/external_ip_address_manager.py:135-240 | the list starts with exactly the reserved external addresses, in order; its addresses are those of the reserved ones, of the external rules and of the access configurations of the VMs' interfaces; each entry is made from the first source, and there the first place, that has its address, and says what that rule or VM says; no other address repeats an earlier one |
| `ExternalAddressSources.CandidatesExact` | src/spaceone/inventory/manager/networking/external_ip_address_manager.py:203-238 | the NAT addresses are found exactly at the access configurations that have one, in the order of VMs, interfaces and configurations, each with its VM and the zone of the VM's URL |
| `ExternalAddressSources.NatIsExact` | src/spaceone/inventory/manager/networking/external_ip_address_manager.py:214-233 | an added entry is used by its VM, in the VM's zone and the zone's region |
| `ExternalAddressSources.RuleIsExact` | src/spaceone/inventory/manager/networking/external_ip_address_manager.py:180-198 | a rule's entry has the rule's address, link and name as user, and the region of its URL or "global" |
| `ExternalAddressSources.StaticIsExact` | src/spaceone/inventory/manager/networking/external_ip_address_manager.py:148-166 | a reserved address keeps its entries and gains its users as the VMs that their URLs name |
| `ExternalAddressSources.MergeFailsExactlyWhen` | src/spaceone/inventory/manager/networking/external_ip_address_manager.py:144-240 | the merge fails exactly when a URL that it reads, of a reserved address, of a rule it adds or of a VM, ends in the key |
| `Durations.DisplayTime` | src/spaceone/inventory/manager/pub_sub/subscription_manager.py:200-216 | the text of the first units of the greedy cut |
| `Durations.PartsLoseNothing` | src/spaceone/inventory/manager/pub_sub/subscription_manager.py:209-215 | before the cut to two units the units add up to the seconds, also below zero |
| `Durations.PartsAreDigits` | src/spaceone/inventory/manager/pub_sub/subscription_manager.py:209-215 | the units are days, hours of the day, minutes of the hour and seconds of the minute, without the zeros |
| `Durations.ShownUnderstatesByLessThanItsLastUnit` | src/spaceone/inventory/manager/pub_sub/subscription_manager.py:200-216 | for any granularity the shown units fall short by less than the last one, and not at all when none was dropped |
| `Durations.ShownSecondsMonotone` | src/spaceone/inventory/manager/pub_sub/topic_manager.py:176-192 | for any granularity a longer duration is not shown as a shorter one |
| `Durations.RenderReadsBack` | src/spaceone/inventory/manager/pub_sub/topic_manager.py:187-192 | the displayed text determines the displayed units |
| `Durations.DisplayMeaning` | src/spaceone/inventory/manager/pub_sub/subscription_manager.py:200-216 | the text reads as the first two non-zero of days, hours, minutes and seconds: never too much, exact with at most two of them non-zero, and else short by less than the last one shown |
| `Durations.FullDisplayIsInjective` | src/spaceone/inventory/manager/pub_sub/subscription_manager.py:200-216 | with all units shown the text gives the seconds back |
| `Durations.DisplayIsMonotone` | src/spaceone/inventory/manager/pub_sub/subscription_manager.py:200-216 | the amount read off the two-unit text grows with the duration |
| `Durations.MakeTimeToDhmsFormat` | src/spaceone/inventory/manager/pub_sub/subscription_manager.py:193-198 | the text tells a reader the duration to within its last unit; it is missing exactly when the duration stands for no number of seconds |
| `Durations.ChangeDurationToDhm` | src/spaceone/inventory/manager/pub_sub/topic_manager.py:159-161 | the text tells a reader the stamp's number of seconds to within its last unit; it fails exactly for a text that is not a number, one "s" and no other "s" |
| `Durations.StampsRead` | src/spaceone/inventory/manager/pub_sub/topic_manager.py:159-161 | a stamp is read as a number exactly when it is that number's text, one "s" and anything without an "s" |
| `Durations.StampOfSeconds` | src/spaceone/inventory/manager/pub_sub/topic_manager.py:159-161 | a printed number, one "s" and anything without an "s" is that number |
| `ServiceTypes.CollectCloudServiceType` | src/spaceone/inventory/libs/manager.py:34-57 | every service type is rewritten in place by the options and yielded |
| `ServiceTypes.CodeAfterOneRun` | src/spaceone/inventory/libs/manager.py:38-46 | a code that is a key of the mapper becomes its value; an empty code and any other stay |
| `ServiceTypes.CollectRepeatedly` | src/spaceone/inventory/libs/manager.py:34-57 | rewrites of several collections build on each other |
| `ServiceTypes.IconAfterRuns` | src/spaceone/inventory/libs/manager.py:48-55 | after any runs the icon is the last URL and the last segment of the first icon; other tags are untouched |
| `ServiceTypes.CodesAreStableExactlyWhenSettled` | src/spaceone/inventory/libs/manager.py:38-46 | repeated runs with one mapper leave every code where the first run put it exactly when no code it produces is mapped on |
| `ServiceTypes.ChainedCodesMove` | src/spaceone/inventory/libs/manager.py:38-46 | with the mapper GCE to Compute, Compute to ComputeEngine the code is Compute after one run and ComputeEngine after two |
| `ResourceUrls.ParamFollowsTheFirstKey` | src/spaceone/inventory/libs/manager.py:178-188 | the parameter is the segment after the key's first occurrence, empty without the key; the lookup fails exactly when that occurrence is last |
| `ResourceUrls.RegionOfZone` | src/spaceone/inventory/libs/manager.py:285-295 | the region is the first two dash-separated parts, whatever follows |
| `ResourceUrls.NoRegionWithoutDash` | src/spaceone/inventory/libs/manager.py:285-295 | a zone without a dash has no region |
| `ResourceUrls.ZoneAndRegionOfUrl` | src/spaceone/inventory/manager/compute_engine/vm_instance_manager.py:311-315 | zone and region of a VM from its zone URL |

## Left out

- All Google API calls, credentials, paging, the web crawl and the metric files: their results are parameters.
- The response models and the dynamic layout metadata: rendering a response is a parameter that can fail.
- `urlparse`: the path of a URL is the parameter `pathOf`.
- Floating point: costs and memory are real numbers, rounded to hundredths with ties to even.
- `Text.ParseInt`: reads blanks, a sign and decimal digits; the underscores and non-ASCII digits that `int` also takes are errors here.
- `_create_target_locations`: the asset locations are an input of the location selection.
- The preprocessing loop of the recommendations (display texts, insights): it drops those with an unknown recommender, which is why `Recommenders.Aggregate` starts from known ids.
- `Recommenders.CreateRecommenders`: a recommendation's record keeps only what the totals read and a description; the key errors of a record that lacks an entry are not part of this model.
- The "all" protocol branch of the firewall expansion: it looks up a key that is never set, so it is never taken and has no counterpart.
- `LoadBalancers.GetPortRangesIntoArray`: the conversion of a range text with several dashes by the response model is not part of this model; its pieces are kept as they are.
- `ExternalAddresses.GetExternalIpAddresses`: the display of IP version and network tier, and the creation time, are not among the entries; all dictionaries given to it are different objects, as a JSON decoder returns them.
- `ServiceTypes.CollectCloudServiceType`: the service types of one manager are different objects.
- `CollectionRun.CollectorService.Collect`: a failure to construct a manager or to read the metric files is not modelled; the order of completion is any permutation.
- `RegionRegistry.EveryInterleavingKeepsTheRegistry`: one list operation of the interpreter is one step.
- `InstanceFilter.PrintedMeaning`: for printed keys without blank, closing parenthesis and equals sign and values without blank and closing parenthesis; the printer escapes nothing, and `DelimitersLoseTheMeaning` shows that no reader can do without.
- `InstanceFilter.RepeatedListingsAskTheSame`: for caller filters as in `PrintedMeaning`.
- `RecommendationParents.HowOftenAPathIsAsked`: for location names without a slash, as the collector cuts them out of asset names, and different recommender ids, as keys of a table are.
- Route and firewall "applicable instance" matching, the trigger provider map, disks, autoscalers, network interfaces and the other managers: single lookups, or code whose natural claim does not hold.
