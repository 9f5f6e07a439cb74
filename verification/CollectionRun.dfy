/**
  One collection: every manager gathers its block of responses, and the collector drains the
  finished managers in completion order into one stream.
 */
module CollectionRun {
  import opened Basics
  import opened Sequences
  import opened RegionRegistry

  /** What a client receives, up to its rendering. */
  datatype Response =
    | ServiceType(group: string, name: string)
    | Resource(id: string)
    | ResourceError(id: string)
    | Region(code: string)
    | ManagerError(group: string, name: string)
    | InventoryError
    | Metric(name: string)

  datatype Exception =
    | HttpError(status: int, reasons: seq<Option<string>>)
    | OtherError

  /** The exception text of a manager without cloud service types: an index error. */
  datatype Escape = NoServiceTypes

  /** How the generator of service types ended: how many it yielded, and what stopped it. */
  datatype TypesOutcome = TypesOutcome(yielded: seq<Response>, stopped: Option<Exception>)

  /**
    A manager as the collection sees it: its declared service types and what each of its three
    stages turned out to give.
   */
  datatype Manager = Manager(
    cloudServiceTypes: seq<(string, string)>,
    types: TypesOutcome,
    service: Result<(seq<Response>, seq<Response>), Exception>,
    regions: Result<seq<Response>, Exception>)

  // ---------- one manager ----------

  predicate Disabled(e: Exception)
  {
    e.HttpError? && e.status == 403 &&
    ((|e.reasons| == 1 && e.reasons[0] == Some("accessNotConfigured")) ||
     (|e.reasons| == 2 && e.reasons[1] == Some("SERVICE_DISABLED")))
  }

  predicate InvalidForBigQuery(e: Exception, group: string)
  {
    e.HttpError? && e.status == 400 && group == "BigQuery" &&
    ((|e.reasons| == 1 && e.reasons[0] == Some("invalid")) ||
     (|e.reasons| == 2 && e.reasons[1] == Some("invalid")))
  }

  /** What the handler appends for an exception; it fails itself when it needs a missing service type. */
  function Handled(manager: Manager, e: Exception): Result<seq<Response>, Escape>
  {
    if Disabled(e) then Success([])
    else if manager.cloudServiceTypes == [] then Failure(NoServiceTypes)
    else
      var (group, name) := manager.cloudServiceTypes[0];
      if InvalidForBigQuery(e, group) then Success([]) else Success([ManagerError(group, name)])
  }

  /** The first exception of a manager, if any. */
  function FirstException(manager: Manager): Option<Exception>
  {
    if manager.types.stopped.Some? then manager.types.stopped
    else if manager.service.Failure? then Some(manager.service.error)
    else if manager.regions.Failure? then Some(manager.regions.error)
    else None
  }

  /** Everything gathered when nothing goes wrong. */
  function FullBlock(manager: Manager): seq<Response>
    requires FirstException(manager).None?
  {
    manager.types.yielded + manager.service.value.0 + manager.service.value.1 + manager.regions.value
  }

  /** The stages before the first exception. */
  function Gathered(manager: Manager): seq<Response>
  {
    if manager.types.stopped.Some? || manager.service.Failure? then manager.types.yielded
    else
      manager.types.yielded + manager.service.value.0 + manager.service.value.1 +
      (if manager.regions.Failure? then [] else manager.regions.value)
  }

  /** The block of a manager: all stages, or the stages before the exception and at most one error. */
  function Block(manager: Manager): Result<seq<Response>, Escape>
  {
    match FirstException(manager)
    case None => Success(FullBlock(manager))
    case Some(e) =>
      match Handled(manager, e)
      case Success(tail) => Success(Gathered(manager) + tail)
      case Failure(escape) => Failure(escape)
  }

  method CollectResources(manager: Manager) returns (r: Result<seq<Response>, Escape>)
    ensures r == Block(manager)
  {
    var totalResources: seq<Response> := [];
    var raised: Option<Exception> := None;

    totalResources := totalResources + manager.types.yielded;
    raised := manager.types.stopped;
    if raised.None? {
      match manager.service {
        case Success(collected) =>
          totalResources := totalResources + collected.0;
          totalResources := totalResources + collected.1;
          match manager.regions {
            case Success(regions) => totalResources := totalResources + regions;
            case Failure(e) => raised := Some(e);
          }
        case Failure(e) => raised := Some(e);
      }
    }

    assert raised == FirstException(manager);
    assert totalResources == if raised.None? then FullBlock(manager) else Gathered(manager);
    match raised {
      case None => r := Success(totalResources);
      case Some(e) =>
        match Handled(manager, e) {
          case Success(tail) => r := Success(totalResources + tail);
          case Failure(escape) => r := Failure(escape);
        }
    }
  }

  /**
    What an exception leaves in a manager's block: the stages before it and one error, which is
    silent exactly for a disabled service and an invalid BigQuery request. The block itself is
    lost exactly when the error needs the first service type of a manager without any.
   */
  lemma SkippedExactlyWhenExpected(manager: Manager)
    requires FirstException(manager).Some?
    ensures var e := FirstException(manager).value;
            && (Block(manager).Failure? <==> !Disabled(e) && manager.cloudServiceTypes == [])
            && (Block(manager).Success? ==>
                  && Gathered(manager) <= Block(manager).value
                  && var extra := Block(manager).value[|Gathered(manager)|..];
                     && (extra == [] <==> Silent(manager, e))
                     && (extra != [] ==>
                           extra == [ManagerError(manager.cloudServiceTypes[0].0, manager.cloudServiceTypes[0].1)]))
  {
  }

  /** A disabled service is a 403 with one of two reasons, in the first detail of one or the second of two. */
  lemma DisabledExactly(e: Exception)
    ensures Disabled(e) <==> || e == HttpError(403, [Some("accessNotConfigured")])
                             || exists first :: e == HttpError(403, [first, Some("SERVICE_DISABLED")])
  {
    if Disabled(e) && |e.reasons| == 2 {
      assert e.reasons == [e.reasons[0], Some("SERVICE_DISABLED")];
    }
  }

  /** An invalid request is a 400 with the reason in the same places, and counts for BigQuery only. */
  lemma InvalidExactly(e: Exception, group: string)
    ensures InvalidForBigQuery(e, group) <==>
              group == "BigQuery" && (|| e == HttpError(400, [Some("invalid")])
                                      || exists first :: e == HttpError(400, [first, Some("invalid")]))
  {
    if InvalidForBigQuery(e, group) && |e.reasons| == 2 {
      assert e.reasons == [e.reasons[0], Some("invalid")];
    }
  }

  /**
    The block in terms of what the stages gave: all of them in the order types, resources,
    errors, regions; or, with an exception, exactly the stages before it and at most one error.
   */
  lemma BlockByStage(manager: Manager)
    ensures var types := manager.types.yielded;
            && (manager.types.stopped.None? && manager.service.Success? && manager.regions.Success? ==>
                  Block(manager) == Success(types + manager.service.value.0 + manager.service.value.1 + manager.regions.value))
            && (manager.types.stopped.None? && manager.service.Success? && manager.regions.Failure? ==>
                  EndsWithError(manager, types + manager.service.value.0 + manager.service.value.1, manager.regions.error))
            && (manager.types.stopped.None? && manager.service.Failure? ==>
                  EndsWithError(manager, types, manager.service.error))
            && (manager.types.stopped.Some? ==>
                  EndsWithError(manager, types, manager.types.stopped.value))
  {
    if FirstException(manager).Some? {
      var types := manager.types.yielded;
      assert Gathered(manager) + [] == Gathered(manager);
      if manager.types.stopped.None? && manager.service.Success? {
        var stages := types + manager.service.value.0 + manager.service.value.1;
        assert stages + [] == stages;
      }
    }
  }

  /** The block is `stages`, and behind them the error of the first service type unless it is silent. */
  ghost predicate EndsWithError(manager: Manager, stages: seq<Response>, e: Exception)
  {
    if Disabled(e) then Block(manager) == Success(stages)
    else if manager.cloudServiceTypes == [] then Block(manager) == Failure(NoServiceTypes)
    else
      var (group, name) := manager.cloudServiceTypes[0];
      Block(manager) == Success(stages + if InvalidForBigQuery(e, group) then [] else [ManagerError(group, name)])
  }

  predicate Silent(manager: Manager, e: Exception)
  {
    Disabled(e) || (manager.cloudServiceTypes != [] && InvalidForBigQuery(e, manager.cloudServiceTypes[0].0))
  }

  // ---------- the stream ----------

  /** A finished future as the drain loop sees it: its block cut at the first response that cannot be rendered. */
  function Drained(manager: Manager, renders: Response -> bool): seq<Response>
  {
    match Block(manager)
    case Success(block) => Rendered(block, renders)
    case Failure(_) => [InventoryError]
  }

  function Rendered(block: seq<Response>, renders: Response -> bool): seq<Response>
  {
    if block == [] then []
    else if !renders(block[0]) then [InventoryError]
    else [block[0]] + Rendered(block[1..], renders)
  }

  /** A block is passed on up to its first response that cannot be rendered, which becomes one error. */
  lemma {:induction false} RenderedUpTo(block: seq<Response>, renders: Response -> bool, k: nat)
    requires k <= |block| && (k < |block| ==> !renders(block[k]))
    requires forall i :: 0 <= i < k ==> renders(block[i])
    ensures Rendered(block, renders) == block[..k] + (if k < |block| then [InventoryError] else [])
  {
    if k > 0 {
      RenderedUpTo(block[1..], renders, k - 1);
      assert block[..k] == [block[0]] + block[1..][..k - 1];
    }
  }

  /** The stream for the order in which the managers finished. */
  function Stream(finished: seq<Manager>, renders: Response -> bool): seq<Response>
  {
    Flatten(Map(manager => Drained(manager, renders), finished))
  }

  /** The inner drain loop: yield each rendered response, one error when a rendering fails. */
  method RenderAll(results: seq<Response>, renders: Response -> bool) returns (yielded: seq<Response>)
    ensures yielded == Rendered(results, renders)
  {
    yielded := [];
    for n := 0 to |results|
      invariant yielded == results[..n]
      invariant forall i :: 0 <= i < n ==> renders(results[i])
    {
      if !renders(results[n]) {
        RenderedUpTo(results, renders, n);
        yielded := yielded + [InventoryError];
        return;
      }
      yielded := yielded + [results[n]];
    }
    RenderedUpTo(results, renders, |results|);
    assert results[..|results|] == results;
  }

  method DrainFutures(finished: seq<Manager>, renders: Response -> bool) returns (stream: seq<Response>)
    ensures stream == Stream(finished, renders)
  {
    stream := [];
    ghost var blocks := Map(manager => Drained(manager, renders), finished);
    for k := 0 to |finished|
      invariant stream == Flatten(blocks[..k])
    {
      FlattenUpTo(blocks, k);
      var block := CollectResources(finished[k]);
      match block {
        case Success(results) =>
          var rendered := RenderAll(results, renders);
          stream := stream + rendered;
        case Failure(_) =>
          stream := stream + [InventoryError];
      }
    }
    assert blocks[..|finished|] == blocks;
  }

  /** The service object: `execute_managers` survives a failed lookup and keeps its earlier value. */
  class CollectorService {
    var executeManagers: seq<string>

    constructor ()
      ensures executeManagers == []
    {
      executeManagers := [];
    }

    /**
      `project` is whether the project could be read, `targets` the managers asked for,
      `submitted` what each submitted manager will give, and `finished` the same in the order
      of completion.
     */
    method Collect(project: bool, targets: Option<seq<string>>, submitted: seq<Manager>, finished: seq<Manager>,
                   renders: Response -> bool, metrics: seq<Response>) returns (stream: seq<Response>)
      requires |submitted| == if targets.Some? then |targets.value| else |executeManagers|
      requires multiset(finished) == multiset(submitted)
      modifies this
      ensures executeManagers == if project && targets.Some? then targets.value else old(executeManagers)
      ensures !project ==> stream == []
      ensures project ==>
                stream == (if targets.None? then [InventoryError] else []) + Stream(finished, renders) + metrics
    {
      stream := [];
      if !project {
        return;
      }
      match targets {
        case Some(names) => executeManagers := names;
        case None => stream := stream + [InventoryError];
      }
      var drained := DrainFutures(finished, renders);
      stream := stream + drained;
      stream := stream + metrics;
    }
  }

  // ---------- conservation over completion orders ----------

  /**
    Whatever order the managers complete in, the stream holds the same responses, each as
    often: nothing is lost, doubled or invented.
   */
  lemma StreamConservesBlocks(finished: seq<Manager>, submitted: seq<Manager>, renders: Response -> bool)
    requires multiset(finished) == multiset(submitted)
    ensures multiset(Stream(finished, renders)) == multiset(Stream(submitted, renders))
  {
    var drained := manager => Drained(manager, renders);
    MapPermutation(drained, finished, submitted);
    FlattenPermutation(Map(drained, finished), Map(drained, submitted));
  }

  // ---------- how many errors the stream has ----------

  /** An error that the collector itself makes. */
  predicate IsError(response: Response)
  {
    response.ManagerError? || response.InventoryError?
  }

  function Errors(responses: seq<Response>): nat
  {
    if responses == [] then 0
    else Errors(responses[..|responses| - 1]) + (if IsError(responses[|responses| - 1]) then 1 else 0)
  }

  /** What a stage of a manager gives holds none of the collector's own errors. */
  ghost predicate OwnResponses(responses: seq<Response>)
  {
    forall r :: r in responses ==> !IsError(r)
  }

  ghost predicate Genuine(manager: Manager)
  {
    && OwnResponses(manager.types.yielded)
    && (manager.service.Success? ==> OwnResponses(manager.service.value.0) && OwnResponses(manager.service.value.1))
    && (manager.regions.Success? ==> OwnResponses(manager.regions.value))
  }

  /** Some response of the block cannot be rendered. */
  ghost predicate CutShort(block: seq<Response>, renders: Response -> bool)
  {
    exists i :: 0 <= i < |block| && !renders(block[i])
  }

  /** The manager ends in an error: its block is lost or cut short, or an exception is reported. */
  ghost predicate Fails(manager: Manager, renders: Response -> bool)
  {
    match Block(manager)
    case Failure(_) => true
    case Success(block) =>
      CutShort(block, renders) || (FirstException(manager).Some? && !Silent(manager, FirstException(manager).value))
  }

  lemma {:induction false} NoErrors(responses: seq<Response>)
    requires OwnResponses(responses)
    ensures Errors(responses) == 0
  {
    if responses != [] {
      var front, last := responses[..|responses| - 1], responses[|responses| - 1];
      assert responses == front + [last];
      NoErrors(front);
    }
  }

  lemma ErrorsNext(front: seq<Response>, last: Response)
    ensures Errors(front + [last]) == Errors(front) + (if IsError(last) then 1 else 0)
  {
    assert (front + [last])[..|front|] == front;
  }

  lemma {:induction false} ErrorsOfBoth(a: seq<Response>, b: seq<Response>)
    ensures Errors(a + b) == Errors(a) + Errors(b)
  {
    if b == [] {
      assert a + b == a;
    } else {
      var front, last := b[..|b| - 1], b[|b| - 1];
      assert a + b == (a + front) + [last] && b == front + [last];
      ErrorsOfBoth(a, front);
      ErrorsNext(a + front, last);
    }
  }

  lemma GatheredIsGenuine(manager: Manager)
    requires Genuine(manager)
    ensures OwnResponses(Gathered(manager))
    ensures FirstException(manager).None? ==> OwnResponses(FullBlock(manager))
  {
  }

  /** The first response that cannot be rendered. */
  lemma {:induction false} FirstCut(block: seq<Response>, renders: Response -> bool, n: nat) returns (k: nat)
    requires n <= |block| && forall i :: 0 <= i < n ==> renders(block[i])
    ensures k <= |block| && (k < |block| <==> CutShort(block, renders))
    ensures (k < |block| ==> !renders(block[k])) && forall i :: 0 <= i < k ==> renders(block[i])
    decreases |block| - n
  {
    if n == |block| || !renders(block[n]) {
      k := n;
    } else {
      k := FirstCut(block, renders, n + 1);
    }
  }

  lemma BlockParts(manager: Manager) returns (own: seq<Response>, tail: seq<Response>)
    requires Genuine(manager) && Block(manager).Success?
    ensures Block(manager).value == own + tail && OwnResponses(own)
    ensures if FirstException(manager).Some? && !Silent(manager, FirstException(manager).value)
            then |tail| == 1 && IsError(tail[0]) else tail == []
  {
    GatheredIsGenuine(manager);
    if FirstException(manager).None? {
      own, tail := FullBlock(manager), [];
    } else {
      own, tail := Gathered(manager), Handled(manager, FirstException(manager).value).value;
    }
  }

  lemma DrainedErrors(manager: Manager, renders: Response -> bool)
    requires Genuine(manager)
    ensures Errors(Drained(manager, renders)) == if Fails(manager, renders) then 1 else 0
  {
    ErrorsNext([], InventoryError);
    assert [] + [InventoryError] == [InventoryError];
    if Block(manager).Success? {
      var block := Block(manager).value;
      var own, tail := BlockParts(manager);
      var k := FirstCut(block, renders, 0);
      RenderedUpTo(block, renders, k);
      if k < |block| {
        assert OwnResponses(block[..k]) by {
          assert forall i :: 0 <= i < k ==> block[..k][i] == own[i];
        }
        NoErrors(block[..k]);
        ErrorsOfBoth(block[..k], [InventoryError]);
      } else {
        assert block[..k] + [] == block;
        NoErrors(own);
        if tail == [] {
          assert own + tail == own;
        } else {
          assert tail == [tail[0]];
          ErrorsNext(own, tail[0]);
        }
      }
    }
  }

  ghost function Failing(managers: seq<Manager>, renders: Response -> bool): nat
  {
    if managers == [] then 0
    else Failing(managers[..|managers| - 1], renders) + (if Fails(managers[|managers| - 1], renders) then 1 else 0)
  }

  /** The stream has exactly one error per manager that fails: no failure is silent, and none is reported twice. */
  lemma {:induction false} OneErrorPerFailingManager(finished: seq<Manager>, renders: Response -> bool)
    requires forall manager :: manager in finished ==> Genuine(manager)
    ensures Errors(Stream(finished, renders)) == Failing(finished, renders)
  {
    if finished != [] {
      var front, last := finished[..|finished| - 1], finished[|finished| - 1];
      assert finished == front + [last];
      OneErrorPerFailingManager(front, renders);
      FlattenMapNext(manager => Drained(manager, renders), front, last);
      ErrorsOfBoth(Stream(front, renders), Drained(last, renders));
      DrainedErrors(last, renders);
    }
  }

  // ---------- the regions of a block ----------

  /**
    Whatever the other workers do: when a manager's collection succeeds and its region stage is
    a report of its thread, every region the thread had recorded is in the manager's block.
   */
  lemma RecordedRegionsAreCollected(manager: Manager, start: State, schedule: seq<nat>, known: set<string>,
                                    t: nat, report: Report, code: string)
    requires Initial(start) && "global" in known && Schedule(schedule, |start.threads|) && t < |start.threads|
    requires report in Run(start, schedule, known).threads[t].reports && code in report.recorded
    requires FirstException(manager).None?
    requires manager.regions == Success(Map(c => Region(c), report.emitted))
    ensures Block(manager).Success? && Region(code) in Block(manager).value
  {
    EveryInterleavingKeepsTheRegistry(start, schedule, known);
    var end := Run(start, schedule, known);
    assert end.threads[t] in end.threads;
    assert ReportComplete(end.codes, report, known);
    var i :| 0 <= i < |report.emitted| && report.emitted[i] == code;
    assert manager.regions.value[i] == Region(code);
  }

  /** Each block stands in one piece: the stream goes on right after what came before it. */
  lemma BlocksAreContiguous(finished: seq<Manager>, renders: Response -> bool, k: nat)
    requires k < |finished|
    ensures Stream(finished[..k], renders) + Drained(finished[k], renders) <= Stream(finished, renders)
  {
    var drained := manager => Drained(manager, renders);
    FlattenPrefix(Map(drained, finished), k);
    assert Map(drained, finished)[..k] == Map(drained, finished[..k]);
  }

  lemma {:induction false} RenderedWhole(block: seq<Response>, renders: Response -> bool)
    requires forall r :: r in block ==> renders(r)
    ensures Rendered(block, renders) == block
  {
    RenderedUpTo(block, renders, |block|);
    TakeAll(block);
  }

  /**
    A manager that succeeds and whose responses can be rendered has all it gave in the stream,
    in one piece and in stage order, right behind the managers that finished before it.
   */
  lemma StagesReachTheStream(finished: seq<Manager>, renders: Response -> bool, k: nat)
    requires k < |finished|
    requires finished[k].types.stopped.None? && finished[k].service.Success? && finished[k].regions.Success?
    requires var m := finished[k];
             forall r :: r in m.types.yielded + m.service.value.0 + m.service.value.1 + m.regions.value ==> renders(r)
    ensures var m := finished[k];
            var stages := m.types.yielded + m.service.value.0 + m.service.value.1 + m.regions.value;
            && Stream(finished[..k], renders) + stages <= Stream(finished, renders)
            && (forall r :: r in stages ==> r in Stream(finished, renders))
  {
    var m := finished[k];
    var stages := m.types.yielded + m.service.value.0 + m.service.value.1 + m.regions.value;
    BlockByStage(m);
    RenderedWhole(stages, renders);
    BlocksAreContiguous(finished, renders, k);
    InPrefix(Stream(finished[..k], renders), stages, Stream(finished, renders));
  }

  lemma InPrefix(before: seq<Response>, stages: seq<Response>, stream: seq<Response>)
    requires before + stages <= stream
    ensures forall r :: r in stages ==> r in stream
  {
    forall r | r in stages
      ensures r in stream
    {
      var i :| 0 <= i < |stages| && stages[i] == r;
      assert stream[|before| + i] == (before + stages)[|before| + i] == r;
    }
  }

  // ---------- which managers run ----------

  function TypesOf(groups: seq<string>, groupMap: map<string, seq<string>>): seq<string>
  {
    if groups == [] then []
    else TypesOf(groups[..|groups| - 1], groupMap) +
         (if groups[|groups| - 1] in groupMap then groupMap[groups[|groups| - 1]] else [])
  }

  method CloudServiceGroupsToTypes(groups: seq<string>, groupMap: map<string, seq<string>>)
    returns (cloudServiceTypes: seq<string>)
    ensures cloudServiceTypes == TypesOf(groups, groupMap)
  {
    cloudServiceTypes := [];
    for i := 0 to |groups|
      invariant cloudServiceTypes == TypesOf(groups[..i], groupMap)
    {
      assert groups[..i + 1][..i] == groups[..i];
      if groups[i] in groupMap {
        cloudServiceTypes := cloudServiceTypes + groupMap[groups[i]];
      }
    }
    assert groups[..|groups|] == groups;
  }

  /** A manager runs exactly when one of the requested groups that exist names it. */
  lemma {:induction false} RequestedManagers(groups: seq<string>, groupMap: map<string, seq<string>>, name: string)
    ensures name in TypesOf(groups, groupMap) <==>
              exists g :: g in groups && g in groupMap && name in groupMap[g]
  {
    if groups != [] {
      var last, rest := groups[|groups| - 1], groups[..|groups| - 1];
      RequestedManagers(rest, groupMap, name);
      assert groups == rest + [last];
      assert forall g :: g in groups <==> g in rest || g == last;
    }
  }

  /** Request order: the managers of the first groups come first, and a group names its own in their order. */
  lemma {:induction false} ManagersInRequestOrder(a: seq<string>, b: seq<string>, groupMap: map<string, seq<string>>)
    ensures TypesOf(a + b, groupMap) == TypesOf(a, groupMap) + TypesOf(b, groupMap)
    ensures |a| == 1 && a[0] in groupMap ==> TypesOf(a, groupMap) == groupMap[a[0]]
  {
    if b == [] {
      assert a + b == a;
    } else {
      assert (a + b)[..|a + b| - 1] == a + b[..|b| - 1];
      ManagersInRequestOrder(a, b[..|b| - 1], groupMap);
    }
    if |a| == 1 {
      assert a[..0] == [];
      assert TypesOf([], groupMap) == [];
    }
  }
}
