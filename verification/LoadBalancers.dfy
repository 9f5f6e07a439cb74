/**
  The load balancers of a VM: HTTP backend services through its instance groups, forwarding
  rules through its target pools. The backend services and forwarding rules are shared by all
  VMs of a run and carry a `lb_info` entry that each VM's join overwrites.
 */
module LoadBalancers {
  import opened Basics
  import opened Text
  import opened Sequences
  import opened Pairing

  datatype UrlMap = UrlMap(name: string, defaultService: string)

  datatype TargetPool = TargetPool(name: string, selfLink: string, instances: seq<string>)

  /** A member without an `instance` key is None. */
  datatype InstanceGroup = InstanceGroup(instanceGroup: string, members: seq<Option<string>>)

  datatype Backend = Backend(selfLink: string, protocol: string, scheme: string, port: Option<int>, groups: seq<string>)

  datatype Rule = Rule(target: string, protocol: string, scheme: string, portRange: Option<string>)

  /** The fixed part of a backend service dictionary, and the entry the join writes. */
  class BackendService {
    const backend: Backend
    var lbInfo: Option<UrlMap>

    constructor (backend: Backend)
      ensures this.backend == backend && lbInfo == None
    {
      this.backend, lbInfo := backend, None;
    }
  }

  class ForwardingRule {
    const rule: Rule
    var lbInfo: Option<TargetPool>

    constructor (rule: Rule)
      ensures this.rule == rule && lbInfo == None
    {
      this.rule, lbInfo := rule, None;
    }
  }

  /** A port list, or the pieces of a range text with more than one dash. */
  datatype Ports = Numbers(ports: seq<int>) | Pieces(pieces: seq<string>)

  datatype LoadBalancer = LoadBalancer(kind: string, name: string, scheme: string, ports: Ports, protocols: seq<string>)

  /** What aborts a VM: a group without its link, a missing port range, a range that is no number. */
  datatype LbError = TypeError | AttributeError | ValueError

  // ---------- port ranges ----------

  function Range(low: int, high: int): (ports: seq<int>)
    ensures |ports| == if low <= high then high - low + 1 else 0
    ensures forall i :: 0 <= i < |ports| ==> ports[i] == low + i
  {
    seq(if low <= high then high - low + 1 else 0, i => low + i)
  }

  function GetPortRangesIntoArray(portRange: Option<string>): Result<Ports, LbError>
  {
    match portRange
    case None => Failure(AttributeError)
    case Some(text) =>
      if Find(text, "-") > 0 then
        var pieces := Split(text, '-');
        if |pieces| == 2 then
          match (ParseInt(pieces[0]), ParseInt(pieces[1]))
          case (Some(low), Some(high)) => Success(Numbers(Range(low, high)))
          case _ => Failure(ValueError)
        else Success(Pieces(pieces))
      else
        match ParseInt(text)
        case Some(port) => Success(Numbers([port]))
        case None => Failure(ValueError)
  }

  /** The range is every integer between its bounds, in increasing order. */
  lemma RangeIsExact(low: int, high: int)
    ensures forall port :: port in Range(low, high) <==> low <= port <= high
    ensures forall i, j :: 0 <= i < j < |Range(low, high)| ==> Range(low, high)[i] < Range(low, high)[j]
  {
    forall port | low <= port <= high
      ensures port in Range(low, high)
    {
      assert Range(low, high)[port - low] == port;
    }
  }

  lemma NoDashIn(a: string)
    requires forall c :: c in a ==> IsDigit(c)
    ensures '-' !in a
  {
  }

  lemma DashBehind(a: string, b: string)
    requires a != "" && '-' !in a
    ensures Find(a + "-" + b, "-") > 0
  {
    var text := a + "-" + b;
    assert OccursAt(text, "-", |a|);
    assert !OccursAt(text, "-", 0) by {
      assert text[0..1][0] == a[0] && a[0] in a;
    }
  }

  /** A printed range of two port numbers is the range of its bounds. */
  lemma PrintedRange(low: nat, high: nat)
    ensures GetPortRangesIntoArray(Some(NatText(low) + "-" + NatText(high))) == Success(Numbers(Range(low, high)))
  {
    var a, b := NatText(low), NatText(high);
    var text := a + "-" + b;
    NoDashIn(a);
    NoDashIn(b);
    SplitFirst(a, '-', b);
    SplitWithout(b, '-');
    assert text == a + ['-'] + b;
    ParseIntOfIntText(low);
    ParseIntOfIntText(high);
    DashBehind(a, b);
  }

  lemma NoDashFound(a: string)
    requires '-' !in a
    ensures Find(a, "-") <= 0
  {
    assert forall i :: 0 <= i < |a| ==> a[i..i + 1][0] == a[i] && a[i] in a;
  }

  /** A printed single port is itself. */
  lemma PrintedPort(port: nat)
    ensures GetPortRangesIntoArray(Some(NatText(port))) == Success(Numbers([port]))
  {
    var a := NatText(port);
    NoDashIn(a);
    ParseIntOfIntText(port);
    NoDashFound(a);
  }

  // ---------- the joins ----------

  /** The group's link from "/projects/" on; without it the last character; None when empty. */
  function GetMatchingStr(link: string): Option<string>
  {
    if link == "" then None
    else
      var i := Find(link, "/projects/");
      Some(if i >= 0 then link[i..] else link[|link| - 1..])
  }

  function SelectUrlMap(selfLink: string, urlMaps: seq<UrlMap>): Option<UrlMap>
  {
    if urlMaps == [] then None
    else if urlMaps[0].defaultService == selfLink then Some(urlMaps[0])
    else SelectUrlMap(selfLink, urlMaps[1..])
  }

  method GetLbNameFromBackendSvc(selfLink: string, urlMaps: seq<UrlMap>) returns (selected: Option<UrlMap>)
    ensures selected == SelectUrlMap(selfLink, urlMaps)
  {
    selected := None;
    for i := 0 to |urlMaps|
      invariant selected == None && SelectUrlMap(selfLink, urlMaps) == SelectUrlMap(selfLink, urlMaps[i..])
    {
      if selfLink == urlMaps[i].defaultService {
        selected := Some(urlMaps[i]);
        break;
      }
      assert urlMaps[i..][1..] == urlMaps[i + 1..];
    }
  }

  /** A backend service that is looked at: an HTTP service behind a URL map. */
  predicate Candidate(backend: Backend, urlMaps: seq<UrlMap>)
  {
    (backend.protocol == "HTTP" || backend.protocol == "HTTPS") && SelectUrlMap(backend.selfLink, urlMaps).Some?
  }

  predicate HoldsGroup(backend: Backend, key: string)
  {
    exists i :: 0 <= i < |backend.groups| && Contains(backend.groups[i], key)
  }

  /** The search for an absent key fails as soon as there is a group to search in. */
  function BackendMatches(backend: Backend, key: Option<string>, urlMaps: seq<UrlMap>): Result<bool, LbError>
  {
    if !Candidate(backend, urlMaps) || backend.groups == [] then Success(false)
    else match key
         case None => Failure(TypeError)
         case Some(text) => Success(HoldsGroup(backend, text))
  }

  function BackendLb(backend: Backend, urlMap: UrlMap): LoadBalancer
  {
    LoadBalancer(backend.protocol, urlMap.name, backend.scheme,
                 Numbers(if backend.port.Some? then [backend.port.value] else []),
                 if backend.protocol != "" then [backend.protocol] else [])
  }

  /** The load balancers one instance group contributes. */
  function GroupLbs(key: Option<string>, backends: seq<Backend>, urlMaps: seq<UrlMap>): Result<seq<LoadBalancer>, LbError>
  {
    if backends == [] then Success([])
    else
      var last := backends[|backends| - 1];
      match GroupLbs(key, backends[..|backends| - 1], urlMaps)
      case Failure(e) => Failure(e)
      case Success(lbs) =>
        match BackendMatches(last, key, urlMaps)
        case Failure(e) => Failure(e)
        case Success(false) => Success(lbs)
        case Success(true) => Success(lbs + [BackendLb(last, SelectUrlMap(last.selfLink, urlMaps).value)])
  }

  predicate HasMember(group: InstanceGroup, selfLink: string)
  {
    Some(selfLink) in group.members
  }

  function MatchedGroups(selfLink: string, groups: seq<InstanceGroup>): seq<InstanceGroup>
  {
    if groups == [] then []
    else MatchedGroups(selfLink, groups[..|groups| - 1]) +
         (if HasMember(groups[|groups| - 1], selfLink) then [groups[|groups| - 1]] else [])
  }

  function AllGroupLbs(groups: seq<InstanceGroup>, backends: seq<Backend>, urlMaps: seq<UrlMap>): Result<seq<LoadBalancer>, LbError>
  {
    if groups == [] then Success([])
    else
      match AllGroupLbs(groups[..|groups| - 1], backends, urlMaps)
      case Failure(e) => Failure(e)
      case Success(lbs) =>
        match GroupLbs(GetMatchingStr(groups[|groups| - 1].instanceGroup), backends, urlMaps)
        case Failure(e) => Failure(e)
        case Success(more) => Success(lbs + more)
  }

  predicate InPool(pool: TargetPool, selfLink: string)
  {
    exists i :: 0 <= i < |pool.instances| && Contains(pool.instances[i], selfLink)
  }

  function MatchedPools(selfLink: string, pools: seq<TargetPool>): seq<TargetPool>
  {
    if pools == [] then []
    else MatchedPools(selfLink, pools[..|pools| - 1]) +
         (if InPool(pools[|pools| - 1], selfLink) then [pools[|pools| - 1]] else [])
  }

  /** The pool whose entry survives in a rule's `lb_info`: the last one the rule targets. */
  function LastPool(pools: seq<TargetPool>, target: string): Option<TargetPool>
  {
    if pools == [] then None
    else if pools[|pools| - 1].selfLink == target then Some(pools[|pools| - 1])
    else LastPool(pools[..|pools| - 1], target)
  }

  function RulesTargeting(target: string, rules: seq<Rule>): seq<Rule>
  {
    if rules == [] then []
    else RulesTargeting(target, rules[..|rules| - 1]) +
         (if rules[|rules| - 1].target == target then [rules[|rules| - 1]] else [])
  }

  /** Pool by pool, the rules that target it. */
  function MatchedRules(pools: seq<TargetPool>, rules: seq<Rule>): seq<Rule>
  {
    if pools == [] then []
    else MatchedRules(pools[..|pools| - 1], rules) + RulesTargeting(pools[|pools| - 1].selfLink, rules)
  }

  function PoolLb(rule: Rule, poolName: string): Result<LoadBalancer, LbError>
  {
    match GetPortRangesIntoArray(rule.portRange)
    case Failure(e) => Failure(e)
    case Success(ports) =>
      Success(LoadBalancer(rule.protocol, poolName, rule.scheme, ports, if rule.protocol != "" then [rule.protocol] else []))
  }

  /** The name shown for a rule: that of the last matched pool it targets. */
  function ShownPool(pools: seq<TargetPool>, rule: Rule): string
  {
    match LastPool(pools, rule.target)
    case Some(pool) => pool.name
    case None => ""
  }

  function RuleLbs(matched: seq<Rule>, pools: seq<TargetPool>): Result<seq<LoadBalancer>, LbError>
  {
    if matched == [] then Success([])
    else
      var last := matched[|matched| - 1];
      match RuleLbs(matched[..|matched| - 1], pools)
      case Failure(e) => Failure(e)
      case Success(lbs) =>
        match PoolLb(last, ShownPool(pools, last))
        case Failure(e) => Failure(e)
        case Success(lb) => Success(lbs + [lb])
  }

  /** Everything the join of one VM reads; the `lb_info` entries are not among it. */
  datatype Environment = Environment(
    groups: seq<InstanceGroup>,
    backends: seq<Backend>,
    urlMaps: seq<UrlMap>,
    pools: seq<TargetPool>,
    rules: seq<Rule>)

  function LbsOfGroups(selfLink: string, groups: seq<InstanceGroup>, backends: seq<Backend>, urlMaps: seq<UrlMap>)
    : Result<seq<LoadBalancer>, LbError>
  {
    AllGroupLbs(MatchedGroups(selfLink, groups), backends, urlMaps)
  }

  function LbsOfPools(selfLink: string, pools: seq<TargetPool>, rules: seq<Rule>): Result<seq<LoadBalancer>, LbError>
  {
    var matched := MatchedPools(selfLink, pools);
    RuleLbs(MatchedRules(matched, rules), matched)
  }

  /** Both parts; the first failure aborts the VM. */
  function Combined(byGroups: Result<seq<LoadBalancer>, LbError>, byPools: Result<seq<LoadBalancer>, LbError>)
    : Result<seq<LoadBalancer>, LbError>
  {
    if byGroups.Failure? then byGroups
    else if byPools.Failure? then byPools
    else Success(byGroups.value + byPools.value)
  }

  /** The load balancers of one VM as a value of what it reads. */
  function LoadBalancersOf(selfLink: string, env: Environment): Result<seq<LoadBalancer>, LbError>
  {
    Combined(LbsOfGroups(selfLink, env.groups, env.backends, env.urlMaps),
             LbsOfPools(selfLink, env.pools, env.rules))
  }

  // ---------- the same, in place ----------

  function BackendsOf(services: seq<BackendService>): (backends: seq<Backend>)
    ensures |backends| == |services|
    ensures forall i :: 0 <= i < |services| ==> backends[i] == services[i].backend
  {
    seq(|services|, i requires 0 <= i < |services| => services[i].backend)
  }

  function RulesOf(rules: seq<ForwardingRule>): (plain: seq<Rule>)
    ensures |plain| == |rules|
    ensures forall i :: 0 <= i < |rules| ==> plain[i] == rules[i].rule
  {
    seq(|rules|, i requires 0 <= i < |rules| => rules[i].rule)
  }

  method GetMatchedInstanceGroup(selfLink: string, groups: seq<InstanceGroup>) returns (matched: seq<InstanceGroup>)
    ensures matched == MatchedGroups(selfLink, groups)
  {
    matched := [];
    for i := 0 to |groups|
      invariant matched == MatchedGroups(selfLink, groups[..i])
    {
      assert groups[..i + 1][..i] == groups[..i];
      var found := false;
      for j := 0 to |groups[i].members|
        invariant !found && Some(selfLink) !in groups[i].members[..j]
      {
        if Some(selfLink) == groups[i].members[j] {
          found := true;
          matched := matched + [groups[i]];
          break;
        }
      }
      assert !found ==> groups[i].members[..|groups[i].members|] == groups[i].members;
    }
    assert groups[..|groups|] == groups;
  }

  /** Does one of the backends name the group? A substring test, as in the source. */
  method SearchGroups(backend: Backend, key: Option<string>) returns (r: Result<bool, LbError>)
    ensures r == if backend.groups == [] then Success(false)
                 else match key
                      case None => Failure(TypeError)
                      case Some(text) => Success(HoldsGroup(backend, text))
  {
    for j := 0 to |backend.groups|
      invariant j > 0 ==> key.Some?
      invariant key.Some? ==> forall k :: 0 <= k < j ==> !Contains(backend.groups[k], key.value)
    {
      if key.None? {
        return Failure(TypeError);
      }
      if Contains(backend.groups[j], key.value) {
        return Success(true);
      }
    }
    r := Success(false);
  }

  // A failure in a prefix is the failure of the whole.

  lemma {:induction false} GroupLbsFailEarly(key: Option<string>, backends: seq<Backend>, urlMaps: seq<UrlMap>, i: nat)
    requires i <= |backends| && GroupLbs(key, backends[..i], urlMaps).Failure?
    ensures GroupLbs(key, backends, urlMaps) == GroupLbs(key, backends[..i], urlMaps)
  {
    if i < |backends| {
      assert backends[..|backends| - 1][..i] == backends[..i];
      GroupLbsFailEarly(key, backends[..|backends| - 1], urlMaps, i);
    } else {
      assert backends[..i] == backends;
    }
  }

  lemma {:induction false} AllGroupLbsFailEarly(groups: seq<InstanceGroup>, backends: seq<Backend>, urlMaps: seq<UrlMap>, i: nat)
    requires i <= |groups| && AllGroupLbs(groups[..i], backends, urlMaps).Failure?
    ensures AllGroupLbs(groups, backends, urlMaps) == AllGroupLbs(groups[..i], backends, urlMaps)
  {
    if i < |groups| {
      assert groups[..|groups| - 1][..i] == groups[..i];
      AllGroupLbsFailEarly(groups[..|groups| - 1], backends, urlMaps, i);
    } else {
      assert groups[..i] == groups;
    }
  }

  lemma {:induction false} RuleLbsFailEarly(matched: seq<Rule>, pools: seq<TargetPool>, i: nat)
    requires i <= |matched| && RuleLbs(matched[..i], pools).Failure?
    ensures RuleLbs(matched, pools) == RuleLbs(matched[..i], pools)
  {
    if i < |matched| {
      assert matched[..|matched| - 1][..i] == matched[..i];
      RuleLbsFailEarly(matched[..|matched| - 1], pools, i);
    } else {
      assert matched[..i] == matched;
    }
  }

  /** The entry of a service that is looked at. */
  ghost predicate IsLbOf(lb: LoadBalancer, backend: Backend, urlMaps: seq<UrlMap>)
  {
    SelectUrlMap(backend.selfLink, urlMaps).Some? && lb == BackendLb(backend, SelectUrlMap(backend.selfLink, urlMaps).value)
  }

  /** The services among which the group is found, in order. */
  function MatchedServices(services: seq<BackendService>, key: Option<string>, urlMaps: seq<UrlMap>): seq<BackendService>
  {
    if services == [] then []
    else
      var last := services[|services| - 1];
      MatchedServices(services[..|services| - 1], key, urlMaps) +
      (if BackendMatches(last.backend, key, urlMaps) == Success(true) then [last] else [])
  }

  /** The services carry the URL map that their own link selects. */
  ghost predicate Carry(services: seq<BackendService>, urlMaps: seq<UrlMap>)
    reads services
  {
    forall s :: s in services ==> s.lbInfo.Some? && s.lbInfo == SelectUrlMap(s.backend.selfLink, urlMaps)
  }

  /** The load balancers of a group are those of its matching services. */
  lemma {:induction false} MatchedServicesLbs(services: seq<BackendService>, key: Option<string>, urlMaps: seq<UrlMap>)
    requires GroupLbs(key, BackendsOf(services), urlMaps).Success?
    ensures var lbs, matched := GroupLbs(key, BackendsOf(services), urlMaps).value, MatchedServices(services, key, urlMaps);
            && |lbs| == |matched|
            && forall k :: 0 <= k < |lbs| ==> IsLbOf(lbs[k], matched[k].backend, urlMaps)
  {
    if services != [] {
      var front := services[..|services| - 1];
      assert BackendsOf(services)[..|services| - 1] == BackendsOf(front);
      MatchedServicesLbs(front, key, urlMaps);
    }
  }

  /** One service of the search: a match carries its URL map from here on. */
  method MatchBackendSvc(service: BackendService, key: Option<string>, urlMaps: seq<UrlMap>)
    returns (hit: Result<bool, LbError>)
    modifies service
    ensures hit == BackendMatches(service.backend, key, urlMaps)
    ensures service.lbInfo == if hit == Success(true) then SelectUrlMap(service.backend.selfLink, urlMaps)
                              else old(service.lbInfo)
  {
    hit := Success(false);
    var selected := GetLbNameFromBackendSvc(service.backend.selfLink, urlMaps);
    if (service.backend.protocol == "HTTP" || service.backend.protocol == "HTTPS") && selected.Some? {
      hit := SearchGroups(service.backend, key);
      if hit == Success(true) {
        service.lbInfo := selected;
      }
    }
  }

  /** Writes the URL map into each matching service and returns exactly those services, in order. */
  method GetMatchedBackendSvcForHttp(group: InstanceGroup, services: seq<BackendService>, urlMaps: seq<UrlMap>)
    returns (matched: Result<seq<BackendService>, LbError>)
    modifies services
    ensures match GroupLbs(GetMatchingStr(group.instanceGroup), BackendsOf(services), urlMaps)
            case Failure(e) => matched == Failure(e)
            case Success(_) =>
              && matched == Success(MatchedServices(services, GetMatchingStr(group.instanceGroup), urlMaps))
              && Carry(matched.value, urlMaps)
  {
    var found: seq<BackendService> := [];
    var key := GetMatchingStr(group.instanceGroup);
    ghost var backends := BackendsOf(services);
    for i := 0 to |services|
      invariant forall s :: s in found ==> s in services
      invariant GroupLbs(key, backends[..i], urlMaps).Success?
      invariant found == MatchedServices(services[..i], key, urlMaps)
      invariant Carry(found, urlMaps)
    {
      var service := services[i];
      assert backends[..i + 1][..i] == backends[..i] && backends[i] == service.backend;
      assert services[..i + 1][..i] == services[..i];
      var hit := MatchBackendSvc(service, key, urlMaps);
      match hit {
        case Failure(e) =>
          GroupLbsFailEarly(key, backends, urlMaps, i + 1);
          return Failure(e);
        case Success(holds) =>
          if holds {
            found := found + [service];
          }
      }
    }
    TakeAll(backends);
    TakeAll(services);
    matched := Success(found);
  }

  method GetMatchedTargetPool(selfLink: string, pools: seq<TargetPool>) returns (matched: seq<TargetPool>)
    ensures matched == MatchedPools(selfLink, pools)
  {
    matched := [];
    for i := 0 to |pools|
      invariant matched == MatchedPools(selfLink, pools[..i])
    {
      assert pools[..i + 1][..i] == pools[..i];
      if InPool(pools[i], selfLink) {
        matched := matched + [pools[i]];
      }
    }
    assert pools[..|pools|] == pools;
  }

  lemma RulesTargetingNext(target: string, rules: seq<Rule>, j: nat)
    requires j < |rules|
    ensures RulesTargeting(target, rules[..j + 1]) ==
              RulesTargeting(target, rules[..j]) + (if rules[j].target == target then [rules[j]] else [])
  {
    assert rules[..j + 1][..j] == rules[..j];
  }

  lemma RulesOfNext(rules: seq<ForwardingRule>, rule: ForwardingRule)
    ensures RulesOf(rules + [rule]) == RulesOf(rules) + [rule.rule]
  {
  }

  /** Writes one pool into the rules that target it and returns those rules. */
  method MatchRulesOfPool(pool: TargetPool, rules: seq<ForwardingRule>) returns (matched: seq<ForwardingRule>)
    modifies rules
    ensures RulesOf(matched) == RulesTargeting(pool.selfLink, RulesOf(rules))
    ensures forall m :: m in matched ==> m in rules && m.rule.target == pool.selfLink
    ensures forall r :: r in rules ==>
              r.lbInfo == if r.rule.target == pool.selfLink then Some(pool) else old(r.lbInfo)
  {
    matched := [];
    ghost var plain := RulesOf(rules);
    for j := 0 to |rules|
      invariant RulesOf(matched) == RulesTargeting(pool.selfLink, plain[..j])
      invariant forall m :: m in matched ==> m in rules && m.rule.target == pool.selfLink
      invariant forall i :: 0 <= i < j && rules[i].rule.target == pool.selfLink ==> rules[i].lbInfo == Some(pool)
      invariant forall r :: r in rules && r.rule.target != pool.selfLink ==> r.lbInfo == old(r.lbInfo)
    {
      RulesTargetingNext(pool.selfLink, plain, j);
      if pool.selfLink == rules[j].rule.target {
        rules[j].lbInfo := Some(pool);
        RulesOfNext(matched, rules[j]);
        matched := matched + [rules[j]];
      }
    }
    assert plain[..|rules|] == plain;
  }

  /** Every rule that one of the pools is targeted by carries the last such pool. */
  ghost predicate CarriesLastPool(pools: seq<TargetPool>, rules: seq<ForwardingRule>)
    reads rules
  {
    forall r :: r in rules && LastPool(pools, r.rule.target).Some? ==> r.lbInfo == LastPool(pools, r.rule.target)
  }

  ghost predicate Targeted(pools: seq<TargetPool>, matched: seq<ForwardingRule>, rules: seq<ForwardingRule>)
  {
    forall m :: m in matched ==> m in rules && LastPool(pools, m.rule.target).Some?
  }

  lemma LastPoolStep(pools: seq<TargetPool>, p: nat, target: string)
    requires p < |pools|
    ensures LastPool(pools[..p + 1], target) ==
              if pools[p].selfLink == target then Some(pools[p]) else LastPool(pools[..p], target)
  {
    assert pools[..p + 1][..p] == pools[..p];
  }

  lemma TargetedStep(pools: seq<TargetPool>, p: nat, matched: seq<ForwardingRule>, ofPool: seq<ForwardingRule>, rules: seq<ForwardingRule>)
    requires p < |pools| && Targeted(pools[..p], matched, rules)
    requires forall m :: m in ofPool ==> m in rules && m.rule.target == pools[p].selfLink
    ensures Targeted(pools[..p + 1], matched + ofPool, rules)
  {
    forall m | m in matched + ofPool
      ensures m in rules && LastPool(pools[..p + 1], m.rule.target).Some?
    {
      LastPoolStep(pools, p, m.rule.target);
    }
  }

  lemma MatchedRulesStep(pools: seq<TargetPool>, p: nat, rules: seq<Rule>)
    requires p < |pools|
    ensures MatchedRules(pools[..p + 1], rules) ==
              MatchedRules(pools[..p], rules) + RulesTargeting(pools[p].selfLink, rules)
  {
    assert pools[..p + 1][..p] == pools[..p];
  }

  lemma RulesOfAppend(a: seq<ForwardingRule>, b: seq<ForwardingRule>)
    ensures RulesOf(a + b) == RulesOf(a) + RulesOf(b)
  {
  }

  /** Pool by pool; a rule that several pools share keeps the entry of the last one. */
  method GetMatchedForwardingRules(pools: seq<TargetPool>, rules: seq<ForwardingRule>) returns (matched: seq<ForwardingRule>)
    modifies rules
    ensures RulesOf(matched) == MatchedRules(pools, RulesOf(rules))
    ensures Targeted(pools, matched, rules) && CarriesLastPool(pools, rules)
  {
    matched := [];
    ghost var plain := RulesOf(rules);
    for p := 0 to |pools|
      invariant RulesOf(matched) == MatchedRules(pools[..p], plain)
      invariant Targeted(pools[..p], matched, rules) && CarriesLastPool(pools[..p], rules)
    {
      var ofPool := MatchRulesOfPool(pools[p], rules);
      MatchedRulesStep(pools, p, plain);
      TargetedStep(pools, p, matched, ofPool, rules);
      assert CarriesLastPool(pools[..p + 1], rules) by {
        forall r | r in rules
          ensures LastPool(pools[..p + 1], r.rule.target).Some? ==> r.lbInfo == LastPool(pools[..p + 1], r.rule.target)
        {
          LastPoolStep(pools, p, r.rule.target);
        }
      }
      RulesOfAppend(matched, ofPool);
      matched := matched + ofPool;
    }
    assert pools[..|pools|] == pools;
  }

  // ---------- one VM, and all VMs over the same dictionaries ----------

  function EnvironmentOf(groups: seq<InstanceGroup>, services: seq<BackendService>, urlMaps: seq<UrlMap>,
                         pools: seq<TargetPool>, rules: seq<ForwardingRule>): Environment
  {
    Environment(groups, BackendsOf(services), urlMaps, pools, RulesOf(rules))
  }

  method BuildBackendLbs(infos: seq<BackendService>, ghost urlMaps: seq<UrlMap>, ghost lbs: seq<LoadBalancer>)
    returns (list: seq<LoadBalancer>)
    requires Carry(infos, urlMaps) && |lbs| == |infos|
    requires forall k :: 0 <= k < |lbs| ==> IsLbOf(lbs[k], infos[k].backend, urlMaps)
    ensures list == lbs
  {
    list := [];
    for k := 0 to |infos|
      invariant list == lbs[..k]
    {
      var lbInfo := infos[k].lbInfo;
      list := list + [BackendLb(infos[k].backend, lbInfo.value)];
    }
  }

  method LbsByGroups(selfLink: string, groups: seq<InstanceGroup>, services: seq<BackendService>, urlMaps: seq<UrlMap>)
    returns (r: Result<seq<LoadBalancer>, LbError>)
    modifies services
    ensures r == LbsOfGroups(selfLink, groups, BackendsOf(services), urlMaps)
  {
    var list: seq<LoadBalancer> := [];
    var backends := BackendsOf(services);
    var matchedGroups := GetMatchedInstanceGroup(selfLink, groups);
    for i := 0 to |matchedGroups|
      invariant AllGroupLbs(matchedGroups[..i], backends, urlMaps) == Success(list)
    {
      assert matchedGroups[..i + 1][..i] == matchedGroups[..i];
      var matched := GetMatchedBackendSvcForHttp(matchedGroups[i], services, urlMaps);
      match matched {
        case Failure(e) =>
          AllGroupLbsFailEarly(matchedGroups, backends, urlMaps, i + 1);
          return Failure(e);
        case Success(infos) =>
          ghost var lbs := GroupLbs(GetMatchingStr(matchedGroups[i].instanceGroup), backends, urlMaps).value;
          MatchedServicesLbs(services, GetMatchingStr(matchedGroups[i].instanceGroup), urlMaps);
          var more := BuildBackendLbs(infos, urlMaps, lbs);
          list := list + more;
      }
    }
    assert matchedGroups[..|matchedGroups|] == matchedGroups;
    r := Success(list);
  }

  method BuildRuleLbs(matched: seq<ForwardingRule>, ghost pools: seq<TargetPool>, ghost rules: seq<ForwardingRule>)
    returns (r: Result<seq<LoadBalancer>, LbError>)
    requires Targeted(pools, matched, rules) && CarriesLastPool(pools, rules)
    ensures r == RuleLbs(RulesOf(matched), pools)
  {
    var list: seq<LoadBalancer> := [];
    ghost var plain := RulesOf(matched);
    for k := 0 to |matched|
      invariant RuleLbs(plain[..k], pools) == Success(list)
    {
      var rule := matched[k];
      assert rule in matched;
      assert plain[..k + 1][..k] == plain[..k] && plain[k] == rule.rule;
      var lb := PoolLb(rule.rule, rule.lbInfo.value.name);
      match lb {
        case Failure(e) =>
          RuleLbsFailEarly(plain, pools, k + 1);
          return Failure(e);
        case Success(value) =>
          list := list + [value];
      }
    }
    assert plain[..|matched|] == plain;
    r := Success(list);
  }

  method LbsByPools(selfLink: string, pools: seq<TargetPool>, rules: seq<ForwardingRule>)
    returns (r: Result<seq<LoadBalancer>, LbError>)
    modifies rules
    ensures r == LbsOfPools(selfLink, pools, RulesOf(rules))
  {
    var matchedPools := GetMatchedTargetPool(selfLink, pools);
    if matchedPools == [] {
      return Success([]);
    }
    var matched := GetMatchedForwardingRules(matchedPools, rules);
    r := BuildRuleLbs(matched, matchedPools, rules);
  }

  /** The join of one VM. Its result says nothing about the `lb_info` entries it found or left. */
  method GetLoadbalancerInfo(selfLink: string, groups: seq<InstanceGroup>, services: seq<BackendService>,
                             urlMaps: seq<UrlMap>, pools: seq<TargetPool>, rules: seq<ForwardingRule>)
    returns (r: Result<seq<LoadBalancer>, LbError>)
    modifies services, rules
    ensures r == LoadBalancersOf(selfLink, EnvironmentOf(groups, services, urlMaps, pools, rules))
  {
    var byGroups := LbsByGroups(selfLink, groups, services, urlMaps);
    match byGroups {
      case Failure(e) => r := Failure(e);
      case Success(first) =>
        var byPools := LbsByPools(selfLink, pools, rules);
        match byPools {
          case Failure(e) => r := Failure(e);
          case Success(second) => r := Success(first + second);
        }
    }
  }

  /** The value of every VM, each on its own. */
  function ValuesOf(vms: seq<string>, env: Environment): seq<Result<seq<LoadBalancer>, LbError>>
  {
    Map(vm => LoadBalancersOf(vm, env), vms)
  }

  method ServeVm(vms: seq<string>, i: nat, groups: seq<InstanceGroup>, services: seq<BackendService>,
                 urlMaps: seq<UrlMap>, pools: seq<TargetPool>, rules: seq<ForwardingRule>)
    returns (r: Result<seq<LoadBalancer>, LbError>)
    requires i < |vms|
    modifies services, rules
    ensures r == ValuesOf(vms, EnvironmentOf(groups, services, urlMaps, pools, rules))[i]
  {
    r := GetLoadbalancerInfo(vms[i], groups, services, urlMaps, pools, rules);
  }

  /**
    The VM loop over the shared dictionaries. Each VM gets the value that it alone determines, at
    its own place: in whatever order the VMs come, neither the others nor their failures matter to it.
   */
  method CollectLoadBalancers(vms: seq<string>, groups: seq<InstanceGroup>, services: seq<BackendService>,
                              urlMaps: seq<UrlMap>, pools: seq<TargetPool>, rules: seq<ForwardingRule>)
    returns (results: seq<Result<seq<LoadBalancer>, LbError>>)
    modifies services, rules
    ensures results == ValuesOf(vms, EnvironmentOf(groups, services, urlMaps, pools, rules))
  {
    results := [];
    ghost var values := ValuesOf(vms, EnvironmentOf(groups, services, urlMaps, pools, rules));
    for i := 0 to |vms|
      invariant results == values[..i]
    {
      var r := ServeVm(vms, i, groups, services, urlMaps, pools, rules);
      TakeNext(values, i);
      results := results + [r];
    }
    TakeAll(values);
  }

  // ---------- what the target-pool entries say ----------

  predicate Targets(pools: seq<TargetPool>, rules: seq<Rule>, p: nat, r: nat)
  {
    p < |pools| && r < |rules| && pools[p].selfLink == rules[r].target
  }

  function Targeting(pools: seq<TargetPool>, rules: seq<Rule>): (nat, nat) -> bool
  {
    (p: nat, r: nat) => Targets(pools, rules, p, r)
  }

  /** The matching pools and rules, by position. */
  function PoolPairs(pools: seq<TargetPool>, rules: seq<Rule>): (pairs: seq<Pair>)
    ensures Bounded(pairs, |pools|, |rules|)
  {
    var hit := Targeting(pools, rules);
    PairsSound(|pools|, |rules|, hit);
    Pairs(|pools|, |rules|, hit)
  }

  /** One entry per matching pool and rule, in the order of pools, then rules. */
  lemma PairsExact(pools: seq<TargetPool>, rules: seq<Rule>)
    ensures forall pair :: pair in PoolPairs(pools, rules) <==> Targets(pools, rules, pair.first, pair.second)
    ensures Ordered(PoolPairs(pools, rules))
  {
    var hit := Targeting(pools, rules);
    PairsOrdered(|pools|, |rules|, hit);
    forall pair
      ensures pair in PoolPairs(pools, rules) <==> Targets(pools, rules, pair.first, pair.second)
    {
      PairsMember(|pools|, |rules|, hit, pair);
    }
  }

  lemma {:induction false} LastPoolExact(pools: seq<TargetPool>, target: string)
    ensures LastPool(pools, target).None? <==> forall p :: 0 <= p < |pools| ==> pools[p].selfLink != target
    ensures LastPool(pools, target).Some? ==>
              exists p :: 0 <= p < |pools| && pools[p] == LastPool(pools, target).value && pools[p].selfLink == target
                          && forall q :: p < q < |pools| ==> pools[q].selfLink != target
  {
    if pools != [] {
      LastPoolExact(pools[..|pools| - 1], target);
    }
  }

  /** When the join succeeds it has one entry per matching pair, made from the pair's rule. */
  lemma {:induction false} RuleLbsAt(matched: seq<Rule>, pools: seq<TargetPool>, k: nat)
    requires RuleLbs(matched, pools).Success? && k < |matched|
    ensures |RuleLbs(matched, pools).value| == |matched|
    ensures PoolLb(matched[k], ShownPool(pools, matched[k])) == Success(RuleLbs(matched, pools).value[k])
  {
    var front, last := matched[..|matched| - 1], matched[|matched| - 1];
    var before := RuleLbs(front, pools).value;
    assert RuleLbs(matched, pools).value == before + [PoolLb(last, ShownPool(pools, last)).value];
    if front == [] {
      assert before == [];
    } else if k < |front| {
      RuleLbsAt(front, pools, k);
    } else {
      RuleLbsAt(front, pools, 0);
    }
  }

  /** It succeeds exactly when every matched rule has a port range that can be read. */
  lemma {:induction false} RuleLbsSucceed(matched: seq<Rule>, pools: seq<TargetPool>)
    ensures RuleLbs(matched, pools).Success? <==>
              forall r :: r in matched ==> GetPortRangesIntoArray(r.portRange).Success?
  {
    if matched != [] {
      var front, last := matched[..|matched| - 1], matched[|matched| - 1];
      assert forall r :: r in matched <==> r in front || r == last;
      RuleLbsSucceed(front, pools);
    }
  }

  /** The name an entry shows is that of the pool of its own pair. */
  predicate ShowsOwnPool(pools: seq<TargetPool>, rules: seq<Rule>, pair: Pair)
    requires pair.first < |pools| && pair.second < |rules|
  {
    ShownPool(pools, rules[pair.second]) == pools[pair.first].name
  }

  /** Pools that one rule targets together have the same name. */
  ghost predicate SharedNames(pools: seq<TargetPool>, rules: seq<Rule>)
  {
    forall p: nat, q: nat, r: nat :: Targets(pools, rules, p, r) && Targets(pools, rules, q, r) ==> pools[p].name == pools[q].name
  }

  /**
    Every entry shows the name of its own pool exactly when pools that one rule targets
    together have the same name.
   */
  lemma EntriesNameTheirOwnPool(pools: seq<TargetPool>, rules: seq<Rule>)
    ensures (forall k :: 0 <= k < |PoolPairs(pools, rules)| ==> ShowsOwnPool(pools, rules, PoolPairs(pools, rules)[k]))
       <==> SharedNames(pools, rules)
  {
    var pairs := PoolPairs(pools, rules);
    PairsExact(pools, rules);
    if forall k :: 0 <= k < |pairs| ==> ShowsOwnPool(pools, rules, pairs[k]) {
      forall p: nat, q: nat, r: nat | Targets(pools, rules, p, r) && Targets(pools, rules, q, r)
        ensures pools[p].name == pools[q].name
      {
        assert Pair(p, r) in pairs && Pair(q, r) in pairs;
      }
    } else {
      var k :| 0 <= k < |pairs| && !ShowsOwnPool(pools, rules, pairs[k]);
      assert pairs[k] in pairs;
      var rule := rules[pairs[k].second];
      LastPoolExact(pools, rule.target);
      assert pools[pairs[k].first].selfLink == rule.target;
      var q: nat :| q < |pools| && pools[q] == LastPool(pools, rule.target).value && pools[q].selfLink == rule.target;
      assert Targets(pools, rules, q, pairs[k].second);
    }
  }

  /** Pools with links of their own always show their own names. */
  lemma OwnLinksShowOwnNames(pools: seq<TargetPool>, rules: seq<Rule>)
    requires forall p, q :: 0 <= p < q < |pools| ==> pools[p].selfLink != pools[q].selfLink
    ensures forall k :: 0 <= k < |PoolPairs(pools, rules)| ==> ShowsOwnPool(pools, rules, PoolPairs(pools, rules)[k])
  {
    forall p: nat, q: nat, r: nat | Targets(pools, rules, p, r) && Targets(pools, rules, q, r)
      ensures p == q
    {
    }
    EntriesNameTheirOwnPool(pools, rules);
  }

  lemma TwiceTheSame(rule: Rule, pools: seq<TargetPool>, lb: LoadBalancer)
    requires PoolLb(rule, ShownPool(pools, rule)) == Success(lb)
    ensures RuleLbs([rule, rule], pools) == Success([lb, lb])
  {
    var one, both := [rule], [rule, rule];
    assert one[..|one| - 1] == [];
    assert RuleLbs([], pools) == Success([]);
    assert RuleLbs(one, pools) == Success([] + [lb]);
    assert [] + [lb] == [lb];
    assert both[..|both| - 1] == one;
    assert RuleLbs(both, pools) == Success([lb] + [lb]);
    assert [lb] + [lb] == [lb, lb];
  }

  lemma BothPoolsMatch(vm: string, blue: TargetPool, green: TargetPool)
    requires blue.instances == [vm] && green.instances == [vm]
    ensures MatchedPools(vm, [blue, green]) == [blue, green]
  {
    assert OccursAt(vm, vm, 0);
    ContainsAt(vm, vm, 0);
    assert InPool(blue, vm) && InPool(green, vm) by {
      assert blue.instances[0] == vm && green.instances[0] == vm;
    }
    var pools := [blue, green];
    assert [blue][..0] == [] && pools[..1] == [blue];
    assert MatchedPools(vm, [blue]) == [blue];
  }

  lemma OneRuleForBoth(blue: TargetPool, green: TargetPool, rule: Rule)
    requires blue.selfLink == green.selfLink == rule.target
    ensures MatchedRules([blue, green], [rule]) == [rule, rule]
  {
    var pools, rules := [blue, green], [rule];
    assert rules[..0] == [] && [blue][..0] == [] && pools[..1] == [blue];
    assert RulesTargeting(rule.target, rules) == [rule];
    assert MatchedRules([blue], rules) == [rule];
  }

  /** Two pools of the VM with one link: both entries show the second pool's name, none the first's. */
  lemma TwoPoolsWithOneLink(vm: string, link: string)
    ensures var pools := [TargetPool("blue", link, [vm]), TargetPool("green", link, [vm])];
            var rules := [Rule(link, "TCP", "EXTERNAL", Some(NatText(80)))];
            var entry := LoadBalancer("TCP", "green", "EXTERNAL", Numbers([80]), ["TCP"]);
            && LbsOfPools(vm, pools, rules) == Success([entry, entry])
            && !SharedNames(pools, rules)
  {
    var blue, green := TargetPool("blue", link, [vm]), TargetPool("green", link, [vm]);
    var rule := Rule(link, "TCP", "EXTERNAL", Some(NatText(80)));
    var entry := LoadBalancer("TCP", "green", "EXTERNAL", Numbers([80]), ["TCP"]);
    BothPoolsMatch(vm, blue, green);
    OneRuleForBoth(blue, green, rule);
    PrintedPort(80);
    assert PoolLb(rule, ShownPool([blue, green], rule)) == Success(entry);
    TwiceTheSame(rule, [blue, green], entry);
    assert Targets([blue, green], [rule], 0, 0) && Targets([blue, green], [rule], 1, 0);
    assert "blue"[0] != "green"[0];
  }

  // ---------- when the HTTP half fails ----------

  lemma {:induction false} GroupLbsFail(key: Option<string>, backends: seq<Backend>, urlMaps: seq<UrlMap>)
    ensures GroupLbs(key, backends, urlMaps).Failure? <==>
              key.None? && exists b :: b in backends && Candidate(b, urlMaps) && b.groups != []
    ensures GroupLbs(key, backends, urlMaps).Failure? ==> GroupLbs(key, backends, urlMaps) == Failure(TypeError)
  {
    if backends != [] {
      var front, last := backends[..|backends| - 1], backends[|backends| - 1];
      assert forall b :: b in backends <==> b in front || b == last;
      GroupLbsFail(key, front, urlMaps);
    }
  }

  /** The HTTP half fails, with a type error, exactly for a group without a link and a service to search it in. */
  lemma {:induction false} AllGroupLbsFail(groups: seq<InstanceGroup>, backends: seq<Backend>, urlMaps: seq<UrlMap>)
    ensures AllGroupLbs(groups, backends, urlMaps).Failure? <==>
              && (exists g :: g in groups && g.instanceGroup == "")
              && (exists b :: b in backends && Candidate(b, urlMaps) && b.groups != [])
    ensures AllGroupLbs(groups, backends, urlMaps).Failure? ==> AllGroupLbs(groups, backends, urlMaps) == Failure(TypeError)
  {
    if groups != [] {
      var front, last := groups[..|groups| - 1], groups[|groups| - 1];
      assert forall g :: g in groups <==> g in front || g == last;
      AllGroupLbsFail(front, backends, urlMaps);
      GroupLbsFail(GetMatchingStr(last.instanceGroup), backends, urlMaps);
    }
  }
}
