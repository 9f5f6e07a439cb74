/**
  The load balancers of a VM in terms of the dictionaries as they were given: which groups,
  services, pools and rules contribute an entry, in which order, and what the entry says.
 */
module LoadBalancerEntries {
  import opened Basics
  import opened Text
  import opened Sequences
  import opened Pairing
  import opened LoadBalancers

  ghost predicate Inside(part: string, text: string)
  {
    exists before, after :: text == before + part + after
  }

  lemma ContainsIsInside(text: string, part: string)
    ensures Contains(text, part) <==> Inside(part, text)
  {
    if Contains(text, part) {
      var i := Find(text, part);
      assert text == text[..i] + part + text[i + |part|..];
    }
    if Inside(part, text) {
      var before, after :| text == before + part + after;
      assert text[|before|..|before| + |part|] == part;
      ContainsAt(text, part, |before|);
    }
  }

  // ---------- HTTP: groups and services ----------

  /** `part` stands at position `i` of the text and nowhere before it. */
  ghost predicate FirstAt(text: string, part: string, i: nat)
  {
    OccursAt(text, part, i) && forall j: nat :: j < i ==> !OccursAt(text, part, j)
  }

  /** The text a group is searched by: its link from the first "/projects/" on, or without one its last character. */
  ghost predicate IsKey(link: string, key: string)
  {
    || (exists i: nat :: i <= |link| && FirstAt(link, "/projects/", i) && key == link[i..])
    || (link != "" && !Inside("/projects/", link) && key == [link[|link| - 1]])
  }

  lemma KeyExact(link: string, key: string)
    ensures GetMatchingStr(link) == Some(key) <==> IsKey(link, key)
    ensures GetMatchingStr(link) == None <==> link == ""
  {
    ContainsIsInside(link, "/projects/");
    var i := Find(link, "/projects/");
    if i >= 0 {
      assert FirstAt(link, "/projects/", i);
      assert forall k: nat :: FirstAt(link, "/projects/", k) ==> k == i;
    } else if link != "" {
      assert link[|link| - 1..] == [link[|link| - 1]];
      assert forall k: nat :: !OccursAt(link, "/projects/", k);
    } else {
      assert forall k: nat :: !OccursAt(link, "/projects/", k);
    }
  }

  ghost predicate IsMember(group: InstanceGroup, vm: string)
  {
    exists i :: 0 <= i < |group.members| && group.members[i] == Some(vm)
  }

  /** An HTTP service behind some URL map. */
  ghost predicate IsHttp(backend: Backend, urlMaps: seq<UrlMap>)
  {
    && (backend.protocol == "HTTP" || backend.protocol == "HTTPS")
    && exists m :: 0 <= m < |urlMaps| && urlMaps[m].defaultService == backend.selfLink
  }

  ghost predicate NamesGroup(backend: Backend, group: InstanceGroup)
  {
    exists key, i :: IsKey(group.instanceGroup, key) && 0 <= i < |backend.groups| && Inside(key, backend.groups[i])
  }

  /** Group `g` holds the VM and service `b` names the group. */
  ghost predicate Serves(vm: string, groups: seq<InstanceGroup>, backends: seq<Backend>, urlMaps: seq<UrlMap>, g: nat, b: nat)
  {
    && g < |groups| && b < |backends|
    && IsMember(groups[g], vm) && IsHttp(backends[b], urlMaps) && NamesGroup(backends[b], groups[g])
  }

  ghost function Serving(vm: string, groups: seq<InstanceGroup>, backends: seq<Backend>, urlMaps: seq<UrlMap>)
    : (nat, nat) -> bool
  {
    (g: nat, b: nat) => Serves(vm, groups, backends, urlMaps, g, b)
  }

  /** The first URL map of a service. */
  ghost predicate FirstMap(urlMaps: seq<UrlMap>, selfLink: string, m: nat)
  {
    && m < |urlMaps| && urlMaps[m].defaultService == selfLink
    && forall i :: 0 <= i < m ==> urlMaps[i].defaultService != selfLink
  }

  ghost predicate IsHttpEntry(lb: LoadBalancer, backend: Backend, urlMaps: seq<UrlMap>)
  {
    && lb.kind == backend.protocol && lb.protocols == [backend.protocol] && lb.scheme == backend.scheme
    && lb.ports == (match backend.port case Some(port) => Numbers([port]) case None => Numbers([]))
    && exists m: nat :: FirstMap(urlMaps, backend.selfLink, m) && lb.name == urlMaps[m].name
  }

  lemma {:induction false} SelectUrlMapExact(selfLink: string, urlMaps: seq<UrlMap>)
    ensures SelectUrlMap(selfLink, urlMaps).None? <==> forall m :: 0 <= m < |urlMaps| ==> urlMaps[m].defaultService != selfLink
    ensures forall m: nat :: FirstMap(urlMaps, selfLink, m) ==> SelectUrlMap(selfLink, urlMaps) == Some(urlMaps[m])
    ensures SelectUrlMap(selfLink, urlMaps).Some? ==> exists m: nat :: FirstMap(urlMaps, selfLink, m)
  {
    if urlMaps != [] {
      var tail := urlMaps[1..];
      SelectUrlMapExact(selfLink, tail);
      if urlMaps[0].defaultService == selfLink {
        assert FirstMap(urlMaps, selfLink, 0);
      } else {
        forall m: nat
          ensures FirstMap(urlMaps, selfLink, m) <==> m > 0 && FirstMap(tail, selfLink, m - 1)
        {
          if m > 0 && FirstMap(tail, selfLink, m - 1) {
            forall i | 0 <= i < m
              ensures urlMaps[i].defaultService != selfLink
            {
              assert i > 0 ==> urlMaps[i] == tail[i - 1];
            }
          }
        }
        if SelectUrlMap(selfLink, tail).Some? {
          var m: nat :| FirstMap(tail, selfLink, m);
          assert FirstMap(urlMaps, selfLink, m + 1);
        }
        assert forall m :: 0 < m < |urlMaps| ==> urlMaps[m] == tail[m - 1];
      }
    }
  }

  lemma CandidateIsHttp(backend: Backend, urlMaps: seq<UrlMap>)
    ensures Candidate(backend, urlMaps) <==> IsHttp(backend, urlMaps)
  {
    SelectUrlMapExact(backend.selfLink, urlMaps);
  }

  lemma HoldsIsNames(backend: Backend, group: InstanceGroup)
    ensures GetMatchingStr(group.instanceGroup).Some? ==>
              (HoldsGroup(backend, GetMatchingStr(group.instanceGroup).value) <==> NamesGroup(backend, group))
    ensures GetMatchingStr(group.instanceGroup).None? ==> !NamesGroup(backend, group)
  {
    var link := group.instanceGroup;
    forall key
      ensures GetMatchingStr(link) == Some(key) <==> IsKey(link, key)
    {
      KeyExact(link, key);
    }
    forall text, part
      ensures Contains(text, part) <==> Inside(part, text)
    {
      ContainsIsInside(text, part);
    }
  }

  /** A service contributes to a group of the VM exactly when it serves it. */
  lemma MatchIsServes(vm: string, groups: seq<InstanceGroup>, backends: seq<Backend>, urlMaps: seq<UrlMap>, g: nat, b: nat)
    requires g < |groups| && b < |backends| && IsMember(groups[g], vm)
    ensures BackendMatches(backends[b], GetMatchingStr(groups[g].instanceGroup), urlMaps) == Success(true)
       <==> Serves(vm, groups, backends, urlMaps, g, b)
  {
    CandidateIsHttp(backends[b], urlMaps);
    HoldsIsNames(backends[b], groups[g]);
  }

  lemma EntryIsExact(backend: Backend, urlMaps: seq<UrlMap>)
    requires Candidate(backend, urlMaps)
    ensures IsHttpEntry(BackendLb(backend, SelectUrlMap(backend.selfLink, urlMaps).value), backend, urlMaps)
  {
    SelectUrlMapExact(backend.selfLink, urlMaps);
  }

  /** `lbs` has one entry for each pair, made of its service. */
  ghost predicate HttpEntriesOf(lbs: seq<LoadBalancer>, backends: seq<Backend>, urlMaps: seq<UrlMap>, pairs: seq<Pair>)
  {
    && |lbs| == |pairs|
    && forall k :: 0 <= k < |pairs| ==>
         pairs[k].second < |backends| && IsHttpEntry(lbs[k], backends[pairs[k].second], urlMaps)
  }

  lemma HttpEntriesAppend(a: seq<LoadBalancer>, b: seq<LoadBalancer>, backends: seq<Backend>, urlMaps: seq<UrlMap>,
                          pairs: seq<Pair>, more: seq<Pair>)
    requires HttpEntriesOf(a, backends, urlMaps, pairs) && HttpEntriesOf(b, backends, urlMaps, more)
    ensures HttpEntriesOf(a + b, backends, urlMaps, pairs + more)
  {
  }

  lemma HttpEntriesNext(lbs: seq<LoadBalancer>, backends: seq<Backend>, urlMaps: seq<UrlMap>, row: seq<Pair>, g: nat, b: nat)
    requires HttpEntriesOf(lbs, backends, urlMaps, row)
    requires b < |backends| && Candidate(backends[b], urlMaps)
    ensures HttpEntriesOf(lbs + [BackendLb(backends[b], SelectUrlMap(backends[b].selfLink, urlMaps).value)],
                          backends, urlMaps, row + [Pair(g, b)])
  {
    EntryIsExact(backends[b], urlMaps);
  }

  lemma GroupLbsNext(key: Option<string>, backends: seq<Backend>, urlMaps: seq<UrlMap>, m: nat)
    requires m < |backends| && GroupLbs(key, backends[..m + 1], urlMaps).Success?
    ensures GroupLbs(key, backends[..m], urlMaps).Success?
    ensures var before := GroupLbs(key, backends[..m], urlMaps).value;
            if BackendMatches(backends[m], key, urlMaps) == Success(true)
            then Candidate(backends[m], urlMaps)
                 && GroupLbs(key, backends[..m + 1], urlMaps) ==
                      Success(before + [BackendLb(backends[m], SelectUrlMap(backends[m].selfLink, urlMaps).value)])
            else GroupLbs(key, backends[..m + 1], urlMaps) == Success(before)
  {
    assert backends[..m + 1][..m] == backends[..m];
  }

  lemma {:induction false} HttpRow(vm: string, groups: seq<InstanceGroup>, backends: seq<Backend>, urlMaps: seq<UrlMap>,
                                   g: nat, m: nat)
    requires g < |groups| && m <= |backends| && IsMember(groups[g], vm)
    requires GroupLbs(GetMatchingStr(groups[g].instanceGroup), backends[..m], urlMaps).Success?
    ensures HttpEntriesOf(GroupLbs(GetMatchingStr(groups[g].instanceGroup), backends[..m], urlMaps).value, backends, urlMaps,
                          Row(g, m, Serving(vm, groups, backends, urlMaps)))
  {
    if m > 0 {
      var key := GetMatchingStr(groups[g].instanceGroup);
      GroupLbsNext(key, backends, urlMaps, m - 1);
      HttpRow(vm, groups, backends, urlMaps, g, m - 1);
      MatchIsServes(vm, groups, backends, urlMaps, g, m - 1);
      var hit := Serving(vm, groups, backends, urlMaps);
      RowNext(g, m - 1, hit);
      if BackendMatches(backends[m - 1], key, urlMaps) == Success(true) {
        HttpEntriesNext(GroupLbs(key, backends[..m - 1], urlMaps).value, backends, urlMaps, Row(g, m - 1, hit), g, m - 1);
      }
    }
  }

  lemma RowNext(i: nat, m: nat, hit: (nat, nat) -> bool)
    ensures Row(i, m + 1, hit) == if hit(i, m) then Row(i, m, hit) + [Pair(i, m)] else Row(i, m, hit)
  {
    assert Row(i, m, hit) + [] == Row(i, m, hit);
  }

  lemma {:induction false} NoRow(i: nat, m: nat, hit: (nat, nat) -> bool)
    requires forall j: nat :: j < m ==> !hit(i, j)
    ensures Row(i, m, hit) == []
  {
    if m > 0 {
      NoRow(i, m - 1, hit);
    }
  }

  lemma MatchedGroupsNext(vm: string, groups: seq<InstanceGroup>, n: nat)
    requires n < |groups|
    ensures MatchedGroups(vm, groups[..n + 1]) ==
              MatchedGroups(vm, groups[..n]) + (if IsMember(groups[n], vm) then [groups[n]] else [])
  {
    assert groups[..n + 1][..n] == groups[..n];
  }

  lemma AllGroupLbsNext(groups: seq<InstanceGroup>, last: InstanceGroup, backends: seq<Backend>, urlMaps: seq<UrlMap>)
    requires AllGroupLbs(groups + [last], backends, urlMaps).Success?
    ensures AllGroupLbs(groups, backends, urlMaps).Success?
    ensures GroupLbs(GetMatchingStr(last.instanceGroup), backends, urlMaps).Success?
    ensures AllGroupLbs(groups + [last], backends, urlMaps).value ==
              AllGroupLbs(groups, backends, urlMaps).value + GroupLbs(GetMatchingStr(last.instanceGroup), backends, urlMaps).value
  {
    assert (groups + [last])[..|groups|] == groups;
  }

  lemma {:induction false} HttpUpTo(vm: string, groups: seq<InstanceGroup>, backends: seq<Backend>, urlMaps: seq<UrlMap>, n: nat)
    requires n <= |groups| && AllGroupLbs(MatchedGroups(vm, groups[..n]), backends, urlMaps).Success?
    ensures HttpEntriesOf(AllGroupLbs(MatchedGroups(vm, groups[..n]), backends, urlMaps).value, backends, urlMaps,
                          Pairs(n, |backends|, Serving(vm, groups, backends, urlMaps)))
  {
    if n > 0 {
      var hit, before := Serving(vm, groups, backends, urlMaps), MatchedGroups(vm, groups[..n - 1]);
      MatchedGroupsNext(vm, groups, n - 1);
      if IsMember(groups[n - 1], vm) {
        AllGroupLbsNext(before, groups[n - 1], backends, urlMaps);
        HttpUpTo(vm, groups, backends, urlMaps, n - 1);
        TakeAll(backends);
        HttpRow(vm, groups, backends, urlMaps, n - 1, |backends|);
        HttpEntriesAppend(AllGroupLbs(before, backends, urlMaps).value,
                          GroupLbs(GetMatchingStr(groups[n - 1].instanceGroup), backends, urlMaps).value,
                          backends, urlMaps, Pairs(n - 1, |backends|, hit), Row(n - 1, |backends|, hit));
      } else {
        assert before + [] == before;
        HttpUpTo(vm, groups, backends, urlMaps, n - 1);
        NoRow(n - 1, |backends|, hit);
      }
    }
  }

  /**
    The HTTP half of a VM, on success: one entry per group that has the VM among its members
    and HTTP service that names the group, by group, then by service, and no others.
   */
  lemma HttpEntries(vm: string, groups: seq<InstanceGroup>, backends: seq<Backend>, urlMaps: seq<UrlMap>)
    returns (pairs: seq<Pair>)
    requires LbsOfGroups(vm, groups, backends, urlMaps).Success?
    ensures Ordered(pairs)
    ensures forall pair :: pair in pairs <==> Serves(vm, groups, backends, urlMaps, pair.first, pair.second)
    ensures HttpEntriesOf(LbsOfGroups(vm, groups, backends, urlMaps).value, backends, urlMaps, pairs)
  {
    var hit := Serving(vm, groups, backends, urlMaps);
    pairs := Pairs(|groups|, |backends|, hit);
    TakeAll(groups);
    HttpUpTo(vm, groups, backends, urlMaps, |groups|);
    PairsOrdered(|groups|, |backends|, hit);
    forall pair
      ensures pair in pairs <==> Serves(vm, groups, backends, urlMaps, pair.first, pair.second)
    {
      PairsMember(|groups|, |backends|, hit, pair);
    }
  }

  /** The HTTP half fails exactly for a group of the VM without a link and an HTTP service to search it in. */
  ghost predicate HttpFails(vm: string, groups: seq<InstanceGroup>, backends: seq<Backend>, urlMaps: seq<UrlMap>)
  {
    && (exists g :: g in groups && IsMember(g, vm) && g.instanceGroup == "")
    && (exists b :: b in backends && IsHttp(b, urlMaps) && b.groups != [])
  }

  lemma {:induction false} MatchedGroupsMember(vm: string, groups: seq<InstanceGroup>, g: InstanceGroup)
    ensures g in MatchedGroups(vm, groups) <==> g in groups && IsMember(g, vm)
  {
    if groups != [] {
      var n := |groups| - 1;
      TakeAll(groups);
      MatchedGroupsNext(vm, groups, n);
      assert groups == groups[..n] + [groups[n]];
      MatchedGroupsMember(vm, groups[..n], g);
    }
  }

  lemma HttpFailsExactly(vm: string, groups: seq<InstanceGroup>, backends: seq<Backend>, urlMaps: seq<UrlMap>)
    ensures LbsOfGroups(vm, groups, backends, urlMaps).Failure? <==> HttpFails(vm, groups, backends, urlMaps)
    ensures LbsOfGroups(vm, groups, backends, urlMaps).Failure? ==> LbsOfGroups(vm, groups, backends, urlMaps) == Failure(TypeError)
  {
    AllGroupLbsFail(MatchedGroups(vm, groups), backends, urlMaps);
    forall g
      ensures g in MatchedGroups(vm, groups) <==> g in groups && IsMember(g, vm)
    {
      MatchedGroupsMember(vm, groups, g);
    }
    forall b
      ensures Candidate(b, urlMaps) <==> IsHttp(b, urlMaps)
    {
      CandidateIsHttp(b, urlMaps);
    }
  }

  // ---------- target pools and forwarding rules ----------

  ghost predicate HoldsVm(pool: TargetPool, vm: string)
  {
    exists i :: 0 <= i < |pool.instances| && Inside(vm, pool.instances[i])
  }

  /** Pool `p` holds the VM and rule `r` targets the pool. */
  ghost predicate Balances(vm: string, pools: seq<TargetPool>, rules: seq<Rule>, p: nat, r: nat)
  {
    p < |pools| && r < |rules| && HoldsVm(pools[p], vm) && rules[r].target == pools[p].selfLink
  }

  ghost function Balancing(vm: string, pools: seq<TargetPool>, rules: seq<Rule>): (nat, nat) -> bool
  {
    (p: nat, r: nat) => Balances(vm, pools, rules, p, r)
  }

  /** Of the first `n` pools, the last one of the VM that has this link. */
  ghost predicate LastOfVm(vm: string, pools: seq<TargetPool>, target: string, q: nat, n: nat)
    requires n <= |pools|
  {
    && q < n && HoldsVm(pools[q], vm) && pools[q].selfLink == target
    && forall i :: q < i < n && HoldsVm(pools[i], vm) ==> pools[i].selfLink != target
  }

  ghost predicate IsPoolEntry(lb: LoadBalancer, vm: string, pools: seq<TargetPool>, rule: Rule)
  {
    && lb.kind == rule.protocol && lb.scheme == rule.scheme
    && lb.protocols == (if rule.protocol == "" then [] else [rule.protocol])
    && GetPortRangesIntoArray(rule.portRange) == Success(lb.ports)
    && exists q: nat :: LastOfVm(vm, pools, rule.target, q, |pools|) && lb.name == pools[q].name
  }

  lemma InPoolIsHolds(pool: TargetPool, vm: string)
    ensures InPool(pool, vm) <==> HoldsVm(pool, vm)
  {
    forall text
      ensures Contains(text, vm) <==> Inside(vm, text)
    {
      ContainsIsInside(text, vm);
    }
  }

  lemma MatchedPoolsNext(vm: string, pools: seq<TargetPool>, n: nat)
    requires n < |pools|
    ensures MatchedPools(vm, pools[..n + 1]) ==
              MatchedPools(vm, pools[..n]) + (if HoldsVm(pools[n], vm) then [pools[n]] else [])
  {
    assert pools[..n + 1][..n] == pools[..n];
    InPoolIsHolds(pools[n], vm);
  }

  /** `picked` has the rule of each pair. */
  ghost predicate PickedRules(picked: seq<Rule>, rules: seq<Rule>, pairs: seq<Pair>)
  {
    && |picked| == |pairs|
    && forall k :: 0 <= k < |pairs| ==> pairs[k].second < |rules| && picked[k] == rules[pairs[k].second]
  }

  lemma PickedAppend(a: seq<Rule>, b: seq<Rule>, rules: seq<Rule>, pairs: seq<Pair>, more: seq<Pair>)
    requires PickedRules(a, rules, pairs) && PickedRules(b, rules, more)
    ensures PickedRules(a + b, rules, pairs + more)
  {
  }

  lemma {:induction false} PoolRow(vm: string, pools: seq<TargetPool>, rules: seq<Rule>, p: nat, m: nat)
    requires p < |pools| && m <= |rules| && HoldsVm(pools[p], vm)
    ensures PickedRules(RulesTargeting(pools[p].selfLink, rules[..m]), rules, Row(p, m, Balancing(vm, pools, rules)))
  {
    if m > 0 {
      PoolRow(vm, pools, rules, p, m - 1);
      RulesTargetingNext(pools[p].selfLink, rules, m - 1);
      if rules[m - 1].target == pools[p].selfLink {
        PickedAppend(RulesTargeting(pools[p].selfLink, rules[..m - 1]), [rules[m - 1]], rules,
                     Row(p, m - 1, Balancing(vm, pools, rules)), [Pair(p, m - 1)]);
      }
    }
  }

  lemma MatchedRulesNext(pools: seq<TargetPool>, last: TargetPool, rules: seq<Rule>)
    ensures MatchedRules(pools + [last], rules) == MatchedRules(pools, rules) + RulesTargeting(last.selfLink, rules)
  {
    assert (pools + [last])[..|pools|] == pools;
  }

  lemma {:induction false} PoolsUpTo(vm: string, pools: seq<TargetPool>, rules: seq<Rule>, n: nat)
    requires n <= |pools|
    ensures PickedRules(MatchedRules(MatchedPools(vm, pools[..n]), rules), rules,
                        Pairs(n, |rules|, Balancing(vm, pools, rules)))
  {
    if n > 0 {
      var hit, before := Balancing(vm, pools, rules), MatchedPools(vm, pools[..n - 1]);
      PoolsUpTo(vm, pools, rules, n - 1);
      MatchedPoolsNext(vm, pools, n - 1);
      if HoldsVm(pools[n - 1], vm) {
        MatchedRulesNext(before, pools[n - 1], rules);
        TakeAll(rules);
        PoolRow(vm, pools, rules, n - 1, |rules|);
        PickedAppend(MatchedRules(before, rules), RulesTargeting(pools[n - 1].selfLink, rules), rules,
                     Pairs(n - 1, |rules|, hit), Row(n - 1, |rules|, hit));
      } else {
        assert before + [] == before;
        NoRow(n - 1, |rules|, hit);
      }
    }
  }

  lemma LastPoolNext(pools: seq<TargetPool>, last: TargetPool, target: string)
    ensures LastPool(pools + [last], target) == if last.selfLink == target then Some(last) else LastPool(pools, target)
  {
    assert (pools + [last])[..|pools|] == pools;
  }

  /** The pool whose name a rule shows. */
  lemma {:induction false} LastPoolOfVm(vm: string, pools: seq<TargetPool>, target: string, n: nat, q: nat)
    requires n <= |pools| && LastOfVm(vm, pools, target, q, n)
    ensures LastPool(MatchedPools(vm, pools[..n]), target) == Some(pools[q])
  {
    MatchedPoolsNext(vm, pools, n - 1);
    var before := MatchedPools(vm, pools[..n - 1]);
    assert before + [] == before;
    LastPoolNext(before, pools[n - 1], target);
    if q < n - 1 {
      LastPoolOfVm(vm, pools, target, n - 1, q);
    }
  }

  lemma {:induction false} SomeLast(vm: string, pools: seq<TargetPool>, target: string, p: nat) returns (q: nat)
    requires p < |pools| && HoldsVm(pools[p], vm) && pools[p].selfLink == target
    ensures LastOfVm(vm, pools, target, q, |pools|)
    decreases |pools| - p
  {
    if i: nat :| p < i < |pools| && HoldsVm(pools[i], vm) && pools[i].selfLink == target {
      q := SomeLast(vm, pools, target, i);
    } else {
      q := p;
    }
  }

  lemma PoolEntryIsExact(vm: string, pools: seq<TargetPool>, rules: seq<Rule>, p: nat, r: nat, lb: LoadBalancer)
    requires Balances(vm, pools, rules, p, r)
    requires PoolLb(rules[r], ShownPool(MatchedPools(vm, pools), rules[r])) == Success(lb)
    ensures IsPoolEntry(lb, vm, pools, rules[r])
  {
    var q := SomeLast(vm, pools, rules[r].target, p);
    TakeAll(pools);
    LastPoolOfVm(vm, pools, rules[r].target, |pools|, q);
  }

  /** `lbs` has one entry for each pair, made of its rule. */
  ghost predicate PoolEntriesOf(lbs: seq<LoadBalancer>, vm: string, pools: seq<TargetPool>, rules: seq<Rule>, pairs: seq<Pair>)
  {
    && |lbs| == |pairs|
    && forall k :: 0 <= k < |pairs| ==>
         pairs[k].second < |rules| && IsPoolEntry(lbs[k], vm, pools, rules[pairs[k].second])
  }

  lemma PoolPairsOf(vm: string, pools: seq<TargetPool>, rules: seq<Rule>) returns (pairs: seq<Pair>)
    ensures Ordered(pairs)
    ensures forall pair :: pair in pairs <==> Balances(vm, pools, rules, pair.first, pair.second)
    ensures PickedRules(MatchedRules(MatchedPools(vm, pools), rules), rules, pairs)
  {
    var hit := Balancing(vm, pools, rules);
    pairs := Pairs(|pools|, |rules|, hit);
    TakeAll(pools);
    PoolsUpTo(vm, pools, rules, |pools|);
    PairsOrdered(|pools|, |rules|, hit);
    forall pair
      ensures pair in pairs <==> Balances(vm, pools, rules, pair.first, pair.second)
    {
      PairsMember(|pools|, |rules|, hit, pair);
    }
  }

  /**
    The target-pool half of a VM, on success: one entry per pool that holds the VM and rule that
    targets the pool, by pool, then by rule, and no others.
   */
  lemma PoolEntries(vm: string, pools: seq<TargetPool>, rules: seq<Rule>) returns (pairs: seq<Pair>)
    requires LbsOfPools(vm, pools, rules).Success?
    ensures Ordered(pairs)
    ensures forall pair :: pair in pairs <==> Balances(vm, pools, rules, pair.first, pair.second)
    ensures PoolEntriesOf(LbsOfPools(vm, pools, rules).value, vm, pools, rules, pairs)
  {
    pairs := PoolPairsOf(vm, pools, rules);
    var mine, lbs := MatchedPools(vm, pools), LbsOfPools(vm, pools, rules).value;
    var matched := MatchedRules(mine, rules);
    RuleLbsLength(matched, mine);
    forall k | 0 <= k < |pairs|
      ensures IsPoolEntry(lbs[k], vm, pools, rules[pairs[k].second])
    {
      RuleLbsAt(matched, mine, k);
      assert pairs[k] in pairs;
      PoolEntryIsExact(vm, pools, rules, pairs[k].first, pairs[k].second, lbs[k]);
    }
  }

  lemma {:induction false} RuleLbsLength(matched: seq<Rule>, pools: seq<TargetPool>)
    requires RuleLbs(matched, pools).Success?
    ensures |RuleLbs(matched, pools).value| == |matched|
  {
    if matched != [] {
      RuleLbsAt(matched, pools, 0);
    }
  }

  /** A failing join has a first rule whose port range cannot be read; its error is the join's. */
  lemma {:induction false} RuleLbsFirst(matched: seq<Rule>, pools: seq<TargetPool>) returns (k: nat)
    requires RuleLbs(matched, pools).Failure?
    ensures k < |matched|
    ensures GetPortRangesIntoArray(matched[k].portRange) == Failure(RuleLbs(matched, pools).error)
    ensures forall i :: 0 <= i < k ==> GetPortRangesIntoArray(matched[i].portRange).Success?
  {
    var front := matched[..|matched| - 1];
    if RuleLbs(front, pools).Failure? {
      k := RuleLbsFirst(front, pools);
    } else {
      k := |front|;
      RuleLbsSucceed(front, pools);
      forall i | 0 <= i < k
        ensures GetPortRangesIntoArray(matched[i].portRange).Success?
      {
        assert front[i] in front;
      }
    }
  }

  ghost predicate Unreadable(vm: string, pools: seq<TargetPool>, rules: seq<Rule>, pair: Pair)
  {
    && Balances(vm, pools, rules, pair.first, pair.second)
    && GetPortRangesIntoArray(rules[pair.second].portRange).Failure?
  }

  /** No pair that comes earlier is unreadable. */
  ghost predicate IsFirstUnreadable(vm: string, pools: seq<TargetPool>, rules: seq<Rule>, pair: Pair)
  {
    Unreadable(vm, pools, rules, pair) && forall other :: Unreadable(vm, pools, rules, other) ==> !Pairing.Before(other, pair)
  }

  lemma FirstUnreadable(vm: string, pools: seq<TargetPool>, rules: seq<Rule>) returns (pair: Pair)
    requires LbsOfPools(vm, pools, rules).Failure?
    ensures IsFirstUnreadable(vm, pools, rules, pair)
    ensures GetPortRangesIntoArray(rules[pair.second].portRange) == Failure(LbsOfPools(vm, pools, rules).error)
  {
    var pairs := PoolPairsOf(vm, pools, rules);
    var matched := MatchedRules(MatchedPools(vm, pools), rules);
    var k := RuleLbsFirst(matched, MatchedPools(vm, pools));
    pair := pairs[k];
    assert pair in pairs;
    forall other | Unreadable(vm, pools, rules, other)
      ensures !Pairing.Before(other, pair)
    {
      assert other in pairs;
      var i :| 0 <= i < |pairs| && pairs[i] == other;
      assert i >= k;
    }
  }

  lemma AllReadable(vm: string, pools: seq<TargetPool>, rules: seq<Rule>)
    requires LbsOfPools(vm, pools, rules).Success?
    ensures forall pair :: !Unreadable(vm, pools, rules, pair)
  {
    var pairs := PoolPairsOf(vm, pools, rules);
    var matched := MatchedRules(MatchedPools(vm, pools), rules);
    RuleLbsSucceed(matched, MatchedPools(vm, pools));
    forall pair: Pair | Balances(vm, pools, rules, pair.first, pair.second)
      ensures !Unreadable(vm, pools, rules, pair)
    {
      assert pair in pairs;
      var i :| 0 <= i < |pairs| && pairs[i] == pair;
      assert matched[i] in matched;
    }
  }

  /** The target-pool half fails exactly for a matching rule whose port range cannot be read, with the error of the first. */
  lemma PoolsFailExactly(vm: string, pools: seq<TargetPool>, rules: seq<Rule>)
    ensures LbsOfPools(vm, pools, rules).Failure? <==> exists pair :: Unreadable(vm, pools, rules, pair)
    ensures LbsOfPools(vm, pools, rules).Failure? ==>
              exists pair :: && IsFirstUnreadable(vm, pools, rules, pair)
                             && GetPortRangesIntoArray(rules[pair.second].portRange) == Failure(LbsOfPools(vm, pools, rules).error)
  {
    if LbsOfPools(vm, pools, rules).Failure? {
      var pair := FirstUnreadable(vm, pools, rules);
    } else {
      AllReadable(vm, pools, rules);
    }
  }

  // ---------- both halves ----------

  /**
    The load balancers of a VM: the HTTP entries, then the target-pool entries. There are none
    exactly when one half fails; the HTTP half's error comes first.
   */
  lemma VmEntries(vm: string, env: Environment)
    ensures var r := LoadBalancersOf(vm, env);
            var http := LbsOfGroups(vm, env.groups, env.backends, env.urlMaps);
            var pools := LbsOfPools(vm, env.pools, env.rules);
            && (r.Success? ==> http.Success? && pools.Success? && r.value == http.value + pools.value)
            && (r.Failure? <==> || HttpFails(vm, env.groups, env.backends, env.urlMaps)
                                || exists pair :: Unreadable(vm, env.pools, env.rules, pair))
            && (HttpFails(vm, env.groups, env.backends, env.urlMaps) ==> r == Failure(TypeError))
            && (r.Failure? && !HttpFails(vm, env.groups, env.backends, env.urlMaps) ==> r == pools)
  {
    HttpFailsExactly(vm, env.groups, env.backends, env.urlMaps);
    PoolsFailExactly(vm, env.pools, env.rules);
  }

  // ---------- port ranges ----------

  /** A text without a dash, or that starts with one, is read as one number. */
  lemma OnePort(text: string)
    requires '-' !in text || text[0] == '-'
    ensures GetPortRangesIntoArray(Some(text)) == match ParseInt(text)
                                                   case Some(port) => Success(Numbers([port]))
                                                   case None => Failure(ValueError)
  {
    if '-' !in text {
      NoDashFound(text);
    } else {
      assert text[0..1] == "-";
      assert OccursAt(text, "-", 0);
    }
  }

  /** Two pieces around one dash that is not the first character are the bounds of a range. */
  lemma TwoBounds(low: string, high: string)
    requires low != "" && '-' !in low && '-' !in high
    ensures GetPortRangesIntoArray(Some(low + "-" + high)) ==
              match (ParseInt(low), ParseInt(high))
              case (Some(a), Some(b)) => Success(Numbers(Range(a, b)))
              case _ => Failure(ValueError)
  {
    SplitFirst(low, '-', high);
    SplitWithout(high, '-');
    assert low + "-" + high == low + ['-'] + high;
    DashBehind(low, high);
  }

  /** More dashes, not at the start, leave the pieces as they are; no text at all is an attribute error. */
  lemma ManyPieces(low: string, high: string, rest: string)
    requires low != "" && '-' !in low && '-' !in high
    ensures GetPortRangesIntoArray(Some(low + "-" + high + "-" + rest)) == Success(Pieces([low, high] + Split(rest, '-')))
    ensures GetPortRangesIntoArray(None) == Failure(AttributeError)
  {
    var back := high + ['-'] + rest;
    SplitFirst(high, '-', rest);
    SplitFirst(low, '-', back);
    assert low + "-" + high + "-" + rest == low + ['-'] + back == low + "-" + back;
    DashBehind(low, back);
    assert [low] + ([high] + Split(rest, '-')) == [low, high] + Split(rest, '-');
  }
}
