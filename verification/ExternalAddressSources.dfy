/**
  The merged external addresses in terms of the dictionaries they come from: the reserved
  addresses, the forwarding rules, and the access configurations of the VMs' interfaces.
 */
module ExternalAddressSources {
  import opened Basics
  import opened Text
  import opened ResourceUrls
  import opened ExternalAddresses

  // ---------- the places of NAT addresses ----------

  /** A VM, one of its interfaces, one of the interface's access configurations. */
  datatype Place = Place(vm: nat, interface: nat, config: nat)

  ghost predicate IsPlace(instances: seq<Instance>, p: Place)
  {
    && p.vm < |instances| && p.interface < |instances[p.vm].interfaces|
    && p.config < |instances[p.vm].interfaces[p.interface]|
  }

  /** The access configuration at the place has this NAT address. */
  ghost predicate Offers(instances: seq<Instance>, p: Place, ip: string)
  {
    IsPlace(instances, p) && instances[p.vm].interfaces[p.interface][p.config].natIP == Some(ip)
  }

  ghost predicate OffersSome(instances: seq<Instance>, p: Place)
  {
    IsPlace(instances, p) && instances[p.vm].interfaces[p.interface][p.config].natIP.Some?
  }

  /** The order of VMs, interfaces and configurations. */
  predicate Before(a: Place, b: Place)
  {
    || a.vm < b.vm
    || (a.vm == b.vm && a.interface < b.interface)
    || (a.vm == b.vm && a.interface == b.interface && a.config < b.config)
  }

  ghost predicate Ordered(places: seq<Place>)
  {
    forall i, j :: 0 <= i < j < |places| ==> Before(places[i], places[j])
  }

  lemma OrderedAppend(a: seq<Place>, b: seq<Place>)
    requires Ordered(a) && Ordered(b)
    requires forall i, j :: 0 <= i < |a| && 0 <= j < |b| ==> Before(a[i], b[j])
    ensures Ordered(a + b)
  {
  }

  /** The places with an address among the first `n` configurations of an interface. */
  ghost function InterfacePlaces(instances: seq<Instance>, v: nat, i: nat, n: nat): seq<Place>
  {
    if n == 0 then []
    else InterfacePlaces(instances, v, i, n - 1) + (if OffersSome(instances, Place(v, i, n - 1)) then [Place(v, i, n - 1)] else [])
  }

  ghost function VmPlaces(instances: seq<Instance>, v: nat, n: nat): seq<Place>
    requires v < |instances| && n <= |instances[v].interfaces|
  {
    if n == 0 then []
    else VmPlaces(instances, v, n - 1) + InterfacePlaces(instances, v, n - 1, |instances[v].interfaces[n - 1]|)
  }

  ghost function Places(instances: seq<Instance>, n: nat): seq<Place>
    requires n <= |instances|
  {
    if n == 0 then []
    else Places(instances, n - 1) + VmPlaces(instances, n - 1, |instances[n - 1].interfaces|)
  }

  ghost predicate OnInterface(instances: seq<Instance>, places: seq<Place>, v: nat, i: nat, n: nat)
  {
    forall k :: 0 <= k < |places| ==>
      places[k].vm == v && places[k].interface == i && places[k].config < n && OffersSome(instances, places[k])
  }

  ghost predicate OnVm(instances: seq<Instance>, places: seq<Place>, v: nat, n: nat)
  {
    forall k :: 0 <= k < |places| ==> places[k].vm == v && places[k].interface < n && OffersSome(instances, places[k])
  }

  ghost predicate OnVms(instances: seq<Instance>, places: seq<Place>, n: nat)
  {
    forall k :: 0 <= k < |places| ==> places[k].vm < n && OffersSome(instances, places[k])
  }

  lemma {:induction false} InterfacePlacesSound(instances: seq<Instance>, v: nat, i: nat, n: nat)
    ensures OnInterface(instances, InterfacePlaces(instances, v, i, n), v, i, n)
    ensures Ordered(InterfacePlaces(instances, v, i, n))
  {
    if n > 0 {
      InterfacePlacesSound(instances, v, i, n - 1);
      OrderedAppend(InterfacePlaces(instances, v, i, n - 1),
                    if OffersSome(instances, Place(v, i, n - 1)) then [Place(v, i, n - 1)] else []);
    }
  }

  lemma {:induction false} VmPlacesSound(instances: seq<Instance>, v: nat, n: nat)
    requires v < |instances| && n <= |instances[v].interfaces|
    ensures OnVm(instances, VmPlaces(instances, v, n), v, n) && Ordered(VmPlaces(instances, v, n))
  {
    if n > 0 {
      VmPlacesSound(instances, v, n - 1);
      var m := |instances[v].interfaces[n - 1]|;
      InterfacePlacesSound(instances, v, n - 1, m);
      OrderedAppend(VmPlaces(instances, v, n - 1), InterfacePlaces(instances, v, n - 1, m));
    }
  }

  lemma {:induction false} PlacesSound(instances: seq<Instance>, n: nat)
    requires n <= |instances|
    ensures OnVms(instances, Places(instances, n), n) && Ordered(Places(instances, n))
  {
    if n > 0 {
      PlacesSound(instances, n - 1);
      var m := |instances[n - 1].interfaces|;
      VmPlacesSound(instances, n - 1, m);
      OrderedAppend(Places(instances, n - 1), VmPlaces(instances, n - 1, m));
    }
  }

  lemma {:induction false} InterfacePlacesFind(instances: seq<Instance>, p: Place, n: nat) returns (k: nat)
    requires OffersSome(instances, p) && p.config < n
    ensures var places := InterfacePlaces(instances, p.vm, p.interface, n); k < |places| && places[k] == p
  {
    if p.config == n - 1 {
      k := |InterfacePlaces(instances, p.vm, p.interface, n - 1)|;
    } else {
      k := InterfacePlacesFind(instances, p, n - 1);
    }
  }

  lemma {:induction false} VmPlacesFind(instances: seq<Instance>, p: Place, n: nat) returns (k: nat)
    requires OffersSome(instances, p) && p.interface < n <= |instances[p.vm].interfaces|
    ensures var places := VmPlaces(instances, p.vm, n); k < |places| && places[k] == p
  {
    if p.interface == n - 1 {
      var j := InterfacePlacesFind(instances, p, |instances[p.vm].interfaces[n - 1]|);
      k := |VmPlaces(instances, p.vm, n - 1)| + j;
    } else {
      k := VmPlacesFind(instances, p, n - 1);
    }
  }

  lemma {:induction false} PlacesFind(instances: seq<Instance>, p: Place, n: nat) returns (k: nat)
    requires OffersSome(instances, p) && p.vm < n <= |instances|
    ensures k < |Places(instances, n)| && Places(instances, n)[k] == p
  {
    if p.vm == n - 1 {
      var j := VmPlacesFind(instances, p, |instances[p.vm].interfaces|);
      k := |Places(instances, n - 1)| + j;
    } else {
      k := PlacesFind(instances, p, n - 1);
    }
  }

  // ---------- the candidates at the places ----------

  /** The candidate is the address at the place, with its VM and the zone of the VM's URL. */
  ghost predicate FoundAt(pathOf: string -> string, instances: seq<Instance>, p: Place, c: Candidate)
  {
    && Offers(instances, p, c.natIP) && c.instance == instances[p.vm]
    && GetParamInUrl(pathOf, instances[p.vm].zoneUrl, "zones") == Success(c.zone)
  }

  ghost predicate AllFound(pathOf: string -> string, instances: seq<Instance>, places: seq<Place>, candidates: seq<Candidate>)
  {
    && |places| == |candidates|
    && forall k :: 0 <= k < |places| ==> FoundAt(pathOf, instances, places[k], candidates[k])
  }

  lemma AllFoundAppend(pathOf: string -> string, instances: seq<Instance>, places: seq<Place>, candidates: seq<Candidate>,
                       more: seq<Place>, others: seq<Candidate>)
    requires AllFound(pathOf, instances, places, candidates) && AllFound(pathOf, instances, more, others)
    ensures AllFound(pathOf, instances, places + more, candidates + others)
  {
  }

  lemma InterfaceNext(vm: Instance, zone: string, configs: seq<AccessConfig>, n: nat)
    requires n < |configs|
    ensures InterfaceCandidates(vm, zone, configs[..n + 1]) ==
              InterfaceCandidates(vm, zone, configs[..n]) +
              (match configs[n].natIP case Some(ip) => [Candidate(vm, zone, ip)] case None => [])
  {
    assert configs[..n + 1][..n] == configs[..n];
  }

  lemma {:induction false} InterfaceFound(pathOf: string -> string, instances: seq<Instance>, v: nat, i: nat, zone: string, n: nat)
    requires v < |instances| && i < |instances[v].interfaces| && n <= |instances[v].interfaces[i]|
    requires GetParamInUrl(pathOf, instances[v].zoneUrl, "zones") == Success(zone)
    ensures AllFound(pathOf, instances, InterfacePlaces(instances, v, i, n),
                     InterfaceCandidates(instances[v], zone, instances[v].interfaces[i][..n]))
  {
    if n > 0 {
      var configs := instances[v].interfaces[i];
      InterfaceFound(pathOf, instances, v, i, zone, n - 1);
      InterfaceNext(instances[v], zone, configs, n - 1);
      match configs[n - 1].natIP {
        case Some(ip) =>
          AllFoundAppend(pathOf, instances, InterfacePlaces(instances, v, i, n - 1),
                         InterfaceCandidates(instances[v], zone, configs[..n - 1]),
                         [Place(v, i, n - 1)], [Candidate(instances[v], zone, ip)]);
        case None =>
          AllFoundAppend(pathOf, instances, InterfacePlaces(instances, v, i, n - 1),
                         InterfaceCandidates(instances[v], zone, configs[..n - 1]), [], []);
      }
    }
  }

  lemma {:induction false} VmFound(pathOf: string -> string, instances: seq<Instance>, v: nat, zone: string, n: nat)
    requires v < |instances| && n <= |instances[v].interfaces|
    requires GetParamInUrl(pathOf, instances[v].zoneUrl, "zones") == Success(zone)
    ensures AllFound(pathOf, instances, VmPlaces(instances, v, n),
                     InstanceCandidates(instances[v], zone, instances[v].interfaces[..n]))
  {
    if n > 0 {
      var interfaces := instances[v].interfaces;
      var configs := interfaces[n - 1];
      assert interfaces[..n][..n - 1] == interfaces[..n - 1];
      assert configs[..|configs|] == configs;
      VmFound(pathOf, instances, v, zone, n - 1);
      InterfaceFound(pathOf, instances, v, n - 1, zone, |configs|);
      AllFoundAppend(pathOf, instances, VmPlaces(instances, v, n - 1), InstanceCandidates(instances[v], zone, interfaces[..n - 1]),
                     InterfacePlaces(instances, v, n - 1, |configs|), InterfaceCandidates(instances[v], zone, configs));
    }
  }

  lemma CandidatesNext(pathOf: string -> string, front: seq<Instance>, last: Instance)
    requires Candidates(pathOf, front + [last]).Success?
    ensures Candidates(pathOf, front).Success? && GetParamInUrl(pathOf, last.zoneUrl, "zones").Success?
    ensures Candidates(pathOf, front + [last]).value ==
              Candidates(pathOf, front).value +
              InstanceCandidates(last, GetParamInUrl(pathOf, last.zoneUrl, "zones").value, last.interfaces)
  {
    assert (front + [last])[..|front|] == front;
  }

  lemma {:induction false} AllVmsFound(pathOf: string -> string, instances: seq<Instance>, n: nat)
    requires n <= |instances| && Candidates(pathOf, instances[..n]).Success?
    ensures AllFound(pathOf, instances, Places(instances, n), Candidates(pathOf, instances[..n]).value)
  {
    if n > 0 {
      var vm := instances[n - 1];
      assert instances[..n] == instances[..n - 1] + [vm];
      CandidatesNext(pathOf, instances[..n - 1], vm);
      var zone := GetParamInUrl(pathOf, vm.zoneUrl, "zones").value;
      AllVmsFound(pathOf, instances, n - 1);
      assert vm.interfaces[..|vm.interfaces|] == vm.interfaces;
      VmFound(pathOf, instances, n - 1, zone, |vm.interfaces|);
      AllFoundAppend(pathOf, instances, Places(instances, n - 1), Candidates(pathOf, instances[..n - 1]).value,
                     VmPlaces(instances, n - 1, |vm.interfaces|), InstanceCandidates(vm, zone, vm.interfaces));
    }
  }

  /** The candidates are exactly the NAT addresses of the VMs, in the order of VMs, interfaces and configurations. */
  lemma CandidatesExact(pathOf: string -> string, instances: seq<Instance>) returns (places: seq<Place>)
    requires Candidates(pathOf, instances).Success?
    ensures Ordered(places) && forall p :: p in places <==> OffersSome(instances, p)
    ensures AllFound(pathOf, instances, places, Candidates(pathOf, instances).value)
  {
    var n := |instances|;
    assert instances[..n] == instances;
    places := Places(instances, n);
    PlacesSound(instances, n);
    AllVmsFound(pathOf, instances, n);
    forall p | OffersSome(instances, p)
      ensures p in places
    {
      var k := PlacesFind(instances, p, n);
    }
  }

  /** The candidates exist exactly when every VM's zone can be read from its URL. */
  lemma {:induction false} CandidatesExist(pathOf: string -> string, instances: seq<Instance>)
    ensures Candidates(pathOf, instances).Success? <==>
              forall vm :: vm in instances ==> GetParamInUrl(pathOf, vm.zoneUrl, "zones").Success?
  {
    if instances != [] {
      var front, last := instances[..|instances| - 1], instances[|instances| - 1];
      assert instances == front + [last];
      assert forall vm :: vm in instances <==> vm in front || vm == last;
      CandidatesExist(pathOf, front);
    }
  }

  // ---------- what an entry says ----------

  ghost predicate IsNatAddress(instances: seq<Instance>, a: Option<string>)
  {
    exists p, ip :: a == Some(ip) && Offers(instances, p, ip)
  }

  /** The first place with the address. */
  ghost predicate FirstOffer(instances: seq<Instance>, p: Place, ip: string)
  {
    Offers(instances, p, ip) && forall q :: Offers(instances, q, ip) ==> !Before(q, p)
  }

  /** An entry made for the NAT address of a VM, used by the VM in the zone of its URL. */
  ghost predicate IsNatEntry(pathOf: string -> string, entry: Fields, vm: Instance, ip: string)
  {
    && entry.address == Some(ip) && entry.addressType == EXTERNAL && entry.isEphemeral == EPHEMERAL && entry.inUse
    && entry.users == [vm.selfLink]
    && exists zone :: && GetParamInUrl(pathOf, vm.zoneUrl, "zones") == Success(zone)
                      && entry.region == ParseRegionFromZone(zone) && entry.usedBy == [VmInstance(vm.name, zone)]
  }

  /** A forwarding rule's dictionary after the merge: used by the rule, in the region of its URL. */
  ghost predicate IsRuleEntry(pathOf: string -> string, entry: Fields, rule: Fields)
  {
    && entry.address == rule.ipAddress == entry.ipAddress && entry.addressType == EXTERNAL && entry.isEphemeral == EPHEMERAL
    && entry.inUse && entry.users == [rule.selfLink] && entry.usedBy == [ForwardingRule(rule.name)]
    && (if rule.region == "" then entry.region == "global"
        else GetParamInUrl(pathOf, rule.region, "regions") == Success(entry.region))
    && entry.name == rule.name && entry.selfLink == rule.selfLink && entry.loadBalancingScheme == rule.loadBalancingScheme
  }

  /** The VM that a user's URL names. */
  ghost predicate IsUser(pathOf: string -> string, url: string, user: User)
  {
    && user.VmInstance?
    && GetParamInUrl(pathOf, url, "zones") == Success(user.zone)
    && GetParamInUrl(pathOf, url, "instances") == Success(user.name)
  }

  /** A reserved address's dictionary after the merge: all but three entries are kept. */
  ghost predicate IsStaticEntry(pathOf: string -> string, entry: Fields, f: Fields)
  {
    && entry.isEphemeral == STATIC
    && |entry.usedBy| == |f.users| && (forall k :: 0 <= k < |f.users| ==> IsUser(pathOf, f.users[k], entry.usedBy[k]))
    && (if f.region != "" then entry.region == "global" else GetParamInUrl(pathOf, "", "regions") == Success(entry.region))
    && entry.address == f.address && entry.ipAddress == f.ipAddress && entry.addressType == f.addressType
    && entry.loadBalancingScheme == f.loadBalancingScheme && entry.name == f.name && entry.selfLink == f.selfLink
    && entry.inUse == f.inUse && entry.users == f.users
  }

  lemma {:induction false} UsersExact(pathOf: string -> string, users: seq<string>)
    requires GetParseUsers(pathOf, users).Success?
    ensures |GetParseUsers(pathOf, users).value| == |users|
    ensures forall k :: 0 <= k < |users| ==> IsUser(pathOf, users[k], GetParseUsers(pathOf, users).value[k])
  {
    if users != [] {
      UsersExact(pathOf, users[..|users| - 1]);
    }
  }

  lemma StaticIsExact(pathOf: string -> string, f: Fields, entry: Fields)
    requires StaticFields(pathOf, f) == Success(entry)
    ensures IsStaticEntry(pathOf, entry, f)
  {
    UsersExact(pathOf, f.users);
  }

  lemma RuleIsExact(pathOf: string -> string, rule: Fields, entry: Fields)
    requires RuleFields(pathOf, rule) == Success(entry)
    ensures IsRuleEntry(pathOf, entry, rule)
  {
  }

  lemma NatIsExact(pathOf: string -> string, instances: seq<Instance>, p: Place, c: Candidate)
    requires FoundAt(pathOf, instances, p, c)
    ensures IsNatEntry(pathOf, NatFields(c), instances[p.vm], c.natIP)
  {
  }

  // ---------- the merge ----------

  /** The first external rule with its address. */
  ghost predicate FirstExternal(rules: seq<Fields>, j: nat)
  {
    && j < |rules| && rules[j].loadBalancingScheme == EXTERNAL
    && forall i :: 0 <= i < j && rules[i].loadBalancingScheme == EXTERNAL ==> rules[i].ipAddress != rules[j].ipAddress
  }

  /** The entry is made from the first source that has its address, and there from the first that does. */
  ghost predicate FromFirstSource(pathOf: string -> string, addresses: seq<Fields>, rules: seq<Fields>,
                                  instances: seq<Instance>, entry: Fields)
  {
    if IsReserved(addresses, entry.address) then
      exists f :: f in addresses && f.addressType == EXTERNAL && IsStaticEntry(pathOf, entry, f)
    else if IsForwarded(rules, entry.address) then
      exists j: nat :: FirstExternal(rules, j) && IsRuleEntry(pathOf, entry, rules[j])
    else
      exists p, ip :: FirstOffer(instances, p, ip) && IsNatEntry(pathOf, entry, instances[p.vm], ip)
  }

  lemma NatMembership(pathOf: string -> string, instances: seq<Instance>, a: Option<string>)
    requires Candidates(pathOf, instances).Success?
    ensures IsNat(Candidates(pathOf, instances).value, a) <==> IsNatAddress(instances, a)
  {
    var candidates := Candidates(pathOf, instances).value;
    var places := CandidatesExact(pathOf, instances);
    if IsNat(candidates, a) {
      var c :| c in candidates && Some(c.natIP) == a;
      var k :| 0 <= k < |candidates| && candidates[k] == c;
      assert FoundAt(pathOf, instances, places[k], c);
    }
    if IsNatAddress(instances, a) {
      var p, ip :| a == Some(ip) && Offers(instances, p, ip);
      assert p in places;
      var k :| 0 <= k < |places| && places[k] == p;
      assert FoundAt(pathOf, instances, p, candidates[k]);
      assert candidates[k] in candidates;
    }
  }

  lemma NoEarlierOffer(pathOf: string -> string, instances: seq<Instance>, candidates: seq<Candidate>, places: seq<Place>,
                       j: nat, q: Place)
    requires Ordered(places) && AllFound(pathOf, instances, places, candidates) && FirstCandidate(candidates, j)
    requires Offers(instances, q, candidates[j].natIP) && q in places
    ensures !Before(q, places[j])
  {
    var i :| 0 <= i < |places| && places[i] == q;
    assert FoundAt(pathOf, instances, q, candidates[i]);
    assert i >= j;
  }

  lemma FirstIsFirstOffer(pathOf: string -> string, instances: seq<Instance>, entry: Fields)
    requires Candidates(pathOf, instances).Success? && FromCandidate(Candidates(pathOf, instances).value, entry)
    ensures exists p, ip :: FirstOffer(instances, p, ip) && IsNatEntry(pathOf, entry, instances[p.vm], ip)
  {
    var candidates := Candidates(pathOf, instances).value;
    var places := CandidatesExact(pathOf, instances);
    var j :| FirstCandidate(candidates, j) && entry == NatFields(candidates[j]);
    var p, ip := places[j], candidates[j].natIP;
    forall q | Offers(instances, q, ip)
      ensures !Before(q, p)
    {
      assert q in places;
      NoEarlierOffer(pathOf, instances, candidates, places, j, q);
    }
    assert FoundAt(pathOf, instances, p, candidates[j]);
    NatIsExact(pathOf, instances, p, candidates[j]);
    assert FirstOffer(instances, p, ip);
  }

  lemma SourceIsExact(pathOf: string -> string, addresses: seq<Fields>, rules: seq<Fields>, instances: seq<Instance>,
                      entry: Fields)
    requires Candidates(pathOf, instances).Success?
    requires FromItsSource(pathOf, addresses, rules, Candidates(pathOf, instances).value, entry)
    ensures FromFirstSource(pathOf, addresses, rules, instances, entry)
  {
    if IsReserved(addresses, entry.address) {
      var f :| f in addresses && ReservedExternal(f) && StaticFields(pathOf, f) == Success(entry);
      StaticIsExact(pathOf, f, entry);
    } else if IsForwarded(rules, entry.address) {
      var j :| FirstRule(rules, j) && RuleFields(pathOf, rules[j]) == Success(entry);
      RuleIsExact(pathOf, rules[j], entry);
      assert FirstExternal(rules, j);
    } else {
      FirstIsFirstOffer(pathOf, instances, entry);
    }
  }

  /** The static entries are the reserved external addresses one by one. */
  ghost predicate StartsWithReserved(pathOf: string -> string, addresses: seq<Fields>, out: seq<Fields>, positions: seq<nat>)
  {
    && |positions| <= |out|
    && (forall i, j :: 0 <= i < j < |positions| ==> positions[i] < positions[j])
    && (forall i: nat :: i in positions <==> i < |addresses| && addresses[i].addressType == EXTERNAL)
    && (forall k :: 0 <= k < |positions| ==> positions[k] < |addresses| && IsStaticEntry(pathOf, out[k], addresses[positions[k]]))
  }

  /** The positions of the reserved external addresses among the first `n`. */
  function ReservedPositions(addresses: seq<Fields>, n: nat): seq<nat>
    requires n <= |addresses|
  {
    if n == 0 then []
    else ReservedPositions(addresses, n - 1) + (if addresses[n - 1].addressType == EXTERNAL then [n - 1] else [])
  }

  ghost predicate ExternalUpTo(addresses: seq<Fields>, positions: seq<nat>, n: nat)
  {
    && (forall k :: 0 <= k < |positions| ==>
          positions[k] < n && positions[k] < |addresses| && addresses[positions[k]].addressType == EXTERNAL)
    && (forall i, j :: 0 <= i < j < |positions| ==> positions[i] < positions[j])
  }

  lemma {:induction false} PositionsSound(addresses: seq<Fields>, n: nat)
    requires n <= |addresses|
    ensures ExternalUpTo(addresses, ReservedPositions(addresses, n), n)
  {
    if n > 0 {
      PositionsSound(addresses, n - 1);
    }
  }

  lemma {:induction false} PositionsFind(addresses: seq<Fields>, n: nat, i: nat) returns (k: nat)
    requires i < n <= |addresses| && addresses[i].addressType == EXTERNAL
    ensures k < |ReservedPositions(addresses, n)| && ReservedPositions(addresses, n)[k] == i
  {
    if i == n - 1 {
      k := |ReservedPositions(addresses, n - 1)|;
    } else {
      k := PositionsFind(addresses, n - 1, i);
    }
  }

  ghost predicate PickedAt(picked: seq<Fields>, addresses: seq<Fields>, positions: seq<nat>)
  {
    && |picked| == |positions|
    && forall k :: 0 <= k < |positions| ==> positions[k] < |addresses| && picked[k] == addresses[positions[k]]
  }

  lemma {:induction false} ReservedPicked(addresses: seq<Fields>, n: nat)
    requires n <= |addresses|
    ensures PickedAt(Reserved(addresses[..n]), addresses, ReservedPositions(addresses, n))
  {
    if n > 0 {
      assert addresses[..n][..n - 1] == addresses[..n - 1];
      ReservedPicked(addresses, n - 1);
    }
  }

  /**
    The merged list holds exactly the addresses of the three sources. It starts with the
    reserved external addresses, in order and each as often as it is there; every entry is made
    from the first source that has its address; no other address repeats an earlier one.
   */
  lemma MergeOfThreeSources(pathOf: string -> string, addresses: seq<Fields>, rules: seq<Fields>, instances: seq<Instance>)
    returns (positions: seq<nat>)
    requires Merged(pathOf, addresses, rules, instances).Success?
    ensures var out := Merged(pathOf, addresses, rules, instances).value;
            && StartsWithReserved(pathOf, addresses, out, positions)
            && (forall a :: a in Addresses(out) <==>
                              IsReserved(addresses, a) || IsForwarded(rules, a) || IsNatAddress(instances, a))
            && (forall k :: 0 <= k < |out| ==> FromFirstSource(pathOf, addresses, rules, instances, out[k]))
            && (forall k :: 0 <= k < |out| ==> (k < |positions| <==> IsReserved(addresses, out[k].address)))
            && (forall i, k :: 0 <= i < k < |out| && |positions| <= k ==> out[i].address != out[k].address)
  {
    var out := Merged(pathOf, addresses, rules, instances).value;
    MergeOfSourceLists(pathOf, addresses, rules, instances);
    positions := ReservedPositions(addresses, |addresses|);
    assert addresses[..|addresses|] == addresses;
    PositionsSound(addresses, |addresses|);
    ReservedPicked(addresses, |addresses|);
    forall i: nat | i < |addresses| && addresses[i].addressType == EXTERNAL
      ensures i in positions
    {
      var _ := PositionsFind(addresses, |addresses|, i);
    }
    forall k | 0 <= k < |positions|
      ensures IsStaticEntry(pathOf, out[k], addresses[positions[k]])
    {
      assert out[..|positions|][k] == out[k];
      StaticIsExact(pathOf, addresses[positions[k]], out[k]);
    }
    forall a
      ensures IsNat(Candidates(pathOf, instances).value, a) <==> IsNatAddress(instances, a)
    {
      NatMembership(pathOf, instances, a);
    }
    forall k | 0 <= k < |out|
      ensures FromFirstSource(pathOf, addresses, rules, instances, out[k])
    {
      SourceIsExact(pathOf, addresses, rules, instances, out[k]);
    }
  }

  // ---------- when the merge fails ----------

  /** A URL of the dictionary that the merge reads ends in the key it looks for. */
  ghost predicate BadStatic(pathOf: string -> string, f: Fields)
  {
    && f.addressType == EXTERNAL
    && (|| (f.region == "" && GetParamInUrl(pathOf, "", "regions").Failure?)
        || exists url :: && url in f.users
                         && (GetParamInUrl(pathOf, url, "zones").Failure? || GetParamInUrl(pathOf, url, "instances").Failure?))
  }

  /** A rule that the merge adds: external, and with an address that nothing before it has. */
  ghost predicate BadRule(pathOf: string -> string, addresses: seq<Fields>, rules: seq<Fields>, j: nat)
  {
    && FirstExternal(rules, j) && !IsReserved(addresses, rules[j].ipAddress)
    && rules[j].region != "" && GetParamInUrl(pathOf, rules[j].region, "regions").Failure?
  }

  lemma {:induction false} UsersFail(pathOf: string -> string, users: seq<string>)
    ensures GetParseUsers(pathOf, users).Failure? <==>
              exists url :: && url in users
                            && (GetParamInUrl(pathOf, url, "zones").Failure? || GetParamInUrl(pathOf, url, "instances").Failure?)
  {
    if users != [] {
      var front, last := users[..|users| - 1], users[|users| - 1];
      assert users == front + [last];
      assert forall u :: u in users <==> u in front || u == last;
      UsersFail(pathOf, front);
    }
  }

  lemma StaticFails(pathOf: string -> string, f: Fields)
    requires f.addressType == EXTERNAL
    ensures StaticFields(pathOf, f).Failure? <==> BadStatic(pathOf, f)
  {
    UsersFail(pathOf, f.users);
  }

  lemma {:induction false} StaticsFail(pathOf: string -> string, addresses: seq<Fields>)
    ensures AddStatics(pathOf, addresses).Failure? <==> exists f :: f in addresses && BadStatic(pathOf, f)
  {
    if addresses != [] {
      var front, last := addresses[..|addresses| - 1], addresses[|addresses| - 1];
      assert addresses == front + [last];
      assert forall f :: f in addresses <==> f in front || f == last;
      StaticsFail(pathOf, front);
      if last.addressType == EXTERNAL {
        StaticFails(pathOf, last);
      }
    }
  }

  lemma {:induction false} RulesFail(pathOf: string -> string, addresses: seq<Fields>, out: seq<Fields>, rules: seq<Fields>, n: nat)
    requires n <= |rules|
    requires forall a :: a in Addresses(out) <==> IsReserved(addresses, a)
    ensures AddRules(pathOf, out, rules[..n]).Failure? <==> exists j: nat :: j < n && BadRule(pathOf, addresses, rules, j)
  {
    if n > 0 {
      RulesFail(pathOf, addresses, out, rules, n - 1);
      assert rules[..n][..n - 1] == rules[..n - 1];
      if AddRules(pathOf, out, rules[..n - 1]).Success? {
        AddRulesNext(pathOf, out, rules, n - 1);
        LastRuleFails(pathOf, addresses, out, rules, n - 1);
        assert AddRules(pathOf, out, rules[..n]).Failure? <==> BadRule(pathOf, addresses, rules, n - 1);
      }
    }
  }

  /** The next rule is bad exactly when it is external, not listed yet, and its region cannot be read. */
  lemma LastRuleFails(pathOf: string -> string, addresses: seq<Fields>, out: seq<Fields>, rules: seq<Fields>, j: nat)
    requires j < |rules| && AddRules(pathOf, out, rules[..j]).Success?
    requires forall a :: a in Addresses(out) <==> IsReserved(addresses, a)
    ensures BadRule(pathOf, addresses, rules, j) <==>
              && rules[j].loadBalancingScheme == EXTERNAL
              && rules[j].ipAddress !in Addresses(AddRules(pathOf, out, rules[..j]).value)
              && RuleFields(pathOf, rules[j]).Failure?
  {
    RulesFacts(pathOf, out, rules[..j]);
    if rules[j].loadBalancingScheme == EXTERNAL {
      AlreadyListed(addresses, rules, j);
    }
  }

  lemma AlreadyListed(addresses: seq<Fields>, rules: seq<Fields>, j: nat)
    requires j < |rules| && rules[j].loadBalancingScheme == EXTERNAL
    ensures IsForwarded(rules[..j], rules[j].ipAddress) <==> !FirstExternal(rules, j)
  {
    if !FirstExternal(rules, j) {
      var i :| 0 <= i < j && rules[i].loadBalancingScheme == EXTERNAL && rules[i].ipAddress == rules[j].ipAddress;
      assert rules[..j][i] == rules[i] && rules[i] in rules[..j];
    }
  }

  /** The merge fails exactly when a URL it has to read ends in the key: of a reserved address, of a rule it adds, or of a VM. */
  lemma MergeFailsExactlyWhen(pathOf: string -> string, addresses: seq<Fields>, rules: seq<Fields>, instances: seq<Instance>)
    ensures Merged(pathOf, addresses, rules, instances).Failure? <==>
              || (exists f :: f in addresses && BadStatic(pathOf, f))
              || (exists j: nat :: BadRule(pathOf, addresses, rules, j))
              || (exists vm :: vm in instances && GetParamInUrl(pathOf, vm.zoneUrl, "zones").Failure?)
  {
    StaticsFail(pathOf, addresses);
    CandidatesExist(pathOf, instances);
    if AddStatics(pathOf, addresses).Success? {
      StaticsFacts(pathOf, addresses);
      RulesFail(pathOf, addresses, AddStatics(pathOf, addresses).value, rules, |rules|);
      assert rules[..|rules|] == rules;
    }
  }
}
