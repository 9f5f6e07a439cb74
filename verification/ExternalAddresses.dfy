/**
  The external addresses of a project, merged from three sources: reserved addresses, then
  forwarding rules, then the network interfaces of VMs. A side list of the addresses seen so
  far decides whether an ephemeral address is new.
 */
module ExternalAddresses {
  import opened Basics
  import opened Text
  import opened ResourceUrls

  /** An address type or load balancing scheme; only "EXTERNAL" is told apart. */
  datatype Scheme = EXTERNAL | OTHER

  datatype Ephemerality = UNMARKED | STATIC | EPHEMERAL

  /** Who uses an address, as the display names it. */
  datatype User = VmInstance(name: string, zone: string) | ForwardingRule(name: string)

  /** The dictionary entries the merge reads or writes; an entry that is absent is None or empty. */
  datatype Fields = Fields(
    address: Option<string>,
    ipAddress: Option<string>,
    addressType: Scheme,
    loadBalancingScheme: Scheme,
    name: string,
    selfLink: string,
    region: string,
    inUse: bool,
    users: seq<string>,
    usedBy: seq<User>,
    isEphemeral: Ephemerality)

  /** A dictionary as the API client returns it; the merge updates it in place and passes it on. */
  class Record {
    var fields: Fields

    constructor (fields: Fields)
      ensures this.fields == fields
    {
      this.fields := fields;
    }
  }

  datatype AccessConfig = AccessConfig(natIP: Option<string>)

  datatype Instance = Instance(name: string, selfLink: string, zoneUrl: string, interfaces: seq<seq<AccessConfig>>)

  // ---------- one entry ----------

  /** A reserved address's users, each as the VM its URL names. */
  function GetParseUsers(pathOf: string -> string, users: seq<string>): Result<seq<User>, UrlError>
  {
    if users == [] then Success([])
    else
      match (GetParseUsers(pathOf, users[..|users| - 1]),
             GetParamInUrl(pathOf, users[|users| - 1], "zones"),
             GetParamInUrl(pathOf, users[|users| - 1], "instances"))
      case (Success(front), Success(zone), Success(instance)) =>
        Success(front + [VmInstance(instance, zone)])
      case _ => Failure(IndexError)
  }

  predicate ReservedExternal(f: Fields)
  {
    f.addressType == EXTERNAL
  }

  /** The condition on the region is as the source has it: only an empty URL is parsed. */
  function StaticFields(pathOf: string -> string, f: Fields): Result<Fields, UrlError>
  {
    match (if f.region == "" then GetParamInUrl(pathOf, f.region, "regions") else Success("global"),
           GetParseUsers(pathOf, f.users))
    case (Success(region), Success(usedBy)) =>
      Success(f.(region := region, usedBy := usedBy, isEphemeral := STATIC))
    case _ => Failure(IndexError)
  }

  predicate ForwardsExternal(f: Fields)
  {
    f.loadBalancingScheme == EXTERNAL
  }

  function RuleFields(pathOf: string -> string, f: Fields): Result<Fields, UrlError>
  {
    match (if f.region != "" then GetParamInUrl(pathOf, f.region, "regions") else Success("global"))
    case Success(region) =>
      Success(f.(isEphemeral := EPHEMERAL, addressType := EXTERNAL, address := f.ipAddress, region := region,
                 inUse := true, users := [f.selfLink], usedBy := [ForwardingRule(f.name)]))
    case Failure(e) => Failure(e)
  }

  /** A NAT address found on an interface of a VM. */
  datatype Candidate = Candidate(instance: Instance, zone: string, natIP: string)

  function NatFields(c: Candidate): Fields
  {
    Fields(Some(c.natIP), None, EXTERNAL, OTHER, "", "", ParseRegionFromZone(c.zone), true,
           [c.instance.selfLink], [VmInstance(c.instance.name, c.zone)], EPHEMERAL)
  }

  // ---------- the merge as a value ----------

  function Addresses(fs: seq<Fields>): (addresses: seq<Option<string>>)
    ensures |addresses| == |fs|
    ensures forall i :: 0 <= i < |fs| ==> addresses[i] == fs[i].address
  {
    seq(|fs|, i requires 0 <= i < |fs| => fs[i].address)
  }

  function AddStatics(pathOf: string -> string, addresses: seq<Fields>): Result<seq<Fields>, UrlError>
  {
    if addresses == [] then Success([])
    else
      var last := addresses[|addresses| - 1];
      match AddStatics(pathOf, addresses[..|addresses| - 1])
      case Failure(e) => Failure(e)
      case Success(out) =>
        if !ReservedExternal(last) then Success(out)
        else match StaticFields(pathOf, last)
             case Success(entry) => Success(out + [entry])
             case Failure(e) => Failure(e)
  }

  function AddRules(pathOf: string -> string, out: seq<Fields>, rules: seq<Fields>): Result<seq<Fields>, UrlError>
  {
    if rules == [] then Success(out)
    else
      var last := rules[|rules| - 1];
      match AddRules(pathOf, out, rules[..|rules| - 1])
      case Failure(e) => Failure(e)
      case Success(so) =>
        if !ForwardsExternal(last) || last.ipAddress in Addresses(so) then Success(so)
        else match RuleFields(pathOf, last)
             case Success(entry) => Success(so + [entry])
             case Failure(e) => Failure(e)
  }

  function AddCandidates(out: seq<Fields>, candidates: seq<Candidate>): seq<Fields>
  {
    if candidates == [] then out
    else
      var last := candidates[|candidates| - 1];
      var so := AddCandidates(out, candidates[..|candidates| - 1]);
      if Some(last.natIP) in Addresses(so) then so else so + [NatFields(last)]
  }

  function InterfaceCandidates(instance: Instance, zone: string, configs: seq<AccessConfig>): seq<Candidate>
  {
    if configs == [] then []
    else InterfaceCandidates(instance, zone, configs[..|configs| - 1]) +
         (match configs[|configs| - 1].natIP case Some(ip) => [Candidate(instance, zone, ip)] case None => [])
  }

  function InstanceCandidates(instance: Instance, zone: string, interfaces: seq<seq<AccessConfig>>): seq<Candidate>
  {
    if interfaces == [] then []
    else InstanceCandidates(instance, zone, interfaces[..|interfaces| - 1]) +
         InterfaceCandidates(instance, zone, interfaces[|interfaces| - 1])
  }

  /** All NAT addresses in the order of VMs, interfaces and configurations. */
  function Candidates(pathOf: string -> string, instances: seq<Instance>): Result<seq<Candidate>, UrlError>
  {
    if instances == [] then Success([])
    else
      var last := instances[|instances| - 1];
      match (Candidates(pathOf, instances[..|instances| - 1]), GetParamInUrl(pathOf, last.zoneUrl, "zones"))
      case (Success(front), Success(zone)) => Success(front + InstanceCandidates(last, zone, last.interfaces))
      case _ => Failure(IndexError)
  }

  function Merged(pathOf: string -> string, addresses: seq<Fields>, rules: seq<Fields>, instances: seq<Instance>)
    : Result<seq<Fields>, UrlError>
  {
    match AddStatics(pathOf, addresses)
    case Failure(e) => Failure(e)
    case Success(statics) =>
      match AddRules(pathOf, statics, rules)
      case Failure(e) => Failure(e)
      case Success(out) =>
        match Candidates(pathOf, instances)
        case Failure(e) => Failure(e)
        case Success(candidates) => Success(AddCandidates(out, candidates))
  }

  // ---------- the same, in place ----------

  ghost function View(records: seq<Record>): (fs: seq<Fields>)
    reads records
    ensures |fs| == |records|
    ensures forall i :: 0 <= i < |fs| ==> fs[i] == records[i].fields
  {
    seq(|records|, i requires 0 <= i < |records| reads records => records[i].fields)
  }

  ghost predicate Distinct(records: seq<Record>)
  {
    forall i, j :: 0 <= i < j < |records| ==> records[i] != records[j]
  }

  lemma {:induction false} AddStaticsFailEarly(pathOf: string -> string, addresses: seq<Fields>, i: nat)
    requires i <= |addresses| && AddStatics(pathOf, addresses[..i]).Failure?
    ensures AddStatics(pathOf, addresses) == AddStatics(pathOf, addresses[..i])
  {
    if i < |addresses| {
      assert addresses[..|addresses| - 1][..i] == addresses[..i];
      AddStaticsFailEarly(pathOf, addresses[..|addresses| - 1], i);
    } else {
      assert addresses[..i] == addresses;
    }
  }

  lemma {:induction false} AddRulesFailEarly(pathOf: string -> string, out: seq<Fields>, rules: seq<Fields>, i: nat)
    requires i <= |rules| && AddRules(pathOf, out, rules[..i]).Failure?
    ensures AddRules(pathOf, out, rules) == AddRules(pathOf, out, rules[..i])
  {
    if i < |rules| {
      assert rules[..|rules| - 1][..i] == rules[..i];
      AddRulesFailEarly(pathOf, out, rules[..|rules| - 1], i);
    } else {
      assert rules[..i] == rules;
    }
  }

  lemma {:induction false} CandidatesFailEarly(pathOf: string -> string, instances: seq<Instance>, i: nat)
    requires i <= |instances| && Candidates(pathOf, instances[..i]).Failure?
    ensures Candidates(pathOf, instances) == Candidates(pathOf, instances[..i])
  {
    if i < |instances| {
      assert instances[..|instances| - 1][..i] == instances[..i];
      CandidatesFailEarly(pathOf, instances[..|instances| - 1], i);
    } else {
      assert instances[..i] == instances;
    }
  }

  /** Updates a dictionary in place and lists it, with its address on the side list. */
  method TakeOver(record: Record, fields: Fields, vos0: seq<Record>, dup0: seq<Option<string>>)
    returns (vos: seq<Record>, onlyCheckDup: seq<Option<string>>)
    requires record !in vos0
    requires dup0 == Addresses(View(vos0))
    modifies record
    ensures record.fields == fields && vos == vos0 + [record]
    ensures View(vos) == old(View(vos0)) + [fields]
    ensures onlyCheckDup == Addresses(View(vos))
  {
    record.fields := fields;
    onlyCheckDup := dup0 + [fields.address];
    vos := vos0 + [record];
    assert View(vos0) == old(View(vos0));
    assert View(vos) == View(vos0) + [fields];
  }

  /** First loop: mark the reserved external addresses as static and take them over. */
  method MergeStatics(pathOf: string -> string, addresses: seq<Record>)
    returns (r: Result<(seq<Record>, seq<Option<string>>), UrlError>)
    requires Distinct(addresses)
    modifies addresses
    ensures r.Success? ==> forall v :: v in r.value.0 ==> v in addresses
    ensures match AddStatics(pathOf, old(View(addresses)))
            case Failure(e) => r == Failure(e)
            case Success(out) => r.Success? && View(r.value.0) == out && r.value.1 == Addresses(out)
  {
    var vos: seq<Record> := [];
    var onlyCheckDup: seq<Option<string>> := [];
    ghost var start := View(addresses);
    for i := 0 to |addresses|
      invariant forall v :: v in vos ==> v in addresses[..i]
      invariant forall k :: i <= k < |addresses| ==> addresses[k].fields == start[k]
      invariant AddStatics(pathOf, start[..i]) == Success(View(vos))
      invariant onlyCheckDup == Addresses(View(vos))
    {
      var record := addresses[i];
      assert start[..i + 1][..i] == start[..i];
      if ReservedExternal(record.fields) {
        var updated := StaticFields(pathOf, record.fields);
        match updated {
          case Failure(e) =>
            AddStaticsFailEarly(pathOf, start, i + 1);
            return Failure(e);
          case Success(fields) =>
            vos, onlyCheckDup := TakeOver(record, fields, vos, onlyCheckDup);
        }
      }
    }
    assert start[..|addresses|] == start;
    r := Success((vos, onlyCheckDup));
  }

  lemma AddRulesNext(pathOf: string -> string, out: seq<Fields>, rules: seq<Fields>, i: nat)
    requires i < |rules| && AddRules(pathOf, out, rules[..i]).Success?
    ensures AddRules(pathOf, out, rules[..i + 1]) ==
              var so := AddRules(pathOf, out, rules[..i]).value;
              if !ForwardsExternal(rules[i]) || rules[i].ipAddress in Addresses(so) then Success(so)
              else match RuleFields(pathOf, rules[i])
                   case Success(entry) => Success(so + [entry])
                   case Failure(e) => Failure(e)
  {
    assert rules[..i + 1][..i] == rules[..i];
  }

  /** Second loop: forwarding rules whose address is not listed yet. */
  method MergeRules(pathOf: string -> string, rules: seq<Record>, vos0: seq<Record>, dup0: seq<Option<string>>)
    returns (r: Result<(seq<Record>, seq<Option<string>>), UrlError>)
    requires Distinct(rules) && (forall v :: v in vos0 ==> v !in rules)
    requires dup0 == Addresses(View(vos0))
    modifies rules
    ensures r.Success? ==> forall v :: v in r.value.0 ==> v in vos0 || v in rules
    ensures match AddRules(pathOf, old(View(vos0)), old(View(rules)))
            case Failure(e) => r == Failure(e)
            case Success(out) => r.Success? && View(r.value.0) == out && r.value.1 == Addresses(out)
  {
    var vos, onlyCheckDup := vos0, dup0;
    ghost var base, start := View(vos0), View(rules);
    for i := 0 to |rules|
      invariant forall v :: v in vos ==> v in vos0 || v in rules[..i]
      invariant forall k :: i <= k < |rules| ==> rules[k].fields == start[k]
      invariant AddRules(pathOf, base, start[..i]) == Success(View(vos))
      invariant onlyCheckDup == Addresses(View(vos))
    {
      var record := rules[i];
      AddRulesNext(pathOf, base, start, i);
      if ForwardsExternal(record.fields) && record.fields.ipAddress !in onlyCheckDup {
        var updated := RuleFields(pathOf, record.fields);
        match updated {
          case Failure(e) =>
            AddRulesFailEarly(pathOf, base, start, i + 1);
            return Failure(e);
          case Success(fields) =>
            vos, onlyCheckDup := TakeOver(record, fields, vos, onlyCheckDup);
        }
      }
    }
    assert start[..|rules|] == start;
    r := Success((vos, onlyCheckDup));
  }

  lemma {:induction false} AddCandidatesAppend(out: seq<Fields>, a: seq<Candidate>, b: seq<Candidate>)
    ensures AddCandidates(out, a + b) == AddCandidates(AddCandidates(out, a), b)
  {
    if b == [] {
      assert a + b == a;
    } else {
      assert (a + b)[..|a + b| - 1] == a + b[..|b| - 1];
      AddCandidatesAppend(out, a, b[..|b| - 1]);
    }
  }

  /** One NAT address: a new dictionary unless the side list has the address. */
  method MergeCandidate(candidate: Candidate, vos0: seq<Record>, dup0: seq<Option<string>>)
    returns (vos: seq<Record>, onlyCheckDup: seq<Option<string>>)
    requires dup0 == Addresses(View(vos0))
    ensures forall v :: v in vos ==> v in vos0 || fresh(v)
    ensures View(vos) == AddCandidates(View(vos0), [candidate])
    ensures onlyCheckDup == Addresses(View(vos))
  {
    vos, onlyCheckDup := vos0, dup0;
    assert [candidate][..0] == [];
    if Some(candidate.natIP) !in onlyCheckDup {
      var externalIp := new Record(NatFields(candidate));
      onlyCheckDup := onlyCheckDup + [Some(candidate.natIP)];
      vos := vos + [externalIp];
      assert View(vos) == View(vos0) + [NatFields(candidate)];
    }
  }

  method MergeInterface(instance: Instance, zone: string, configs: seq<AccessConfig>,
                        vos0: seq<Record>, dup0: seq<Option<string>>)
    returns (vos: seq<Record>, onlyCheckDup: seq<Option<string>>)
    requires dup0 == Addresses(View(vos0))
    ensures forall v :: v in vos ==> v in vos0 || fresh(v)
    ensures View(vos) == AddCandidates(View(vos0), InterfaceCandidates(instance, zone, configs))
    ensures onlyCheckDup == Addresses(View(vos))
  {
    vos, onlyCheckDup := vos0, dup0;
    for k := 0 to |configs|
      invariant forall v :: v in vos ==> v in vos0 || fresh(v)
      invariant View(vos) == AddCandidates(View(vos0), InterfaceCandidates(instance, zone, configs[..k]))
      invariant onlyCheckDup == Addresses(View(vos))
    {
      assert configs[..k + 1][..k] == configs[..k];
      var natIP := configs[k].natIP;
      ghost var earlier := InterfaceCandidates(instance, zone, configs[..k]);
      if natIP.None? {
        assert InterfaceCandidates(instance, zone, configs[..k + 1]) == earlier;
      } else {
        var candidate := Candidate(instance, zone, natIP.value);
        assert InterfaceCandidates(instance, zone, configs[..k + 1]) == earlier + [candidate];
        AddCandidatesAppend(View(vos0), earlier, [candidate]);
        vos, onlyCheckDup := MergeCandidate(candidate, vos, onlyCheckDup);
      }
    }
    assert configs[..|configs|] == configs;
  }

  method MergeInstance(instance: Instance, zone: string, vos0: seq<Record>, dup0: seq<Option<string>>)
    returns (vos: seq<Record>, onlyCheckDup: seq<Option<string>>)
    requires dup0 == Addresses(View(vos0))
    ensures forall v :: v in vos ==> v in vos0 || fresh(v)
    ensures View(vos) == AddCandidates(View(vos0), InstanceCandidates(instance, zone, instance.interfaces))
    ensures onlyCheckDup == Addresses(View(vos))
  {
    vos, onlyCheckDup := vos0, dup0;
    for j := 0 to |instance.interfaces|
      invariant forall v :: v in vos ==> v in vos0 || fresh(v)
      invariant View(vos) == AddCandidates(View(vos0), InstanceCandidates(instance, zone, instance.interfaces[..j]))
      invariant onlyCheckDup == Addresses(View(vos))
    {
      assert instance.interfaces[..j + 1][..j] == instance.interfaces[..j];
      AddCandidatesAppend(View(vos0), InstanceCandidates(instance, zone, instance.interfaces[..j]),
                          InterfaceCandidates(instance, zone, instance.interfaces[j]));
      vos, onlyCheckDup := MergeInterface(instance, zone, instance.interfaces[j], vos, onlyCheckDup);
    }
    assert instance.interfaces[..|instance.interfaces|] == instance.interfaces;
  }

  /** Third loop: a new dictionary for each NAT address that is not listed yet. */
  method MergeInstances(pathOf: string -> string, instances: seq<Instance>, vos0: seq<Record>, dup0: seq<Option<string>>)
    returns (r: Result<seq<Record>, UrlError>)
    requires dup0 == Addresses(View(vos0))
    ensures match Candidates(pathOf, instances)
            case Failure(e) => r == Failure(e)
            case Success(candidates) => r.Success? && View(r.value) == AddCandidates(View(vos0), candidates)
  {
    var vos, onlyCheckDup := vos0, dup0;
    for i := 0 to |instances|
      invariant forall v :: v in vos ==> v in vos0 || fresh(v)
      invariant Candidates(pathOf, instances[..i]).Success?
      invariant View(vos) == AddCandidates(View(vos0), Candidates(pathOf, instances[..i]).value)
      invariant onlyCheckDup == Addresses(View(vos))
    {
      assert instances[..i + 1][..i] == instances[..i];
      var zone := GetParamInUrl(pathOf, instances[i].zoneUrl, "zones");
      match zone {
        case Failure(e) =>
          CandidatesFailEarly(pathOf, instances, i + 1);
          return Failure(e);
        case Success(name) =>
          AddCandidatesAppend(View(vos0), Candidates(pathOf, instances[..i]).value,
                              InstanceCandidates(instances[i], name, instances[i].interfaces));
          vos, onlyCheckDup := MergeInstance(instances[i], name, vos, onlyCheckDup);
      }
    }
    assert instances[..|instances|] == instances;
    r := Success(vos);
  }

  method GetExternalIpAddresses(pathOf: string -> string, addresses: seq<Record>, instances: seq<Instance>, rules: seq<Record>)
    returns (r: Result<seq<Record>, UrlError>)
    requires Distinct(addresses) && Distinct(rules) && (forall a :: a in addresses ==> a !in rules)
    modifies addresses, rules
    ensures match Merged(pathOf, old(View(addresses)), old(View(rules)), instances)
            case Failure(e) => r == Failure(e)
            case Success(out) => r.Success? && View(r.value) == out
  {
    ghost var ruleFields := View(rules);
    var statics := MergeStatics(pathOf, addresses);
    match statics {
      case Failure(e) => return Failure(e);
      case Success(first) =>
        assert forall k :: 0 <= k < |rules| ==> rules[k] in rules && rules[k] !in addresses;
        assert View(rules) == ruleFields;
        var withRules := MergeRules(pathOf, rules, first.0, first.1);
        match withRules {
          case Failure(e) => return Failure(e);
          case Success(second) =>
            r := MergeInstances(pathOf, instances, second.0, second.1);
        }
    }
  }

  // ---------- where every entry comes from ----------

  ghost predicate IsReserved(addresses: seq<Fields>, a: Option<string>)
  {
    exists f :: f in addresses && f.addressType == EXTERNAL && f.address == a
  }

  ghost predicate IsForwarded(rules: seq<Fields>, a: Option<string>)
  {
    exists f :: f in rules && f.loadBalancingScheme == EXTERNAL && f.ipAddress == a
  }

  ghost predicate IsNat(candidates: seq<Candidate>, a: Option<string>)
  {
    exists c :: c in candidates && Some(c.natIP) == a
  }

  /** The first external rule with its address. */
  ghost predicate FirstRule(rules: seq<Fields>, j: int)
  {
    && 0 <= j < |rules| && ForwardsExternal(rules[j])
    && forall i :: 0 <= i < j && ForwardsExternal(rules[i]) ==> rules[i].ipAddress != rules[j].ipAddress
  }

  ghost predicate FirstCandidate(candidates: seq<Candidate>, j: int)
  {
    0 <= j < |candidates| && forall i :: 0 <= i < j ==> candidates[i].natIP != candidates[j].natIP
  }

  /** Made from the first external rule with its address. */
  ghost predicate FromRule(pathOf: string -> string, rules: seq<Fields>, entry: Fields)
  {
    exists j :: FirstRule(rules, j) && rules[j].ipAddress == entry.address && RuleFields(pathOf, rules[j]) == Success(entry)
  }

  /** Made from the first VM interface with its address. */
  ghost predicate FromCandidate(candidates: seq<Candidate>, entry: Fields)
  {
    exists j :: FirstCandidate(candidates, j) && Some(candidates[j].natIP) == entry.address && entry == NatFields(candidates[j])
  }

  /** The reserved external addresses, in order. */
  function Reserved(addresses: seq<Fields>): seq<Fields>
  {
    if addresses == [] then []
    else Reserved(addresses[..|addresses| - 1]) +
         (if ReservedExternal(addresses[|addresses| - 1]) then [addresses[|addresses| - 1]] else [])
  }

  lemma {:induction false} ReservedMember(addresses: seq<Fields>, f: Fields)
    ensures f in Reserved(addresses) <==> f in addresses && ReservedExternal(f)
  {
    if addresses != [] {
      var front, last := addresses[..|addresses| - 1], addresses[|addresses| - 1];
      assert addresses == front + [last];
      ReservedMember(front, f);
    }
  }

  /** `out` is the list of the reserved addresses, each with its own entries filled in. */
  ghost predicate AreStatics(pathOf: string -> string, reserved: seq<Fields>, out: seq<Fields>)
  {
    && |out| == |reserved|
    && forall k :: 0 <= k < |out| ==> StaticFields(pathOf, reserved[k]) == Success(out[k])
  }

  /** The static entries are exactly the reserved external addresses, in order, each once per mention. */
  lemma {:induction false} StaticsExact(pathOf: string -> string, addresses: seq<Fields>)
    requires AddStatics(pathOf, addresses).Success?
    ensures AreStatics(pathOf, Reserved(addresses), AddStatics(pathOf, addresses).value)
  {
    if addresses != [] {
      StaticsExact(pathOf, addresses[..|addresses| - 1]);
    }
  }

  lemma StaticsFacts(pathOf: string -> string, addresses: seq<Fields>)
    requires AddStatics(pathOf, addresses).Success?
    ensures var out := AddStatics(pathOf, addresses).value;
            && AreStatics(pathOf, Reserved(addresses), out)
            && (forall k :: 0 <= k < |out| ==> out[k].isEphemeral == STATIC && FromReserved(pathOf, addresses, out[k]))
            && (forall a :: a in Addresses(out) <==> IsReserved(addresses, a))
  {
    StaticsExact(pathOf, addresses);
    var out, reserved := AddStatics(pathOf, addresses).value, Reserved(addresses);
    forall k | 0 <= k < |out|
      ensures FromReserved(pathOf, addresses, out[k]) && IsReserved(addresses, out[k].address)
    {
      assert reserved[k] in reserved;
      ReservedMember(addresses, reserved[k]);
    }
    forall a | IsReserved(addresses, a)
      ensures a in Addresses(out)
    {
      var f :| f in addresses && ReservedExternal(f) && f.address == a;
      ReservedMember(addresses, f);
      var k :| 0 <= k < |reserved| && reserved[k] == f;
      assert Addresses(out)[k] == a;
    }
  }

  /** Made from a reserved external address. */
  ghost predicate FromReserved(pathOf: string -> string, addresses: seq<Fields>, entry: Fields)
  {
    exists f :: f in addresses && ReservedExternal(f) && f.address == entry.address
                && StaticFields(pathOf, f) == Success(entry)
  }

  /** From position `n` on, no address repeats an earlier one. */
  ghost predicate NewFrom(addresses: seq<Option<string>>, n: nat)
  {
    forall i, k :: 0 <= i < k < |addresses| && n <= k ==> addresses[i] != addresses[k]
  }

  lemma NewFromAppend(addresses: seq<Option<string>>, n: nat, a: Option<string>)
    requires NewFrom(addresses, n) && a !in addresses
    ensures NewFrom(addresses + [a], n)
  {
  }

  lemma ForwardedStep(front: seq<Fields>, last: Fields, a: Option<string>)
    ensures IsForwarded(front + [last], a) <==> IsForwarded(front, a) || (ForwardsExternal(last) && last.ipAddress == a)
  {
    assert last in front + [last];
    assert forall f :: f in front + [last] <==> f in front || f == last;
  }

  /** One more rule: nothing changes, or one new address joins. */
  lemma RuleStep(pathOf: string -> string, out: seq<Fields>, front: seq<Fields>, last: Fields)
    requires AddRules(pathOf, out, front + [last]).Success?
    ensures AddRules(pathOf, out, front).Success?
    ensures var before := AddRules(pathOf, out, front).value;
            var after := AddRules(pathOf, out, front + [last]).value;
            if ForwardsExternal(last) && last.ipAddress !in Addresses(before)
            then RuleFields(pathOf, last).Success? && after == before + [RuleFields(pathOf, last).value]
                 && Addresses(after) == Addresses(before) + [last.ipAddress]
            else after == before
  {
    assert (front + [last])[..|front|] == front;
  }

  /** The entries the rules add: new, and distinct from all entries before them. */
  lemma {:induction false} RulesFacts(pathOf: string -> string, out: seq<Fields>, rules: seq<Fields>)
    requires AddRules(pathOf, out, rules).Success?
    ensures var so := AddRules(pathOf, out, rules).value;
            && out <= so && NewFrom(Addresses(so), |out|)
            && (forall a :: a in Addresses(so) <==> a in Addresses(out) || IsForwarded(rules, a))
  {
    if rules == [] {
      assert forall a :: !IsForwarded(rules, a);
    } else {
      var front, last := rules[..|rules| - 1], rules[|rules| - 1];
      assert rules == front + [last];
      RuleStep(pathOf, out, front, last);
      RulesFacts(pathOf, out, front);
      var before := Addresses(AddRules(pathOf, out, front).value);
      if last.ipAddress !in before {
        NewFromAppend(before, |out|, last.ipAddress);
      }
      forall a
        ensures a in Addresses(AddRules(pathOf, out, rules).value) <==> a in Addresses(out) || IsForwarded(rules, a)
      {
        ForwardedStep(front, last, a);
      }
    }
  }

  /** Each entry the rules add is made from the first external rule with its address. */
  lemma {:induction false} RulesOrigin(pathOf: string -> string, out: seq<Fields>, rules: seq<Fields>, k: nat)
    requires AddRules(pathOf, out, rules).Success?
    requires |out| <= k < |AddRules(pathOf, out, rules).value|
    ensures var entry := AddRules(pathOf, out, rules).value[k];
            FromRule(pathOf, rules, entry) && entry.isEphemeral == EPHEMERAL
  {
    var front, last := rules[..|rules| - 1], rules[|rules| - 1];
    assert rules == front + [last];
    RuleStep(pathOf, out, front, last);
    RulesFacts(pathOf, out, front);
    var before, after := AddRules(pathOf, out, front).value, AddRules(pathOf, out, rules).value;
    if k < |before| {
      RulesOrigin(pathOf, out, front, k);
      var j :| FirstRule(front, j) && front[j].ipAddress == before[k].address
               && RuleFields(pathOf, front[j]) == Success(before[k]);
      assert FirstRule(rules, j) && rules[j] == front[j];
    } else {
      assert FirstRule(rules, |front|) by {
        forall i | 0 <= i < |front| && ForwardsExternal(rules[i])
          ensures rules[i].ipAddress != last.ipAddress
        {
          assert front[i] in front && IsForwarded(front, front[i].ipAddress);
        }
      }
    }
  }

  lemma CandidateStep(out: seq<Fields>, front: seq<Candidate>, last: Candidate)
    ensures var before, after := AddCandidates(out, front), AddCandidates(out, front + [last]);
            if Some(last.natIP) in Addresses(before) then after == before
            else after == before + [NatFields(last)] && Addresses(after) == Addresses(before) + [Some(last.natIP)]
  {
    assert (front + [last])[..|front|] == front;
  }

  lemma NatStep(front: seq<Candidate>, last: Candidate, a: Option<string>)
    ensures IsNat(front + [last], a) <==> IsNat(front, a) || Some(last.natIP) == a
  {
    assert last in front + [last];
    assert forall c :: c in front + [last] <==> c in front || c == last;
  }

  /** The entries the interfaces add: new, and distinct from all entries before them. */
  lemma {:induction false} CandidatesFacts(out: seq<Fields>, candidates: seq<Candidate>)
    ensures var so := AddCandidates(out, candidates);
            && out <= so && NewFrom(Addresses(so), |out|)
            && (forall a :: a in Addresses(so) <==> a in Addresses(out) || IsNat(candidates, a))
  {
    if candidates == [] {
      assert forall a :: !IsNat(candidates, a);
    } else {
      var front, last := candidates[..|candidates| - 1], candidates[|candidates| - 1];
      assert candidates == front + [last];
      CandidateStep(out, front, last);
      CandidatesFacts(out, front);
      var before := Addresses(AddCandidates(out, front));
      if Some(last.natIP) !in before {
        NewFromAppend(before, |out|, Some(last.natIP));
      }
      forall a
        ensures a in Addresses(AddCandidates(out, candidates)) <==> a in Addresses(out) || IsNat(candidates, a)
      {
        NatStep(front, last, a);
      }
    }
  }

  /** Each entry the interfaces add is made from the first interface with its address. */
  lemma {:induction false} CandidatesOrigin(out: seq<Fields>, candidates: seq<Candidate>, k: nat)
    requires |out| <= k < |AddCandidates(out, candidates)|
    ensures var entry := AddCandidates(out, candidates)[k];
            FromCandidate(candidates, entry) && entry.isEphemeral == EPHEMERAL
  {
    var front, last := candidates[..|candidates| - 1], candidates[|candidates| - 1];
    assert candidates == front + [last];
    CandidateStep(out, front, last);
    CandidatesFacts(out, front);
    var before := AddCandidates(out, front);
    if k < |before| {
      CandidatesOrigin(out, front, k);
      var j :| FirstCandidate(front, j) && Some(front[j].natIP) == before[k].address && before[k] == NatFields(front[j]);
      assert FirstCandidate(candidates, j);
    } else {
      assert FirstCandidate(candidates, |front|) by {
        forall i | 0 <= i < |front|
          ensures candidates[i].natIP != last.natIP
        {
          assert front[i] in front && IsNat(front, Some(front[i].natIP));
        }
      }
    }
  }

  /** The entry at `i` is what the sources say about its address, the earlier source first. */
  ghost predicate FromItsSource(pathOf: string -> string, addresses: seq<Fields>, rules: seq<Fields>,
                                candidates: seq<Candidate>, entry: Fields)
  {
    if IsReserved(addresses, entry.address) then FromReserved(pathOf, addresses, entry)
    else if IsForwarded(rules, entry.address) then FromRule(pathOf, rules, entry)
    else FromCandidate(candidates, entry)
  }

  lemma LaterEntries(pathOf: string -> string, addresses: seq<Fields>, statics: seq<Fields>, rules: seq<Fields>,
                     withRules: seq<Fields>, candidates: seq<Candidate>, out: seq<Fields>, k: nat)
    requires AddStatics(pathOf, addresses) == Success(statics)
    requires AddRules(pathOf, statics, rules) == Success(withRules)
    requires out == AddCandidates(withRules, candidates)
    requires |statics| <= k < |out|
    ensures out[k].isEphemeral == EPHEMERAL && !IsReserved(addresses, out[k].address)
    ensures FromItsSource(pathOf, addresses, rules, candidates, out[k])
  {
    StaticsFacts(pathOf, addresses);
    RulesFacts(pathOf, statics, rules);
    CandidatesFacts(withRules, candidates);
    assert out[k].address !in Addresses(statics) by {
      assert forall i :: 0 <= i < |statics| ==> Addresses(statics)[i] == out[i].address;
    }
    if k < |withRules| {
      assert out[k] == withRules[k];
      RulesOrigin(pathOf, statics, rules, k);
      var j :| FirstRule(rules, j) && rules[j].ipAddress == out[k].address && RuleFields(pathOf, rules[j]) == Success(out[k]);
      assert rules[j] in rules && IsForwarded(rules, out[k].address);
    } else {
      CandidatesOrigin(withRules, candidates, k);
      assert out[k].address !in Addresses(withRules) by {
        assert forall i :: 0 <= i < |withRules| ==> Addresses(withRules)[i] == out[i].address;
      }
    }
  }

  /**
    The merged list starts with the reserved addresses, in order and as often as they are
    there, and holds exactly the addresses of the three sources. Each entry comes from the
    first source that has its address, and no ephemeral address is listed twice.
   */
  lemma MergeOfSourceLists(pathOf: string -> string, addresses: seq<Fields>, rules: seq<Fields>, instances: seq<Instance>)
    requires Merged(pathOf, addresses, rules, instances).Success?
    ensures Candidates(pathOf, instances).Success?
    ensures var out := Merged(pathOf, addresses, rules, instances).value;
            var candidates := Candidates(pathOf, instances).value;
            var n := |Reserved(addresses)|;
            && n <= |out| && AreStatics(pathOf, Reserved(addresses), out[..n])
            && (forall a :: a in Addresses(out) <==> IsReserved(addresses, a) || IsForwarded(rules, a) || IsNat(candidates, a))
            && (forall k :: 0 <= k < |out| ==> FromItsSource(pathOf, addresses, rules, candidates, out[k]))
            && (forall k :: 0 <= k < |out| ==> out[k].isEphemeral == if k < n then STATIC else EPHEMERAL)
            && (forall k :: 0 <= k < |out| ==> (k < n <==> IsReserved(addresses, out[k].address)))
            && (forall i, k :: 0 <= i < k < |out| && n <= k ==> out[i].address != out[k].address)
  {
    var statics := AddStatics(pathOf, addresses).value;
    var withRules := AddRules(pathOf, statics, rules).value;
    var candidates := Candidates(pathOf, instances).value;
    var out := AddCandidates(withRules, candidates);
    StaticsFacts(pathOf, addresses);
    RulesFacts(pathOf, statics, rules);
    CandidatesFacts(withRules, candidates);
    assert out[..|statics|] == statics;
    forall k | 0 <= k < |out|
      ensures FromItsSource(pathOf, addresses, rules, candidates, out[k])
      ensures out[k].isEphemeral == if k < |statics| then STATIC else EPHEMERAL
      ensures k < |statics| <==> IsReserved(addresses, out[k].address)
    {
      if k < |statics| {
        assert out[k] == withRules[k] == statics[k] && Addresses(statics)[k] in Addresses(statics);
      } else {
        LaterEntries(pathOf, addresses, statics, rules, withRules, candidates, out, k);
      }
    }
    NewAddresses(statics, withRules, out);
  }

  /** What the rules and the VMs add repeats no address. */
  lemma NewAddresses(statics: seq<Fields>, withRules: seq<Fields>, out: seq<Fields>)
    requires statics <= withRules <= out
    requires NewFrom(Addresses(withRules), |statics|) && NewFrom(Addresses(out), |withRules|)
    ensures forall i, k :: 0 <= i < k < |out| && |statics| <= k ==> out[i].address != out[k].address
  {
    forall i, k | 0 <= i < k < |out| && |statics| <= k
      ensures out[i].address != out[k].address
    {
      assert out[i].address == Addresses(out)[i] && out[k].address == Addresses(out)[k];
      if k < |withRules| {
        assert out[i].address == Addresses(withRules)[i] && out[k].address == Addresses(withRules)[k];
      }
    }
  }
}
