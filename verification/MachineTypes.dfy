/**
  Cores and memory of the VMs. The list of machine types is searched first; on a miss the
  type is fetched and appended, so that later VMs find it. One list serves all VMs of a run.
 */
module MachineTypes {
  import opened Basics
  import opened Text
  import opened Sequences
  import opened Rounding

  /** An absent self link or name is the empty text, an absent memory is zero. */
  datatype MachineType = MachineType(selfLink: string, name: string, guestCpus: Option<int>, memoryMb: int)

  datatype FetchError = FetchError(message: string)

  datatype Hardware = Hardware(core: Option<int>, memory: real)

  /** One VM of the run, with what a fetch of its machine type would give at that moment. */
  datatype Vm = Vm(machineType: string, response: Result<MachineType, FetchError>)

  function NameOf(machineType: string): string
  {
    LastPiece(machineType, '/')
  }

  function Gib(memoryMb: int): real
  {
    Round2(memoryMb as real / 1024.0)
  }

  /** 1024 megabytes are one gigabyte, and whole gigabytes are shown as they are. */
  lemma WholeGigabytes(n: int)
    ensures Gib(1024 * n) == n as real
  {
    assert (1024 * n) as real / 1024.0 == n as real;
    NearestHundredth(n as real, 100 * n);
    assert (100 * n) as real / 100.0 == n as real;
  }

  /** What is shown is off by half a hundredth of a gigabyte at most. */
  lemma ShownGigabytes(memoryMb: int)
    ensures -5.12 <= 1024.0 * Gib(memoryMb) - memoryMb as real <= 5.12
  {
    var exact := memoryMb as real / 1024.0;
    assert exact * 1024.0 == memoryMb as real;
  }

  /** The name is what follows the last slash. */
  lemma NameFollowsTheLastSlash(machineType: string)
    ensures '/' !in NameOf(machineType)
    ensures machineType == NameOf(machineType) || exists before :: machineType == before + "/" + NameOf(machineType)
  {
    LastPieceIsLastOfSplit(machineType, '/');
    LastPieceIsSuffix(machineType, '/');
  }

  predicate Matches(entry: MachineType, machineType: string)
  {
    entry.selfLink == machineType || entry.name == NameOf(machineType)
  }

  function CoreAndMemory(machineType: string, entries: seq<MachineType>): (Option<int>, real)
  {
    if entries == [] then (Some(0), 0.0)
    else if Matches(entries[0], machineType) then (entries[0].guestCpus, Gib(entries[0].memoryMb))
    else CoreAndMemory(machineType, entries[1..])
  }

  method GetCoreAndMemory(machineType: string, entries: seq<MachineType>) returns (cpu: Option<int>, memory: real)
    ensures (cpu, memory) == CoreAndMemory(machineType, entries)
  {
    cpu, memory := Some(0), 0.0;
    for i := 0 to |entries|
      invariant (cpu, memory) == (Some(0), 0.0)
      invariant CoreAndMemory(machineType, entries) == CoreAndMemory(machineType, entries[i..])
    {
      if Matches(entries[i], machineType) {
        cpu := entries[i].guestCpus;
        memory := Gib(entries[i].memoryMb);
        break;
      }
      assert entries[i..][1..] == entries[i + 1..];
    }
  }

  /** The first entry with the VM's link or the name at the end of that link. */
  ghost predicate FirstMatch(entries: seq<MachineType>, machineType: string, i: nat)
  {
    && i < |entries| && (entries[i].selfLink == machineType || entries[i].name == NameOf(machineType))
    && forall j :: 0 <= j < i ==> entries[j].selfLink != machineType && entries[j].name != NameOf(machineType)
  }

  /** In any list the search gives the first match, and zeros exactly without one or for a match that has them. */
  lemma {:induction false} SearchGivesTheFirstMatch(machineType: string, entries: seq<MachineType>)
    ensures forall i: nat :: FirstMatch(entries, machineType, i) ==>
              CoreAndMemory(machineType, entries) == (entries[i].guestCpus, Gib(entries[i].memoryMb))
    ensures (forall i: nat :: !FirstMatch(entries, machineType, i)) ==> CoreAndMemory(machineType, entries) == (Some(0), 0.0)
    ensures (exists i: nat :: FirstMatch(entries, machineType, i)) <==>
              exists e :: e in entries && (e.selfLink == machineType || e.name == NameOf(machineType))
  {
    if entries != [] {
      var head, tail := entries[0], entries[1..];
      SearchGivesTheFirstMatch(machineType, tail);
      assert entries == [head] + tail;
      if head.selfLink == machineType || head.name == NameOf(machineType) {
        assert FirstMatch(entries, machineType, 0);
        assert forall i: nat :: FirstMatch(entries, machineType, i) ==> i == 0;
      } else {
        forall i: nat
          ensures FirstMatch(entries, machineType, i) <==> i > 0 && FirstMatch(tail, machineType, i - 1)
        {
          FirstMatchShift(entries, machineType, i);
        }
        if i: nat :| FirstMatch(tail, machineType, i) {
          assert FirstMatch(entries, machineType, i + 1);
        }
      }
    }
  }

  lemma FirstMatchShift(entries: seq<MachineType>, machineType: string, i: nat)
    requires entries != [] && entries[0].selfLink != machineType && entries[0].name != NameOf(machineType)
    ensures FirstMatch(entries, machineType, i) <==> i > 0 && FirstMatch(entries[1..], machineType, i - 1)
  {
    var tail := entries[1..];
    if i > 0 && FirstMatch(tail, machineType, i - 1) {
      forall j | 0 <= j < i
        ensures entries[j].selfLink != machineType && entries[j].name != NameOf(machineType)
      {
        assert j > 0 ==> entries[j] == tail[j - 1];
      }
    }
    if FirstMatch(entries, machineType, i) && i > 0 {
      assert forall j :: 0 <= j < |tail| ==> tail[j] == entries[j + 1];
    }
  }

  /** One VM against the list: the new list and the VM's hardware or the fetch error. */
  function Step(entries: seq<MachineType>, vm: Vm): (seq<MachineType>, Result<Hardware, FetchError>)
  {
    var (core, memory) := CoreAndMemory(vm.machineType, entries);
    if core == Some(0) && memory == 0.0 then
      match vm.response
      case Success(fetched) =>
        (entries + [fetched], Success(Hardware(if fetched.guestCpus.Some? then fetched.guestCpus else Some(0), Gib(fetched.memoryMb))))
      case Failure(e) => (entries, Failure(e))
    else (entries, Success(Hardware(core, memory)))
  }

  /** The search gives nothing to work with: no match, or a first match without cores and memory. */
  ghost predicate Missing(entries: seq<MachineType>, machineType: string)
  {
    forall i: nat :: FirstMatch(entries, machineType, i) ==>
      entries[i].guestCpus == Some(0) && Gib(entries[i].memoryMb) == 0.0
  }

  /** For any list: the first match, or else the fetched type, which joins the list, or the fetch error. */
  lemma StepOfAnyList(entries: seq<MachineType>, vm: Vm)
    ensures var (after, result) := Step(entries, vm);
            && (forall i: nat :: FirstMatch(entries, vm.machineType, i) && !Missing(entries, vm.machineType) ==>
                  after == entries && result == Success(Hardware(entries[i].guestCpus, Gib(entries[i].memoryMb))))
            && (Missing(entries, vm.machineType) ==>
                  match vm.response
                  case Failure(e) => after == entries && result == Failure(e)
                  case Success(fetched) =>
                    && after == entries + [fetched]
                    && result == Success(Hardware(Some(fetched.guestCpus.GetOr(0)), Gib(fetched.memoryMb))))
  {
    SearchGivesTheFirstMatch(vm.machineType, entries);
    if i: nat :| FirstMatch(entries, vm.machineType, i) {
      OneFirstMatch(entries, vm.machineType, i);
    }
  }

  lemma OneFirstMatch(entries: seq<MachineType>, machineType: string, i: nat)
    requires FirstMatch(entries, machineType, i)
    ensures forall j: nat :: FirstMatch(entries, machineType, j) ==> j == i
  {
  }

  /** The list of machine types, shared by all VMs of the run. */
  class MachineTypeList {
    var entries: seq<MachineType>

    constructor (entries: seq<MachineType>)
      ensures this.entries == entries
    {
      this.entries := entries;
    }

    method GetCustomImageType(response: Result<MachineType, FetchError>) returns (r: Result<Hardware, FetchError>)
      modifies this
      ensures response.Failure? ==> r == Failure(response.error) && entries == old(entries)
      ensures response.Success? ==>
                var fetched := response.value;
                && entries == old(entries) + [fetched]
                && r == Success(Hardware(if fetched.guestCpus.Some? then fetched.guestCpus else Some(0), Gib(fetched.memoryMb)))
    {
      match response {
        case Failure(e) => r := Failure(e);
        case Success(customImageType) =>
          entries := entries + [customImageType];
          var cpu := if customImageType.guestCpus.Some? then customImageType.guestCpus else Some(0);
          r := Success(Hardware(cpu, Gib(customImageType.memoryMb)));
      }
    }

    method GetHardwareData(vm: Vm) returns (r: Result<Hardware, FetchError>)
      modifies this
      ensures (entries, r) == Step(old(entries), vm)
    {
      var core, memory := GetCoreAndMemory(vm.machineType, entries);
      if core == Some(0) && memory == 0.0 {
        r := GetCustomImageType(vm.response);
      } else {
        r := Success(Hardware(core, memory));
      }
    }

    /** The VM loop: a VM whose fetch fails becomes an error and the loop goes on. */
    method CollectHardware(vms: seq<Vm>) returns (results: seq<Result<Hardware, FetchError>>)
      modifies this
      ensures entries == ListAfter(old(entries), vms)
      ensures results == Outcomes(old(entries), vms)
    {
      results := [];
      for i := 0 to |vms|
        invariant entries == ListAfter(old(entries), vms[..i])
        invariant results == Outcomes(old(entries), vms[..i])
      {
        assert vms[..i + 1][..i] == vms[..i];
        var r := GetHardwareData(vms[i]);
        results := results + [r];
      }
      assert vms[..|vms|] == vms;
    }
  }

  function ListAfter(entries: seq<MachineType>, vms: seq<Vm>): seq<MachineType>
  {
    if vms == [] then entries
    else Step(ListAfter(entries, vms[..|vms| - 1]), vms[|vms| - 1]).0
  }

  function Outcomes(entries: seq<MachineType>, vms: seq<Vm>): (results: seq<Result<Hardware, FetchError>>)
    ensures |results| == |vms|
  {
    if vms == [] then []
    else Outcomes(entries, vms[..|vms| - 1]) + [Step(ListAfter(entries, vms[..|vms| - 1]), vms[|vms| - 1]).1]
  }

  // ---------- the list as a cache ----------

  /** What a machine type's name stands for. */
  datatype Shape = Shape(cpus: int, memoryMb: int)

  /** An entry that says what its name stands for; its link ends in its name. */
  ghost predicate Agrees(entry: MachineType, shape: string -> Shape)
  {
    && entry.name != ""
    && entry.name == NameOf(entry.selfLink)
    && entry.guestCpus == Some(shape(entry.name).cpus) && shape(entry.name).cpus != 0
    && entry.memoryMb == shape(entry.name).memoryMb
  }

  /** A fetch either fails or gives the type that was asked for, as its name says. */
  ghost predicate Honest(vm: Vm, shape: string -> Shape)
  {
    vm.response.Success? ==> vm.response.value.name == NameOf(vm.machineType) && Agrees(vm.response.value, shape)
  }

  ghost predicate AllAgree(entries: seq<MachineType>, shape: string -> Shape)
  {
    forall e :: e in entries ==> Agrees(e, shape)
  }

  ghost predicate AllHonest(vms: seq<Vm>, shape: string -> Shape)
  {
    forall i :: 0 <= i < |vms| ==> Honest(vms[i], shape)
  }

  ghost predicate Listed(entries: seq<MachineType>, name: string)
  {
    exists e :: e in entries && e.name == name
  }

  function HardwareOf(shape: Shape): Hardware
  {
    Hardware(Some(shape.cpus), Gib(shape.memoryMb))
  }

  /** The search finds a type exactly when its name is listed, and then what the name stands for. */
  lemma {:induction false} SearchFindsTheName(machineType: string, entries: seq<MachineType>, shape: string -> Shape)
    requires AllAgree(entries, shape)
    ensures var name := NameOf(machineType);
            CoreAndMemory(machineType, entries) ==
              if Listed(entries, name) then (Some(shape(name).cpus), Gib(shape(name).memoryMb)) else (Some(0), 0.0)
    ensures Listed(entries, NameOf(machineType)) ==> shape(NameOf(machineType)).cpus != 0
  {
    if entries != [] {
      var head, tail := entries[0], entries[1..];
      assert entries == [head] + tail && head in entries;
      assert forall e :: e in entries <==> e == head || e in tail;
      SearchFindsTheName(machineType, tail, shape);
    }
  }

  /** One VM: a listed name costs no fetch; a fetched type joins the list; a failure changes nothing. */
  lemma StepAsCache(entries: seq<MachineType>, vm: Vm, shape: string -> Shape)
    requires AllAgree(entries, shape) && Honest(vm, shape)
    ensures var (after, result) := Step(entries, vm);
            var name := NameOf(vm.machineType);
            && AllAgree(after, shape)
            && (Listed(entries, name) ==> after == entries && result == Success(HardwareOf(shape(name))))
            && (!Listed(entries, name) && vm.response.Success? ==>
                  after == entries + [vm.response.value] && result == Success(HardwareOf(shape(name))) && Listed(after, name))
            && (!Listed(entries, name) && vm.response.Failure? ==>
                  after == entries && result == Failure(vm.response.error))
  {
    SearchFindsTheName(vm.machineType, entries, shape);
    var (after, _) := Step(entries, vm);
    if !Listed(entries, NameOf(vm.machineType)) && vm.response.Success? {
      assert vm.response.value in after;
    }
  }

  /** A name is available to VM number `i`: listed from the start, or fetchable by then. */
  ghost predicate Available(entries: seq<MachineType>, vms: seq<Vm>, i: nat, name: string)
    requires i <= |vms|
  {
    Listed(entries, name) || exists j :: 0 <= j < i && NameOf(vms[j].machineType) == name && vms[j].response.Success?
  }

  /** From position `n` on every entry has a name that was not listed before it. */
  ghost predicate AddedOnce(entries: seq<MachineType>, n: nat)
  {
    forall k :: n <= k < |entries| ==> !Listed(entries[..k], entries[k].name)
  }

  lemma AddedOnceNext(entries: seq<MachineType>, n: nat, entry: MachineType)
    requires AddedOnce(entries, n) && !Listed(entries, entry.name)
    ensures AddedOnce(entries + [entry], n)
  {
    var after := entries + [entry];
    TakeAll(entries);
    assert forall k :: 0 <= k <= |entries| ==> after[..k] == entries[..k];
  }

  /**
    After any run the list still agrees with the names. It starts with the old entries; what
    was added has names that were missing, each once; and the listed names are the available ones.
   */
  lemma {:induction false} ListAfterRun(entries: seq<MachineType>, vms: seq<Vm>, shape: string -> Shape)
    requires AllAgree(entries, shape) && AllHonest(vms, shape)
    ensures var after := ListAfter(entries, vms);
            && AllAgree(after, shape)
            && entries <= after
            && AddedOnce(after, |entries|)
            && (forall name :: Listed(after, name) <==> Available(entries, vms, |vms|, name))
  {
    if vms != [] {
      var front, vm := vms[..|vms| - 1], vms[|vms| - 1];
      assert vms == front + [vm];
      ListAfterRun(entries, front, shape);
      var before, after := ListAfter(entries, front), ListAfter(entries, vms);
      StepAsCache(before, vm, shape);
      if after != before {
        AddedOnceNext(before, |entries|, vm.response.value);
      }
      forall n
        ensures Listed(after, n) <==> Available(entries, vms, |vms|, n)
      {
        AvailableStep(entries, front, vm, n);
        ListedStep(before, vm, shape, n);
      }
    }
  }

  /** One VM makes its own name listed, if its type can be fetched or was listed before. */
  lemma ListedStep(entries: seq<MachineType>, vm: Vm, shape: string -> Shape, name: string)
    requires AllAgree(entries, shape) && Honest(vm, shape)
    ensures Listed(Step(entries, vm).0, name) <==>
              Listed(entries, name) || (NameOf(vm.machineType) == name && vm.response.Success?)
  {
    StepAsCache(entries, vm, shape);
    var after := Step(entries, vm).0;
    if after != entries {
      assert forall e :: e in after <==> e in entries || e == vm.response.value;
    }
  }

  lemma AvailableStep(entries: seq<MachineType>, front: seq<Vm>, vm: Vm, name: string)
    ensures Available(entries, front + [vm], |front| + 1, name) <==>
              Available(entries, front, |front|, name) || (NameOf(vm.machineType) == name && vm.response.Success?)
  {
    var vms := front + [vm];
    if Available(entries, front, |front|, name) && !Listed(entries, name) {
      var j :| 0 <= j < |front| && NameOf(front[j].machineType) == name && front[j].response.Success?;
      assert vms[j] == front[j];
    }
    if NameOf(vm.machineType) == name && vm.response.Success? {
      assert vms[|front|] == vm;
    }
    if Available(entries, vms, |vms|, name) && !Listed(entries, name) {
      var j :| 0 <= j < |vms| && NameOf(vms[j].machineType) == name && vms[j].response.Success?;
      assert j < |front| ==> vms[j] == front[j];
    }
  }

  /**
    Every VM gets the hardware its machine type's name stands for, unless its own fetch fails
    and the type was not available before; then it gets that error.
   */
  lemma {:induction false} EveryVmGetsItsType(entries: seq<MachineType>, vms: seq<Vm>, shape: string -> Shape, i: nat)
    requires AllAgree(entries, shape) && AllHonest(vms, shape) && i < |vms|
    ensures var name := NameOf(vms[i].machineType);
            Outcomes(entries, vms)[i] ==
              match vms[i].response
              case Failure(e) =>
                if Available(entries, vms, i, name) then Success(HardwareOf(shape(name))) else Failure(e)
              case Success(_) => Success(HardwareOf(shape(name)))
  {
    var front, vm := vms[..|vms| - 1], vms[|vms| - 1];
    assert vms == front + [vm];
    if i < |front| {
      EveryVmGetsItsType(entries, front, shape, i);
    } else {
      ListAfterRun(entries, front, shape);
      StepAsCache(ListAfter(entries, front), vm, shape);
      assert forall j :: 0 <= j < |front| ==> vms[j] == front[j];
    }
  }
}
