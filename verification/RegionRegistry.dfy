/**
  The list of collected region codes. It is one list for all managers, never reset, and
  updated by check-then-append from every worker thread of the pool.
 */
module RegionRegistry {

  function Normalised(region: string, known: set<string>): string
  {
    if region in known then region else "global"
  }

  function KnownOf(codes: seq<string>, known: set<string>): seq<string>
  {
    if codes == [] then []
    else KnownOf(codes[..|codes| - 1], known) +
         (if codes[|codes| - 1] in known then [codes[|codes| - 1]] else [])
  }

  /** What recording one region does to the list when nobody interferes. */
  function Recorded(codes: seq<string>, region: string, known: set<string>): seq<string>
  {
    var code := Normalised(region, known);
    if code in codes then codes else codes + [code]
  }

  /** The registry as one manager uses it on its own. */
  class Registry {
    var collectedRegionCodes: seq<string>

    method SetRegionCode(region: string, known: set<string>)
      modifies this
      ensures collectedRegionCodes == Recorded(old(collectedRegionCodes), region, known)
      ensures region !in known && "global" !in old(collectedRegionCodes) ==>
                collectedRegionCodes == old(collectedRegionCodes) + ["global"]
      ensures region in known && region !in old(collectedRegionCodes) ==>
                collectedRegionCodes == old(collectedRegionCodes) + [region]
      ensures (if region in known then region else "global") in old(collectedRegionCodes) ==>
                collectedRegionCodes == old(collectedRegionCodes)
    {
      var code := region;
      if code !in known {
        code := "global";
      }
      if code !in collectedRegionCodes {
        collectedRegionCodes := collectedRegionCodes + [code];
      }
    }

    method CollectRegion(known: set<string>) returns (results: seq<string>)
      ensures results == KnownOf(collectedRegionCodes, known)
    {
      results := [];
      for i := 0 to |collectedRegionCodes|
        invariant results == KnownOf(collectedRegionCodes[..i], known)
      {
        var regionCode := collectedRegionCodes[i];
        assert collectedRegionCodes[..i + 1][..i] == collectedRegionCodes[..i];
        if regionCode in known {
          results := results + [regionCode];
        }
      }
      assert collectedRegionCodes[..|collectedRegionCodes|] == collectedRegionCodes;
    }
  }

  // ---------- worker threads ----------

  datatype Op = Record(region: string) | CollectRegions

  /**
    Where a thread stands: between two operations, between the membership test and the append,
    or inside the loop that turns the list into region responses.
   */
  datatype Phase = Ready | Appending(code: string) | Scanning(next: nat, emitted: seq<string>)

  /** A finished `collect_region`, with what its thread had recorded by then. */
  datatype Report = Report(recorded: set<string>, emitted: seq<string>)

  /** A pool thread runs the managers it is given one after the other: one list of operations. */
  datatype Thread = Thread(todo: seq<Op>, phase: Phase, recorded: set<string>, reports: seq<Report>)

  datatype State = State(codes: seq<string>, threads: seq<Thread>)

  function ThreadStep(codes: seq<string>, thread: Thread, known: set<string>): (seq<string>, Thread)
  {
    match thread.phase
    case Ready =>
      if thread.todo == [] then (codes, thread)
      else (
        match thread.todo[0]
        case Record(region) =>
          var code := Normalised(region, known);
          if code in codes
          then (codes, thread.(todo := thread.todo[1..], recorded := thread.recorded + {code}))
          else (codes, thread.(todo := thread.todo[1..], phase := Appending(code)))
        case CollectRegions => (codes, thread.(todo := thread.todo[1..], phase := Scanning(0, []))))
    case Appending(code) =>
      (codes + [code], thread.(phase := Ready, recorded := thread.recorded + {code}))
    case Scanning(next, emitted) =>
      if next < |codes| then
        (codes, thread.(phase := Scanning(next + 1, if codes[next] in known then emitted + [codes[next]] else emitted)))
      else
        (codes, thread.(phase := Ready, reports := thread.reports + [Report(thread.recorded, emitted)]))
  }

  function Step(s: State, t: nat, known: set<string>): State
    requires t < |s.threads|
  {
    var (codes, thread) := ThreadStep(s.codes, s.threads[t], known);
    State(codes, s.threads[t := thread])
  }

  /** An interleaving: the threads in the order in which they take their steps. */
  ghost predicate Schedule(schedule: seq<nat>, threads: nat)
  {
    forall i :: 0 <= i < |schedule| ==> schedule[i] < threads
  }

  function Run(s: State, schedule: seq<nat>, known: set<string>): (end: State)
    requires Schedule(schedule, |s.threads|)
    ensures |end.threads| == |s.threads|
  {
    if schedule == [] then s
    else Step(Run(s, schedule[..|schedule| - 1], known), schedule[|schedule| - 1], known)
  }

  /** The pool before the first step; the list may hold codes of earlier collections. */
  ghost predicate Initial(s: State)
  {
    forall thread :: thread in s.threads ==> thread.phase == Ready && thread.recorded == {} && thread.reports == []
  }

  // ---------- what every step keeps ----------

  /** The report is the known part of a prefix of the list, and nothing its thread recorded is missing. */
  ghost predicate ReportComplete(codes: seq<string>, report: Report, known: set<string>)
  {
    && (exists n :: 0 <= n <= |codes| && report.emitted == KnownOf(codes[..n], known))
    && (forall c :: c in report.recorded ==> c in report.emitted)
  }

  ghost predicate ThreadInvariant(codes: seq<string>, thread: Thread, known: set<string>)
  {
    && (forall c :: c in thread.recorded ==> c in codes && c in known)
    && (thread.phase.Appending? ==> thread.phase.code in known)
    && (thread.phase.Scanning? ==>
          thread.phase.next <= |codes| && thread.phase.emitted == KnownOf(codes[..thread.phase.next], known))
    && (forall r :: r in thread.reports ==> ReportComplete(codes, r, known))
  }

  ghost predicate Invariant(start: State, s: State, known: set<string>)
  {
    && start.codes <= s.codes
    && (forall c :: c in s.codes[|start.codes|..] ==> c in known)
    && (forall thread :: thread in s.threads ==> ThreadInvariant(s.codes, thread, known))
  }

  lemma {:induction false} KnownOfMember(codes: seq<string>, known: set<string>)
    ensures forall c :: c in KnownOf(codes, known) <==> c in codes && c in known
  {
    if codes != [] {
      var last := codes[|codes| - 1];
      KnownOfMember(codes[..|codes| - 1], known);
      assert codes == codes[..|codes| - 1] + [last];
    }
  }

  /** The reports keep the order of the list, and every known code as often as it is there. */
  lemma {:induction false} KnownOfKeeps(a: seq<string>, b: seq<string>, known: set<string>)
    ensures KnownOf(a + b, known) == KnownOf(a, known) + KnownOf(b, known)
    ensures forall c :: c in KnownOf(a, known) ==> c in known
    ensures (forall c :: c in a ==> c in known) ==> KnownOf(a, known) == a
  {
    KnownOfMember(a, known);
    AllKnown(a, known);
    if b == [] {
      assert a + b == a;
    } else {
      assert (a + b)[..|a + b| - 1] == a + b[..|b| - 1];
      KnownOfKeeps(a, b[..|b| - 1], known);
    }
  }

  lemma {:induction false} AllKnown(codes: seq<string>, known: set<string>)
    ensures (forall c :: c in codes ==> c in known) ==> KnownOf(codes, known) == codes
  {
    if codes != [] {
      var front, last := codes[..|codes| - 1], codes[|codes| - 1];
      assert codes == front + [last];
      AllKnown(front, known);
    }
  }

  /** Appends by other threads do not disturb what a thread knows. */
  lemma ThreadInvariantGrows(codes: seq<string>, more: seq<string>, thread: Thread, known: set<string>)
    requires codes <= more && ThreadInvariant(codes, thread, known)
    ensures ThreadInvariant(more, thread, known)
  {
    if thread.phase.Scanning? {
      assert codes[..thread.phase.next] == more[..thread.phase.next];
    }
    forall r | r in thread.reports
      ensures ReportComplete(more, r, known)
    {
      var n :| 0 <= n <= |codes| && r.emitted == KnownOf(codes[..n], known);
      assert codes[..n] == more[..n];
    }
  }

  lemma ThreadStepKeeps(codes: seq<string>, thread: Thread, known: set<string>)
    requires "global" in known && ThreadInvariant(codes, thread, known)
    ensures var (after, next) := ThreadStep(codes, thread, known);
            codes <= after && (forall c :: c in after[|codes|..] ==> c in known) && ThreadInvariant(after, next, known)
  {
    var (after, next) := ThreadStep(codes, thread, known);
    if thread.phase.Appending? {
      ThreadInvariantGrows(codes, after, thread, known);
    } else if thread.phase.Scanning? {
      var n := thread.phase.next;
      if n < |codes| {
        assert codes[..n + 1][..n] == codes[..n];
      } else {
        assert codes[..n] == codes;
        KnownOfMember(codes, known);
        assert ReportComplete(codes, Report(thread.recorded, thread.phase.emitted), known);
      }
    } else if thread.todo != [] && thread.todo[0].CollectRegions? {
      assert codes[..0] == [];
    }
  }

  lemma StepKeeps(start: State, s: State, t: nat, known: set<string>)
    requires t < |s.threads| && "global" in known && Invariant(start, s, known)
    ensures Invariant(start, Step(s, t, known), known)
  {
    var end := Step(s, t, known);
    assert s.threads[t] in s.threads;
    ThreadStepKeeps(s.codes, s.threads[t], known);
    assert end.codes[|start.codes|..] == s.codes[|start.codes|..] + end.codes[|s.codes|..];
    forall thread | thread in end.threads
      ensures ThreadInvariant(end.codes, thread, known)
    {
      if thread in s.threads {
        ThreadInvariantGrows(s.codes, end.codes, thread, known);
      }
    }
  }

  /**
    In every interleaving the list only grows, only by known codes, and every region a thread
    recorded is in the list and in each of its later region reports.
   */
  lemma {:induction false} EveryInterleavingKeepsTheRegistry(start: State, schedule: seq<nat>, known: set<string>)
    requires Initial(start) && "global" in known && Schedule(schedule, |start.threads|)
    ensures Invariant(start, Run(start, schedule, known), known)
  {
    if schedule == [] {
      assert start.codes[|start.codes|..] == [];
    } else {
      EveryInterleavingKeepsTheRegistry(start, schedule[..|schedule| - 1], known);
      StepKeeps(start, Run(start, schedule[..|schedule| - 1], known), schedule[|schedule| - 1], known);
    }
  }

  // ---------- how often one code can appear ----------

  /** The threads that are about to append `code`. */
  function Pending(threads: seq<Thread>, code: string): (n: nat)
    ensures n <= |threads|
  {
    if threads == [] then 0
    else Pending(threads[1..], code) + (if threads[0].phase == Appending(code) then 1 else 0)
  }

  lemma {:induction false} PendingAfterUpdate(threads: seq<Thread>, t: nat, thread: Thread, code: string)
    requires t < |threads|
    ensures Pending(threads[t := thread], code)
              == Pending(threads, code) - (if threads[t].phase == Appending(code) then 1 else 0)
                 + (if thread.phase == Appending(code) then 1 else 0)
  {
    if t > 0 {
      PendingAfterUpdate(threads[1..], t - 1, thread, code);
      assert threads[t := thread][1..] == threads[1..][t - 1 := thread];
    } else {
      assert threads[0 := thread][1..] == threads[1..];
    }
  }

  lemma {:induction false} NonePending(threads: seq<Thread>, code: string)
    requires forall thread :: thread in threads ==> thread.phase == Ready
    ensures Pending(threads, code) == 0
  {
    if threads != [] {
      NonePending(threads[1..], code);
    }
  }

  /** Copies in the list plus appends under way: the quantity that stays bounded. */
  function Copies(s: State, code: string): nat
  {
    multiset(s.codes)[code] + Pending(s.threads, code)
  }

  lemma StepCopies(s: State, t: nat, known: set<string>, code: string)
    requires t < |s.threads|
    ensures var end := Step(s, t, known);
            && (code in s.codes ==> code in end.codes)
            && (code in end.codes ==> Copies(end, code) == Copies(s, code))
            && (code !in end.codes ==> Copies(end, code) == Pending(end.threads, code))
  {
    var (codes, thread) := ThreadStep(s.codes, s.threads[t], known);
    PendingAfterUpdate(s.threads, t, thread, code);
    if s.threads[t].phase.Appending? {
      CopiesAppended(s.codes, s.threads[t].phase.code, code);
    }
  }

  lemma CopiesAppended(codes: seq<string>, last: string, code: string)
    ensures multiset(codes + [last])[code] == multiset(codes)[code] + (if last == code then 1 else 0)
    ensures code in codes + [last] <==> code in codes || last == code
    ensures code !in codes <==> multiset(codes)[code] == 0
  {
  }

  /** The operations record a region that counts as `code`. */
  predicate Records(todo: seq<Op>, code: string, known: set<string>)
  {
    exists i :: 0 <= i < |todo| && todo[i].Record? && Normalised(todo[i].region, known) == code
  }

  /** How many threads record `code`. */
  function Recorders(threads: seq<Thread>, code: string, known: set<string>): nat
  {
    if threads == [] then 0
    else Recorders(threads[1..], code, known) + (if Records(threads[0].todo, code, known) then 1 else 0)
  }

  /** A thread appends `code`, or still has to record it, only if it had to from the first. */
  ghost predicate Stems(thread: Thread, first: Thread, code: string, known: set<string>)
  {
    thread.phase == Appending(code) || Records(thread.todo, code, known) ==> Records(first.todo, code, known)
  }

  ghost predicate AllStem(threads: seq<Thread>, first: seq<Thread>, code: string, known: set<string>)
  {
    |threads| == |first| && forall t :: 0 <= t < |threads| ==> Stems(threads[t], first[t], code, known)
  }

  lemma ThreadStepStems(codes: seq<string>, thread: Thread, first: Thread, code: string, known: set<string>)
    requires Stems(thread, first, code, known)
    ensures Stems(ThreadStep(codes, thread, known).1, first, code, known)
  {
    var next := ThreadStep(codes, thread, known).1;
    if Records(next.todo, code, known) && next.todo != thread.todo {
      var i :| 0 <= i < |next.todo| && next.todo[i].Record? && Normalised(next.todo[i].region, known) == code;
      assert thread.todo[i + 1] == next.todo[i];
    }
  }

  lemma {:induction false} PendingAtMostRecorders(threads: seq<Thread>, first: seq<Thread>, code: string, known: set<string>)
    requires AllStem(threads, first, code, known)
    ensures Pending(threads, code) <= Recorders(first, code, known)
  {
    if threads != [] {
      PendingAtMostRecorders(threads[1..], first[1..], code, known);
      assert Stems(threads[0], first[0], code, known);
    }
  }

  /**
    In every interleaving a code that was absent has at most as many copies as threads record
    it, and a code that was present is never appended again.
   */
  lemma {:induction false} CopiesAreBoundedByRecorders(start: State, schedule: seq<nat>, known: set<string>, code: string)
    requires Initial(start) && Schedule(schedule, |start.threads|)
    ensures var end := Run(start, schedule, known);
            && AllStem(end.threads, start.threads, code, known)
            && (code in start.codes ==> code in end.codes && Copies(end, code) == multiset(start.codes)[code])
            && (code !in start.codes ==> Copies(end, code) <= Recorders(start.threads, code, known))
  {
    if schedule == [] {
      NonePending(start.threads, code);
      assert forall t :: 0 <= t < |start.threads| ==> start.threads[t] in start.threads;
    } else {
      var front, t := schedule[..|schedule| - 1], schedule[|schedule| - 1];
      CopiesAreBoundedByRecorders(start, front, known, code);
      var s := Run(start, front, known);
      var end := Step(s, t, known);
      StepCopies(s, t, known, code);
      ThreadStepStems(s.codes, s.threads[t], start.threads[t], code, known);
      PendingAtMostRecorders(end.threads, start.threads, code, known);
    }
  }

  /** With a single worker every code it recorded is in the list exactly once. */
  lemma OneWorkerRecordsOnce(start: State, schedule: seq<nat>, known: set<string>, code: string)
    requires Initial(start) && "global" in known && |start.threads| == 1 && Schedule(schedule, 1)
    requires code !in start.codes && code in Run(start, schedule, known).threads[0].recorded
    ensures multiset(Run(start, schedule, known).codes)[code] == 1
  {
    EveryInterleavingKeepsTheRegistry(start, schedule, known);
    CopiesAreBoundedByRecorders(start, schedule, known, code);
    assert Recorders(start.threads[1..], code, known) == 0;
    var end := Run(start, schedule, known);
    assert end.threads[0] in end.threads;
    assert code in multiset(end.codes);
  }

  // ---------- the bound is reached ----------

  lemma {:induction false} RunAppend(s: State, a: seq<nat>, b: seq<nat>, known: set<string>)
    requires Schedule(a, |s.threads|) && Schedule(b, |s.threads|)
    ensures Schedule(a + b, |s.threads|)
    ensures Run(s, a + b, known) == Run(Run(s, a, known), b, known)
  {
    if b == [] {
      assert a + b == a;
    } else {
      RunAppend(s, a, b[..|b| - 1], known);
      assert (a + b)[..|a + b| - 1] == a + b[..|b| - 1];
    }
  }

  lemma RunOne(s: State, t: nat, known: set<string>)
    requires t < |s.threads|
    ensures Schedule([t], |s.threads|) && Run(s, [t], known) == Step(s, t, known)
  {
    assert [t][..0] == [];
    assert Run(s, [t][..0], known) == s;
  }

  lemma StepThenRun(s: State, t: nat, rest: seq<nat>, known: set<string>)
    requires t < |s.threads| && Schedule(rest, |s.threads|)
    ensures Schedule([t] + rest, |s.threads|)
    ensures Run(s, [t] + rest, known) == Run(Step(s, t, known), rest, known)
  {
    RunOne(s, t, known);
    RunAppend(s, [t], rest, known);
  }

  /** Nothing happened but to thread `t`. */
  ghost predicate OnlyThread(s: State, end: State, t: nat)
  {
    |end.threads| == |s.threads| && forall u :: 0 <= u < |s.threads| && u != t ==> end.threads[u] == s.threads[u]
  }

  /** A thread that scans the list comes to the end of it when it is left alone. */
  lemma {:induction false} FinishScan(s: State, t: nat, known: set<string>) returns (schedule: seq<nat>)
    requires t < |s.threads| && s.threads[t].phase.Scanning?
    ensures Schedule(schedule, |s.threads|)
    ensures var end := Run(s, schedule, known);
            && OnlyThread(s, end, t) && end.codes == s.codes
            && end.threads[t].phase == Ready && end.threads[t].todo == s.threads[t].todo
    decreases |s.codes| - s.threads[t].phase.next
  {
    var next := Step(s, t, known);
    var rest := [];
    if s.threads[t].phase.next < |s.codes| {
      rest := FinishScan(next, t, known);
    }
    schedule := [t] + rest;
    StepThenRun(s, t, rest, known);
  }

  /** Left alone, a thread that records `code` comes to the point where it is about to append it. */
  lemma {:induction false} ReachAppend(s: State, t: nat, known: set<string>, code: string) returns (schedule: seq<nat>)
    requires t < |s.threads| && s.threads[t].phase == Ready
    requires code !in s.codes && Records(s.threads[t].todo, code, known)
    ensures Schedule(schedule, |s.threads|)
    ensures var end := Run(s, schedule, known);
            OnlyThread(s, end, t) && code !in end.codes && end.threads[t].phase == Appending(code)
    decreases |s.threads[t].todo|
  {
    var todo := s.threads[t].todo;
    var first := Step(s, t, known);
    if todo[0].Record? && Normalised(todo[0].region, known) == code {
      schedule := [t];
      RunOne(s, t, known);
    } else {
      LaterRecord(todo, code, known);
      var before := [];
      if first.threads[t].phase.Appending? {
        before := [t];
        RunOne(first, t, known);
      } else if first.threads[t].phase.Scanning? {
        before := FinishScan(first, t, known);
      }
      var middle := Run(first, before, known);
      var rest := ReachAppend(middle, t, known, code);
      RunAppend(first, before, rest, known);
      StepThenRun(s, t, before + rest, known);
      schedule := [t] + (before + rest);
    }
  }

  lemma LaterRecord(todo: seq<Op>, code: string, known: set<string>)
    requires Records(todo, code, known) && !(todo[0].Record? && Normalised(todo[0].region, known) == code)
    ensures Records(todo[1..], code, known)
  {
    var i :| 0 <= i < |todo| && todo[i].Record? && Normalised(todo[i].region, known) == code;
    assert todo[1..][i - 1] == todo[i];
  }

  /** Up to thread `n`, all that record `code` are about to append it; nothing else happened. */
  ghost predicate Poised(start: State, s: State, n: nat, known: set<string>, code: string)
  {
    && |s.threads| == |start.threads| && code !in s.codes
    && forall t :: 0 <= t < |s.threads| ==>
         if t < n && Records(start.threads[t].todo, code, known) then s.threads[t].phase == Appending(code)
         else s.threads[t] == start.threads[t]
  }

  lemma {:induction false} PoiseAll(start: State, n: nat, known: set<string>, code: string) returns (schedule: seq<nat>)
    requires Initial(start) && code !in start.codes && n <= |start.threads|
    ensures Schedule(schedule, |start.threads|) && Poised(start, Run(start, schedule, known), n, known, code)
  {
    schedule := [];
    if n > 0 {
      schedule := PoiseAll(start, n - 1, known, code);
      var s := Run(start, schedule, known);
      var t := n - 1;
      assert s.threads[t] == start.threads[t] && start.threads[t] in start.threads;
      if Records(start.threads[t].todo, code, known) {
        var more := ReachAppend(s, t, known, code);
        RunAppend(start, schedule, more, known);
        schedule := schedule + more;
      }
    }
  }

  lemma {:induction false} PoisedPending(threads: seq<Thread>, first: seq<Thread>, known: set<string>, code: string)
    requires |threads| == |first|
    requires forall t :: 0 <= t < |threads| ==> (threads[t].phase == Appending(code) <==> Records(first[t].todo, code, known))
    ensures Pending(threads, code) == Recorders(first, code, known)
  {
    if threads != [] {
      PoisedPending(threads[1..], first[1..], known, code);
    }
  }

  lemma {:induction false} FindPending(threads: seq<Thread>, code: string) returns (t: nat)
    requires Pending(threads, code) > 0
    ensures t < |threads| && threads[t].phase == Appending(code)
  {
    if threads[0].phase == Appending(code) {
      t := 0;
    } else {
      t := FindPending(threads[1..], code);
      t := t + 1;
    }
  }

  /** Let every append under way happen. */
  lemma {:induction false} AppendAll(s: State, known: set<string>, code: string) returns (schedule: seq<nat>)
    ensures Schedule(schedule, |s.threads|)
    ensures multiset(Run(s, schedule, known).codes)[code] == Copies(s, code)
    decreases Pending(s.threads, code)
  {
    schedule := [];
    if Pending(s.threads, code) > 0 {
      var t := FindPending(s.threads, code);
      var next := Step(s, t, known);
      StepCopies(s, t, known, code);
      PendingAfterUpdate(s.threads, t, next.threads[t], code);
      var rest := AppendAll(next, known, code);
      StepThenRun(s, t, rest, known);
      schedule := [t] + rest;
    }
  }

  /**
    The bound is sharp for every pool: when all threads that record an absent code test before
    any of them appends, the code has one copy per such thread.
   */
  lemma BoundIsReached(start: State, known: set<string>, code: string) returns (schedule: seq<nat>)
    requires Initial(start) && code !in start.codes
    ensures Schedule(schedule, |start.threads|)
    ensures multiset(Run(start, schedule, known).codes)[code] == Recorders(start.threads, code, known)
  {
    var tests := PoiseAll(start, |start.threads|, known, code);
    var s := Run(start, tests, known);
    forall t | 0 <= t < |s.threads|
      ensures s.threads[t].phase == Appending(code) <==> Records(start.threads[t].todo, code, known)
    {
      assert start.threads[t] in start.threads;
    }
    PoisedPending(s.threads, start.threads, known, code);
    var appends := AppendAll(s, known, code);
    RunAppend(start, tests, appends, known);
    schedule := tests + appends;
  }

  /** A code is listed at most once in every interleaving exactly when at most one thread records it. */
  lemma ListedOnceExactlyWhenOneRecords(start: State, known: set<string>, code: string)
    requires Initial(start) && code !in start.codes
    ensures (forall schedule | Schedule(schedule, |start.threads|) :: multiset(Run(start, schedule, known).codes)[code] <= 1)
       <==> Recorders(start.threads, code, known) <= 1
  {
    if Recorders(start.threads, code, known) <= 1 {
      forall schedule | Schedule(schedule, |start.threads|)
        ensures multiset(Run(start, schedule, known).codes)[code] <= 1
      {
        CopiesAreBoundedByRecorders(start, schedule, known, code);
      }
    } else {
      var schedule := BoundIsReached(start, known, code);
      assert multiset(Run(start, schedule, known).codes)[code] > 1;
    }
  }

  /** Two threads that record one new region, test and test, append and append. */
  lemma TwoThreadsListARegionTwice(region: string, known: set<string>)
    requires region in known
    ensures var thread := Thread([Record(region)], Ready, {}, []);
            Run(State([], [thread, thread]), [0, 1, 0, 1], known).codes == [region, region]
  {
    var thread := Thread([Record(region)], Ready, {}, []);
    var start := State([], [thread, thread]);
    var first := Step(start, 0, known);
    var second := Step(first, 1, known);
    var third := Step(second, 0, known);
    StepThenRun(start, 0, [1, 0, 1], known);
    StepThenRun(first, 1, [0, 1], known);
    StepThenRun(second, 0, [1], known);
    RunOne(third, 1, known);
    assert [0, 1, 0, 1] == [0] + [1, 0, 1] && [1, 0, 1] == [1] + [0, 1] && [0, 1] == [0] + [1];
  }

  /** Two steps of one thread with nobody in between are the sequential update. */
  lemma UninterruptedRecord(s: State, t: nat, region: string, known: set<string>)
    requires t < |s.threads| && s.threads[t].phase == Ready
    requires s.threads[t].todo != [] && s.threads[t].todo[0] == Record(region)
    ensures var once := Step(s, t, known);
            var done := if once.threads[t].phase == Ready then once else Step(once, t, known);
            var code := if region in known then region else "global";
            && done.codes == (if code in s.codes then s.codes else s.codes + [code])
            && done.threads[t].phase == Ready
            && done.threads[t].recorded == s.threads[t].recorded + {code}
  {
  }
}
