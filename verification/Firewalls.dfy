/**
  The firewall rules of a VM, torn into flat entries of one rule, one protocol and one port.
 */
module Firewalls {
  import opened Basics
  import opened Text
  import opened Sequences

  /** One item of `allowed` or `denied`; an item without ports has the empty list. */
  datatype Protocol = Protocol(ipProtocol: string, ports: seq<string>)

  /** A missing key is None. */
  datatype Rule = Rule(
    id: string,
    name: string,
    priority: int,
    direction: string,
    network: Option<string>,
    allowed: Option<seq<Protocol>>,
    denied: Option<seq<Protocol>>,
    targetTags: Option<seq<string>>,
    targetServiceAccounts: Option<seq<string>>)

  /** The parts of a VM that rules look at. */
  datatype Instance = Instance(networks: seq<string>, tags: seq<string>, serviceAccounts: seq<string>)

  datatype Entry = Entry(
    ruleId: string,
    ruleName: string,
    priority: int,
    protocol: string,
    direction: string,
    action: string,
    portMin: string,
    portMax: string)

  // ---------- which rules apply ----------

  method ChkNetworkTagIsMatched(instance: Instance, rule: Rule) returns (matched: bool)
    ensures matched <==> rule.targetTags.Some? && exists t :: t in rule.targetTags.value && t in instance.tags
  {
    matched := false;
    var targets := if rule.targetTags.Some? then rule.targetTags.value else [];
    for i := 0 to |targets|
      invariant matched <==> exists k :: 0 <= k < i && targets[k] in instance.tags
    {
      for j := 0 to |instance.tags|
        invariant matched <==> (exists k :: 0 <= k < i && targets[k] in instance.tags) || targets[i] in instance.tags[..j]
      {
        if instance.tags[j] == targets[i] {
          matched := true;
        }
      }
      assert instance.tags[..|instance.tags|] == instance.tags;
    }
  }

  method ChkServiceAccountIsMatched(instance: Instance, rule: Rule) returns (matched: bool)
    ensures matched <==>
              rule.targetServiceAccounts.Some? &&
              exists a :: a in rule.targetServiceAccounts.value && a in instance.serviceAccounts
  {
    matched := false;
    var targets := if rule.targetServiceAccounts.Some? then rule.targetServiceAccounts.value else [];
    for i := 0 to |instance.serviceAccounts|
      invariant matched <==> exists k :: 0 <= k < i && instance.serviceAccounts[k] in targets
    {
      for j := 0 to |targets|
        invariant matched <==> (exists k :: 0 <= k < i && instance.serviceAccounts[k] in targets)
                               || instance.serviceAccounts[i] in targets[..j]
      {
        if instance.serviceAccounts[i] == targets[j] {
          matched := true;
        }
      }
      assert targets[..|targets|] == targets;
    }
  }

  /** On one of the VM's networks, and matching by tag, by service account or by having no targets. */
  ghost predicate Applies(instance: Instance, rule: Rule)
  {
    && rule.network.Some? && rule.network.value in instance.networks
    && (|| (rule.targetTags.Some? && exists t :: t in rule.targetTags.value && t in instance.tags)
        || (rule.targetServiceAccounts.Some? &&
            exists a :: a in rule.targetServiceAccounts.value && a in instance.serviceAccounts)
        || (rule.targetTags.None? && rule.targetServiceAccounts.None?))
  }

  // ---------- one rule ----------

  function GetPortMinMax(port: string): (string, string)
  {
    var bounds := Split(port, '-');
    if |bounds| == 1 then (bounds[0], bounds[0]) else (bounds[0], bounds[1])
  }

  function GetAction(rule: Rule): string
  {
    if rule.allowed.Some? then "allow" else "deny"
  }

  function ListProtocols(rule: Rule): seq<Protocol>
  {
    if rule.allowed.Some? then rule.allowed.value
    else if rule.denied.Some? then rule.denied.value
    else []
  }

  function LowerChar(c: char): char
  {
    if 'A' <= c <= 'Z' then (c as int + 32) as char else c
  }

  function Lower(s: string): string
  {
    Map(LowerChar, s)
  }

  function GetDirection(direction: string): string
  {
    if direction == "INGRESS" then "inbound" else "outbound"
  }

  function ShownDirection(rule: Rule): string
  {
    GetDirection(Lower(rule.direction))
  }

  /** The working dictionary of the expansion: one object per protocol, overwritten for each port. */
  class Translated {
    const rule: Rule
    const protocol: string
    var portMin: string
    var portMax: string

    constructor (rule: Rule, protocol: string)
      ensures this.rule == rule && this.protocol == protocol
    {
      this.rule, this.protocol := rule, protocol;
      portMin, portMax := "", "";
    }

    method UpdatePorts(portMin: string, portMax: string)
      modifies this
      ensures this.portMin == portMin && this.portMax == portMax
    {
      this.portMin, this.portMax := portMin, portMax;
    }

    /** The security group built from the dictionary as it stands. */
    function SecurityGroup(): Entry
      reads this
    {
      Entry(rule.id, rule.name, rule.priority, protocol, ShownDirection(rule), GetAction(rule), portMin, portMax)
    }
  }

  /** The entry of one port of one protocol of a rule. */
  function PortEntry(rule: Rule, protocol: Protocol, port: string): Entry
  {
    var (portMin, portMax) := GetPortMinMax(port);
    Entry(rule.id, rule.name, rule.priority, protocol.ipProtocol, ShownDirection(rule), GetAction(rule), portMin, portMax)
  }

  function ProtocolEntries(rule: Rule, protocol: Protocol): seq<Entry>
  {
    Map(port => PortEntry(rule, protocol, port), protocol.ports)
  }

  function RuleEntries(rule: Rule): seq<Entry>
  {
    Flatten(Map(protocol => ProtocolEntries(rule, protocol), ListProtocols(rule)))
  }

  /** One protocol: the entries of its ports, all built in one dictionary. */
  method ListProtocolData(rule: Rule, protocol: Protocol) returns (securityGroups: seq<Entry>)
    ensures securityGroups == ProtocolEntries(rule, protocol)
  {
    securityGroups := [];
    var sgTranslated := new Translated(rule, protocol.ipProtocol);
    for j := 0 to |protocol.ports|
      invariant securityGroups == ProtocolEntries(rule, protocol)[..j]
    {
      var (portMin, portMax) := GetPortMinMax(protocol.ports[j]);
      sgTranslated.UpdatePorts(portMin, portMax);
      securityGroups := securityGroups + [sgTranslated.SecurityGroup()];
      TakeNext(ProtocolEntries(rule, protocol), j);
    }
    TakeAll(ProtocolEntries(rule, protocol));
  }

  method ListFirewallRuleData(rule: Rule) returns (securityGroups: seq<Entry>)
    ensures securityGroups == RuleEntries(rule)
  {
    securityGroups := [];
    var protocols := ListProtocols(rule);
    ghost var blocks := Map(protocol => ProtocolEntries(rule, protocol), protocols);
    for i := 0 to |protocols|
      invariant securityGroups == Flatten(blocks[..i])
    {
      FlattenUpTo(blocks, i);
      var entries := ListProtocolData(rule, protocols[i]);
      securityGroups := securityGroups + entries;
    }
    TakeAll(blocks);
  }

  // ---------- all rules of a VM ----------

  ghost function BlockOf(instance: Instance, rule: Rule): seq<Entry>
  {
    if Applies(instance, rule) then RuleEntries(rule) else []
  }

  ghost function InstanceEntries(instance: Instance, rules: seq<Rule>): seq<Entry>
  {
    if rules == [] then []
    else InstanceEntries(instance, rules[..|rules| - 1]) + BlockOf(instance, rules[|rules| - 1])
  }

  method ListFirewallRulesInfo(instance: Instance, rules: seq<Rule>) returns (results: seq<Entry>)
    ensures results == InstanceEntries(instance, rules)
  {
    results := [];
    for i := 0 to |rules|
      invariant results == InstanceEntries(instance, rules[..i])
    {
      var rule := rules[i];
      assert rules[..i + 1][..i] == rules[..i];
      if rule.network.Some? && rule.network.value in instance.networks {
        var byTag := ChkNetworkTagIsMatched(instance, rule);
        if byTag {
          var data := ListFirewallRuleData(rule);
          results := results + data;
        } else {
          var byAccount := ChkServiceAccountIsMatched(instance, rule);
          if byAccount {
            var data := ListFirewallRuleData(rule);
            results := results + data;
          } else if rule.targetTags.None? && rule.targetServiceAccounts.None? {
            var data := ListFirewallRuleData(rule);
            results := results + data;
          }
        }
      }
    }
    assert rules[..|rules|] == rules;
  }

  // ---------- the entries by position ----------

  /** A place in the input: a rule, one of its protocols, one of that protocol's ports. */
  datatype Slot = Slot(rule: nat, protocol: nat, port: nat)

  ghost predicate ValidSlot(instance: Instance, rules: seq<Rule>, slot: Slot)
  {
    && slot.rule < |rules| && Applies(instance, rules[slot.rule])
    && slot.protocol < |ListProtocols(rules[slot.rule])|
    && slot.port < |ListProtocols(rules[slot.rule])[slot.protocol].ports|
  }

  /** The order of the input. */
  predicate Before(a: Slot, b: Slot)
  {
    || a.rule < b.rule
    || (a.rule == b.rule && a.protocol < b.protocol)
    || (a.rule == b.rule && a.protocol == b.protocol && a.port < b.port)
  }

  ghost function EntryAt(rules: seq<Rule>, slot: Slot): Entry
    requires slot.rule < |rules|
    requires slot.protocol < |ListProtocols(rules[slot.rule])|
    requires slot.port < |ListProtocols(rules[slot.rule])[slot.protocol].ports|
  {
    var protocol := ListProtocols(rules[slot.rule])[slot.protocol];
    PortEntry(rules[slot.rule], protocol, protocol.ports[slot.port])
  }

  ghost predicate InOrder(slots: seq<Slot>)
  {
    forall i, j :: 0 <= i < j < |slots| ==> Before(slots[i], slots[j])
  }

  ghost predicate AllBefore(instance: Instance, rules: seq<Rule>, bound: Slot, slots: seq<Slot>)
  {
    forall s :: s in slots <==> ValidSlot(instance, rules, s) && Before(s, bound)
  }

  ghost predicate EntriesOf(instance: Instance, rules: seq<Rule>, slots: seq<Slot>, entries: seq<Entry>)
  {
    && |slots| == |entries|
    && forall i :: 0 <= i < |slots| ==> ValidSlot(instance, rules, slots[i]) && entries[i] == EntryAt(rules, slots[i])
  }

  /**
    `slots` lists, in input order and without repetition, exactly the places before `bound`,
    and `entries` has the entry of each.
   */
  ghost predicate Enumerates(instance: Instance, rules: seq<Rule>, bound: Slot, slots: seq<Slot>, entries: seq<Entry>)
  {
    InOrder(slots) && AllBefore(instance, rules, bound, slots) && EntriesOf(instance, rules, slots, entries)
  }

  lemma InOrderNext(slots: seq<Slot>, slot: Slot)
    requires InOrder(slots) && forall s :: s in slots ==> Before(s, slot)
    ensures InOrder(slots + [slot])
  {
    assert forall i :: 0 <= i < |slots| ==> slots[i] in slots;
  }

  lemma AllBeforeNext(instance: Instance, rules: seq<Rule>, slot: Slot, slots: seq<Slot>)
    requires ValidSlot(instance, rules, slot) && AllBefore(instance, rules, slot, slots)
    ensures AllBefore(instance, rules, Slot(slot.rule, slot.protocol, slot.port + 1), slots + [slot])
  {
    forall s
      ensures s in slots + [slot] <==>
                ValidSlot(instance, rules, s) && Before(s, Slot(slot.rule, slot.protocol, slot.port + 1))
    {
      BeforeNext(s, slot);
      assert s in slots + [slot] <==> s in slots || s == slot;
    }
  }

  lemma EntriesOfNext(instance: Instance, rules: seq<Rule>, slot: Slot, slots: seq<Slot>, entries: seq<Entry>)
    requires ValidSlot(instance, rules, slot) && EntriesOf(instance, rules, slots, entries)
    ensures EntriesOf(instance, rules, slots + [slot], entries + [EntryAt(rules, slot)])
  {
  }

  lemma BeforeNext(s: Slot, slot: Slot)
    ensures Before(s, Slot(slot.rule, slot.protocol, slot.port + 1)) <==> Before(s, slot) || s == slot
  {
  }

  /** One more port. */
  lemma PortSlots(instance: Instance, rules: seq<Rule>, slot: Slot, slots: seq<Slot>, entries: seq<Entry>)
    requires ValidSlot(instance, rules, slot) && Enumerates(instance, rules, slot, slots, entries)
    ensures Enumerates(instance, rules, Slot(slot.rule, slot.protocol, slot.port + 1), slots + [slot],
                       entries + [EntryAt(rules, slot)])
  {
    InOrderNext(slots, slot);
    AllBeforeNext(instance, rules, slot, slots);
    EntriesOfNext(instance, rules, slot, slots, entries);
  }

  /** Behind the last port of a protocol comes the next protocol, behind the last protocol the next rule. */
  lemma NothingBetween(instance: Instance, rules: seq<Rule>, a: Slot, b: Slot)
    requires a.rule < |rules|
    requires || (a.protocol < |ListProtocols(rules[a.rule])| && a.port == |ListProtocols(rules[a.rule])[a.protocol].ports|
                 && b == Slot(a.rule, a.protocol + 1, 0))
             || (a.protocol >= |ListProtocols(rules[a.rule])| && a.port == 0 && b == Slot(a.rule + 1, 0, 0))
             || (!Applies(instance, rules[a.rule]) && a.protocol == 0 && a.port == 0 && b == Slot(a.rule + 1, 0, 0))
    ensures forall s :: ValidSlot(instance, rules, s) ==> (Before(s, a) <==> Before(s, b))
  {
  }

  /** Two bounds with no valid place between them enumerate the same places. */
  lemma SameSlots(instance: Instance, rules: seq<Rule>, a: Slot, b: Slot, slots: seq<Slot>, entries: seq<Entry>)
    requires Enumerates(instance, rules, a, slots, entries)
    requires forall s :: ValidSlot(instance, rules, s) ==> (Before(s, a) <==> Before(s, b))
    ensures Enumerates(instance, rules, b, slots, entries)
  {
  }

  lemma TakeBehind(entries: seq<Entry>, all: seq<Entry>, k: nat)
    requires k < |all|
    ensures entries + all[..k + 1] == entries + all[..k] + [all[k]]
  {
    TakeNext(all, k);
  }

  lemma {:induction false} ProtocolSlots(instance: Instance, rules: seq<Rule>, r: nat, p: nat, k: nat,
                                         slots: seq<Slot>, entries: seq<Entry>) returns (more: seq<Slot>)
    requires r < |rules| && Applies(instance, rules[r]) && p < |ListProtocols(rules[r])|
    requires k <= |ListProtocols(rules[r])[p].ports|
    requires Enumerates(instance, rules, Slot(r, p, 0), slots, entries)
    ensures Enumerates(instance, rules, Slot(r, p, k), more,
                       entries + ProtocolEntries(rules[r], ListProtocols(rules[r])[p])[..k])
  {
    var all := ProtocolEntries(rules[r], ListProtocols(rules[r])[p]);
    if k == 0 {
      more := slots;
      assert entries + all[..0] == entries;
    } else {
      var before := ProtocolSlots(instance, rules, r, p, k - 1, slots, entries);
      var slot := Slot(r, p, k - 1);
      assert ValidSlot(instance, rules, slot);
      PortSlots(instance, rules, slot, before, entries + all[..k - 1]);
      more := before + [slot];
      assert all[k - 1] == EntryAt(rules, slot);
      TakeBehind(entries, all, k - 1);
    }
  }

  /** A whole protocol. */
  lemma ProtocolStep(instance: Instance, rules: seq<Rule>, r: nat, p: nat, slots: seq<Slot>, entries: seq<Entry>)
    returns (more: seq<Slot>)
    requires r < |rules| && Applies(instance, rules[r]) && p < |ListProtocols(rules[r])|
    requires Enumerates(instance, rules, Slot(r, p, 0), slots, entries)
    ensures Enumerates(instance, rules, Slot(r, p + 1, 0), more,
                       entries + ProtocolEntries(rules[r], ListProtocols(rules[r])[p]))
  {
    var all := ProtocolEntries(rules[r], ListProtocols(rules[r])[p]);
    more := ProtocolSlots(instance, rules, r, p, |all|, slots, entries);
    TakeAll(all);
    NothingBetween(instance, rules, Slot(r, p, |all|), Slot(r, p + 1, 0));
    SameSlots(instance, rules, Slot(r, p, |all|), Slot(r, p + 1, 0), more, entries + all);
  }

  lemma {:induction false} RuleSlots(instance: Instance, rules: seq<Rule>, r: nat, p: nat,
                                     slots: seq<Slot>, entries: seq<Entry>) returns (more: seq<Slot>)
    requires r < |rules| && Applies(instance, rules[r]) && p <= |ListProtocols(rules[r])|
    requires Enumerates(instance, rules, Slot(r, 0, 0), slots, entries)
    ensures Enumerates(instance, rules, Slot(r, p, 0), more,
                       entries + Flatten(Map(q => ProtocolEntries(rules[r], q), ListProtocols(rules[r]))[..p]))
  {
    var blocks := Map(q => ProtocolEntries(rules[r], q), ListProtocols(rules[r]));
    if p == 0 {
      more := slots;
      assert entries + Flatten(blocks[..0]) == entries;
    } else {
      var before := RuleSlots(instance, rules, r, p - 1, slots, entries);
      more := ProtocolStep(instance, rules, r, p - 1, before, entries + Flatten(blocks[..p - 1]));
      FlattenBehind(entries, blocks, p - 1);
    }
  }

  lemma {:induction false} InstanceSlots(instance: Instance, rules: seq<Rule>, n: nat) returns (slots: seq<Slot>)
    requires n <= |rules|
    ensures Enumerates(instance, rules, Slot(n, 0, 0), slots, InstanceEntries(instance, rules[..n]))
  {
    if n == 0 {
      slots := [];
    } else {
      var before := InstanceSlots(instance, rules, n - 1);
      var entries := InstanceEntries(instance, rules[..n - 1]);
      var rule := rules[n - 1];
      assert rules[..n][..n - 1] == rules[..n - 1];
      if Applies(instance, rule) {
        var blocks := Map(q => ProtocolEntries(rule, q), ListProtocols(rule));
        slots := RuleSlots(instance, rules, n - 1, |ListProtocols(rule)|, before, entries);
        assert blocks[..|ListProtocols(rule)|] == blocks;
        NothingBetween(instance, rules, Slot(n - 1, |ListProtocols(rule)|, 0), Slot(n, 0, 0));
        SameSlots(instance, rules, Slot(n - 1, |ListProtocols(rule)|, 0), Slot(n, 0, 0), slots, entries + RuleEntries(rule));
      } else {
        slots := before;
        assert entries + [] == entries;
        NothingBetween(instance, rules, Slot(n - 1, 0, 0), Slot(n, 0, 0));
        SameSlots(instance, rules, Slot(n - 1, 0, 0), Slot(n, 0, 0), slots, entries);
      }
    }
  }

  /**
    The result is exactly one entry per rule, protocol and port over the rules that apply, in
    input order, and each entry has its own port bounds.
   */
  lemma OneEntryPerPort(instance: Instance, rules: seq<Rule>) returns (slots: seq<Slot>)
    ensures var entries := InstanceEntries(instance, rules);
            && |slots| == |entries|
            && (forall i, j :: 0 <= i < j < |slots| ==> Before(slots[i], slots[j]))
            && (forall s :: s in slots <==> ValidSlot(instance, rules, s))
            && (forall i :: 0 <= i < |slots| ==>
                  ValidSlot(instance, rules, slots[i]) && entries[i] == EntryAt(rules, slots[i]))
  {
    slots := InstanceSlots(instance, rules, |rules|);
    assert rules[..|rules|] == rules;
  }

  // ---------- what one entry says ----------

  /**
    A port without a dash is both bounds. With dashes the bounds are what stands before the
    first one and between it and the next; whatever follows is dropped.
   */
  lemma PortBounds(low: string, high: string, rest: string)
    requires '-' !in low && '-' !in high
    ensures GetPortMinMax(low) == (low, low)
    ensures GetPortMinMax(low + "-" + high) == (low, high)
    ensures GetPortMinMax(low + "-" + high + "-" + rest) == (low, high)
  {
    SplitWithout(low, '-');
    SplitFirst(low, '-', high);
    SplitWithout(high, '-');
    assert low + ['-'] + high == low + "-" + high;
    SplitFirst(high, '-', rest);
    SplitFirst(low, '-', high + ['-'] + rest);
    assert low + ['-'] + (high + ['-'] + rest) == low + "-" + high + "-" + rest;
  }

  /** The two bounds that a port text holds: itself twice, or what stands before its first dash and before its next. */
  ghost predicate AreBounds(port: string, low: string, high: string)
  {
    || ('-' !in port && low == port == high)
    || ('-' !in low && '-' !in high && port == low + "-" + high)
    || ('-' !in low && '-' !in high && exists rest :: port == low + "-" + high + "-" + rest)
  }

  lemma JoinFirst(pieces: seq<string>)
    requires |pieces| > 1
    ensures Join(pieces, '-') == pieces[0] + "-" + Join(pieces[1..], '-')
  {
    assert ['-'] == "-";
  }

  lemma JoinOfMany(pieces: seq<string>)
    requires |pieces| > 1
    ensures |pieces| == 2 ==> Join(pieces, '-') == pieces[0] + "-" + pieces[1]
    ensures |pieces| > 2 ==> Join(pieces, '-') == pieces[0] + "-" + pieces[1] + "-" + Join(pieces[2..], '-')
  {
    var low, high := pieces[0], pieces[1];
    JoinFirst(pieces);
    if |pieces| > 2 {
      JoinFirst(pieces[1..]);
      assert pieces[1..][1..] == pieces[2..];
      AppendRegroups(low + "-", high + "-", Join(pieces[2..], '-'));
      AppendRegroups(low, "-", high + "-" + Join(pieces[2..], '-'));
      AppendRegroups(low + "-", high, "-");
    }
  }

  lemma BoundsExact(port: string)
    ensures AreBounds(port, GetPortMinMax(port).0, GetPortMinMax(port).1)
  {
    var pieces := Split(port, '-');
    JoinSplit(port, '-');
    assert '-' !in pieces[0] by {
      assert pieces[0] in pieces;
    }
    if |pieces| == 1 {
      assert port == pieces[0];
    } else {
      var low, high := pieces[0], pieces[1];
      assert '-' !in high by {
        assert pieces[1] in pieces;
      }
      JoinOfMany(pieces);
      assert GetPortMinMax(port) == (low, high);
      if |pieces| == 2 {
        assert port == low + "-" + high;
      } else {
        assert port == low + "-" + high + "-" + Join(pieces[2..], '-');
      }
    }
  }

  /** The items of the rule: the allowed ones, or without those the denied ones. */
  ghost predicate IsItem(rule: Rule, p: nat, item: Protocol)
  {
    || (rule.allowed.Some? && p < |rule.allowed.value| && item == rule.allowed.value[p])
    || (rule.allowed.None? && rule.denied.Some? && p < |rule.denied.value| && item == rule.denied.value[p])
  }

  /** The place is a port of an item of a rule that applies. */
  ghost predicate IsPort(instance: Instance, rules: seq<Rule>, slot: Slot, item: Protocol)
  {
    && slot.rule < |rules| && Applies(instance, rules[slot.rule])
    && IsItem(rules[slot.rule], slot.protocol, item) && slot.port < |item.ports|
  }

  /** The entry of a port, over the rule's own fields. */
  ghost predicate IsEntry(entry: Entry, rule: Rule, item: Protocol, port: string)
  {
    && entry.ruleId == rule.id && entry.ruleName == rule.name && entry.priority == rule.priority
    && entry.protocol == item.ipProtocol && entry.direction == "outbound"
    && entry.action == (if rule.allowed.Some? then "allow" else "deny")
    && AreBounds(port, entry.portMin, entry.portMax)
  }

  /** The entry of the port at the place. */
  ghost predicate IsEntryAt(instance: Instance, rules: seq<Rule>, slot: Slot, entry: Entry)
  {
    exists item :: && IsPort(instance, rules, slot, item)
                   && IsEntry(entry, rules[slot.rule], item, item.ports[slot.port])
  }

  lemma ItemExact(rule: Rule, p: nat, item: Protocol)
    ensures IsItem(rule, p, item) <==> p < |ListProtocols(rule)| && ListProtocols(rule)[p] == item
  {
  }

  /** The entries are those of the ports of the rules that apply, each once, in input order, and say what the rule says. */
  lemma EntriesSayTheRule(instance: Instance, rules: seq<Rule>) returns (slots: seq<Slot>)
    ensures |slots| == |InstanceEntries(instance, rules)|
    ensures forall i, j :: 0 <= i < j < |slots| ==> Before(slots[i], slots[j])
    ensures forall s :: s in slots <==> exists item :: IsPort(instance, rules, s, item)
    ensures forall i :: 0 <= i < |slots| ==> IsEntryAt(instance, rules, slots[i], InstanceEntries(instance, rules)[i])
  {
    slots := OneEntryPerPort(instance, rules);
    forall s
      ensures s in slots <==> exists item :: IsPort(instance, rules, s, item)
    {
      PortIsValid(instance, rules, s);
    }
    forall i | 0 <= i < |slots|
      ensures IsEntryAt(instance, rules, slots[i], InstanceEntries(instance, rules)[i])
    {
      var rule := rules[slots[i].rule];
      var item := ListProtocols(rule)[slots[i].protocol];
      ItemExact(rule, slots[i].protocol, item);
      assert IsPort(instance, rules, slots[i], item);
      DirectionIsAlwaysOutbound(rule);
      BoundsExact(item.ports[slots[i].port]);
      assert IsEntry(InstanceEntries(instance, rules)[i], rule, item, item.ports[slots[i].port]);
    }
  }

  lemma PortIsValid(instance: Instance, rules: seq<Rule>, s: Slot)
    ensures ValidSlot(instance, rules, s) <==> exists item :: IsPort(instance, rules, s, item)
  {
    if ValidSlot(instance, rules, s) {
      var item := ListProtocols(rules[s.rule])[s.protocol];
      ItemExact(rules[s.rule], s.protocol, item);
      assert IsPort(instance, rules, s, item);
    }
    if item :| IsPort(instance, rules, s, item) {
      ItemExact(rules[s.rule], s.protocol, item);
    }
  }

  /** The direction was lower-cased before the comparison, so every entry says "outbound". */
  lemma DirectionIsAlwaysOutbound(rule: Rule)
    ensures ShownDirection(rule) == "outbound"
    ensures ShownDirection(rule) == GetDirection(rule.direction) <==> rule.direction != "INGRESS"
  {
    assert forall c :: LowerChar(c) != 'I';
    assert "INGRESS"[0] == 'I';
  }
}
