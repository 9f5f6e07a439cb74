/**
  Recommendations grouped by recommender. The groups live in a module-level table of
  dictionaries that outlives a collection: the first list of a recommender is adopted into
  its entry as the very same object, later ones are appended to it element by element.
 */
module Recommenders {
  import opened Basics
  import opened Rounding
  import opened Sequences
  import opened RecommendationTotals

  /** The descriptive part that `update` copies into a table entry. */
  datatype Info = Info(id: string, name: string, description: string, category: string)

  /** A list object; two variables may hold the same one. */
  class RecommendationList {
    var items: seq<Recommendation>

    constructor (items: seq<Recommendation>)
      ensures this.items == items
    {
      this.items := items;
    }

    method Append(recommendation: Recommendation)
      modifies this
      ensures items == old(items) + [recommendation]
    {
      items := items + [recommendation];
    }
  }

  /** A recommender dictionary as built for one recommendation. */
  class Recommender {
    const info: Info
    const recommendations: RecommendationList

    constructor (info: Info, recommendations: RecommendationList)
      ensures this.info == info && this.recommendations == recommendations
    {
      this.info, this.recommendations := info, recommendations;
    }
  }

  /** What the totals write into an entry. */
  datatype Summary = Summary(
    costSavings: Option<real>,
    resourceCount: Option<nat>,
    state: Option<State>,
    primaryPriorityLevel: Option<Level>)

  /** An entry of the table; `recommendations` is null until a list is adopted. */
  class Entry {
    var info: Info
    var recommendations: RecommendationList?
    var summary: Summary

    constructor (info: Info)
      ensures this.info == info && recommendations == null && summary == Summary(None, None, None, None)
    {
      this.info := info;
      recommendations := null;
      summary := Summary(None, None, None, None);
    }

    /** The entry as a value. */
    ghost function State(): EntryState
      reads this, recommendations
    {
      EntryState(info, if recommendations == null then None else Some(recommendations.items), summary)
    }
  }

  // ---------- building the recommenders ----------

  /** One preprocessed recommendation: its recommender's description and its own record. */
  datatype Preprocessed = Preprocessed(info: Info, recommendation: Recommendation)

  /** Each recommendation gets a dictionary with a new list of its own. */
  method CreateRecommenders(preprocessed: seq<Preprocessed>) returns (recommenders: seq<Recommender>)
    ensures |recommenders| == |preprocessed|
    ensures forall i :: 0 <= i < |recommenders| ==>
              && recommenders[i].info == preprocessed[i].info
              && fresh(recommenders[i].recommendations)
              && recommenders[i].recommendations.items == [preprocessed[i].recommendation]
    ensures OwnLists(recommenders)
  {
    recommenders := [];
    for i := 0 to |preprocessed|
      invariant |recommenders| == i
      invariant forall k :: 0 <= k < i ==>
                  && recommenders[k].info == preprocessed[k].info
                  && fresh(recommenders[k].recommendations)
                  && recommenders[k].recommendations.items == [preprocessed[k].recommendation]
      invariant OwnLists(recommenders)
    {
      var redefined := new RecommendationList([preprocessed[i].recommendation]);
      var recommender := new Recommender(preprocessed[i].info, redefined);
      recommenders := recommenders + [recommender];
    }
  }

  /** No two recommenders share a list object. */
  ghost predicate OwnLists(recommenders: seq<Recommender>)
  {
    forall i, j :: 0 <= i < j < |recommenders| ==> recommenders[i].recommendations != recommenders[j].recommendations
  }

  // ---------- the merge as a value ----------

  /** What one recommender brings: its description with its id, and its recommendations. */
  datatype Delivery = Delivery(info: Info, items: seq<Recommendation>)

  /** What an entry holds; no items while no list is adopted. */
  datatype EntryState = EntryState(info: Info, items: Option<seq<Recommendation>>, summary: Summary)

  /** An entry without a list takes the delivery over as it is; one with a list only takes the items. */
  function Received(state: EntryState, delivery: Delivery): EntryState
  {
    match state.items
    case None => EntryState(delivery.info, Some(delivery.items), state.summary)
    case Some(items) => state.(items := Some(items + delivery.items))
  }

  /** The entry of `id` after the deliveries. */
  function Merged(id: string, state: EntryState, deliveries: seq<Delivery>): EntryState
  {
    if deliveries == [] then state
    else
      var last := deliveries[|deliveries| - 1];
      var before := Merged(id, state, deliveries[..|deliveries| - 1]);
      if last.info.id == id then Received(before, last) else before
  }

  lemma MergedStep(id: string, state: EntryState, deliveries: seq<Delivery>, i: nat)
    requires i < |deliveries|
    ensures Merged(id, state, deliveries[..i + 1]) ==
              var before := Merged(id, state, deliveries[..i]);
              if deliveries[i].info.id == id then Received(before, deliveries[i]) else before
  {
    assert deliveries[..i + 1][..i] == deliveries[..i];
  }

  /** Everything delivered for one id, in order. */
  function Delivered(deliveries: seq<Delivery>, id: string): seq<Recommendation>
  {
    if deliveries == [] then []
    else Delivered(deliveries[..|deliveries| - 1], id) +
         (if deliveries[|deliveries| - 1].info.id == id then deliveries[|deliveries| - 1].items else [])
  }

  /** One delivery is its items in their order, or nothing for another id. */
  lemma DeliveredOne(delivery: Delivery, id: string)
    ensures Delivered([delivery], id) == if delivery.info.id == id then delivery.items else []
  {
    assert [delivery][..0] == [];
    assert Delivered([], id) == [];
  }

  ghost predicate Mentions(deliveries: seq<Delivery>, id: string)
  {
    exists d :: d in deliveries && d.info.id == id
  }

  /**
    An id's list is its old list followed by everything delivered for it, in order; it exists
    once there was an old list or a delivery. The totals written earlier stay as they are.
   */
  lemma {:induction false} MergedItems(id: string, state: EntryState, deliveries: seq<Delivery>)
    ensures var after := Merged(id, state, deliveries);
            && (after.items.None? <==> state.items.None? && !Mentions(deliveries, id))
            && after.items.GetOr([]) == state.items.GetOr([]) + Delivered(deliveries, id)
            && after.summary == state.summary
            && (!Mentions(deliveries, id) ==> after == state)
  {
    if deliveries != [] {
      var front, last := deliveries[..|deliveries| - 1], deliveries[|deliveries| - 1];
      MergedItems(id, state, front);
      assert forall d :: d in deliveries <==> d in front || d == last;
      assert Mentions(deliveries, id) <==> Mentions(front, id) || last.info.id == id;
    }
  }

  /** An entry keeps its own description once it has a list, and otherwise takes the first one delivered. */
  lemma {:induction false} MergedInfo(id: string, state: EntryState, deliveries: seq<Delivery>, k: nat)
    requires k < |deliveries| && deliveries[k].info.id == id && !Mentions(deliveries[..k], id)
    ensures Merged(id, state, deliveries).info == if state.items.Some? then state.info else deliveries[k].info
    ensures Merged(id, state, deliveries).items.Some?
  {
    var front := deliveries[..|deliveries| - 1];
    if k == |front| {
      assert deliveries[..k] == front;
      MergedItems(id, state, front);
    } else {
      assert front[..k] == deliveries[..k];
      MergedInfo(id, state, front, k);
    }
  }

  /** Deliveries of two collections one after the other are one longer list of deliveries. */
  lemma {:induction false} MergedTwice(id: string, state: EntryState, first: seq<Delivery>, second: seq<Delivery>)
    ensures Merged(id, Merged(id, state, first), second) == Merged(id, state, first + second)
  {
    if second == [] {
      assert first + second == first;
    } else {
      assert (first + second)[..|first + second| - 1] == first + second[..|second| - 1];
      MergedTwice(id, state, first, second[..|second| - 1]);
    }
  }

  /**
    Nothing is cleared between collections: the same deliveries collected a second time stand
    in the list a second time.
   */
  lemma CollectingTwiceDoubles(id: string, state: EntryState, deliveries: seq<Delivery>)
    ensures Merged(id, Merged(id, state, deliveries), deliveries).items.GetOr([]) ==
              state.items.GetOr([]) + Delivered(deliveries, id) + Delivered(deliveries, id)
  {
    MergedItems(id, state, deliveries);
    MergedItems(id, Merged(id, state, deliveries), deliveries);
  }

  /** The list of an id is its own deliveries exactly when the entry held nothing before. */
  lemma GroupIsItsOwnExactlyWhenNew(id: string, state: EntryState, deliveries: seq<Delivery>)
    ensures Merged(id, state, deliveries).items.GetOr([]) == Delivered(deliveries, id) <==> state.items.GetOr([]) == []
  {
    MergedItems(id, state, deliveries);
    assert [] + Delivered(deliveries, id) == Delivered(deliveries, id);
  }

  /** And so are its totals, when there are any. */
  lemma TotalsAreTheirOwnExactlyWhenNew(id: string, state: EntryState, deliveries: seq<Delivery>, isCost: bool)
    requires TotalsOf(Merged(id, state, deliveries).items.GetOr([]), isCost).Success?
    ensures TotalsOf(Merged(id, state, deliveries).items.GetOr([]), isCost) == TotalsOf(Delivered(deliveries, id), isCost)
       <==> state.items.GetOr([]) == []
  {
    MergedItems(id, state, deliveries);
    OlderItemsShow(state.items.GetOr([]), Delivered(deliveries, id), isCost);
  }

  // ---------- grouping keeps every recommendation ----------

  function AllDelivered(deliveries: seq<Delivery>): seq<Recommendation>
  {
    if deliveries == [] then []
    else AllDelivered(deliveries[..|deliveries| - 1]) + deliveries[|deliveries| - 1].items
  }

  /** The groups of the ids, one after the other. */
  function Grouped(ids: seq<string>, deliveries: seq<Delivery>): seq<Recommendation>
  {
    if ids == [] then []
    else Grouped(ids[..|ids| - 1], deliveries) + Delivered(deliveries, ids[|ids| - 1])
  }

  lemma {:induction false} GroupedStep(ids: seq<string>, front: seq<Delivery>, last: Delivery)
    requires forall i, j :: 0 <= i < j < |ids| ==> ids[i] != ids[j]
    ensures multiset(Grouped(ids, front + [last])) ==
              multiset(Grouped(ids, front)) + (if last.info.id in ids then multiset(last.items) else multiset{})
  {
    if ids != [] {
      var rest, id := ids[..|ids| - 1], ids[|ids| - 1];
      assert ids == rest + [id];
      GroupedStep(rest, front, last);
      assert (front + [last])[..|front|] == front;
      assert Delivered(front + [last], id) == Delivered(front, id) + (if last.info.id == id then last.items else []);
      assert last.info.id == id ==> last.info.id !in rest;
    }
  }

  /** Grouping by id loses and doubles nothing: all groups together are all deliveries together. */
  lemma {:induction false} GroupingConserves(ids: seq<string>, deliveries: seq<Delivery>)
    requires forall i, j :: 0 <= i < j < |ids| ==> ids[i] != ids[j]
    requires forall d :: d in deliveries ==> d.info.id in ids
    ensures multiset(Grouped(ids, deliveries)) == multiset(AllDelivered(deliveries))
  {
    if deliveries == [] {
      NothingGrouped(ids);
    } else {
      var front, last := deliveries[..|deliveries| - 1], deliveries[|deliveries| - 1];
      assert deliveries == front + [last];
      GroupingConserves(ids, front);
      GroupedStep(ids, front, last);
    }
  }

  lemma {:induction false} NothingGrouped(ids: seq<string>)
    ensures Grouped(ids, []) == []
  {
    if ids != [] {
      NothingGrouped(ids[..|ids| - 1]);
    }
  }

  // ---------- the merge on the heap ----------

  ghost function DeliveriesOf(recommenders: seq<Recommender>): (deliveries: seq<Delivery>)
    reads set r | r in recommenders :: r.recommendations
    ensures |deliveries| == |recommenders|
    ensures forall i :: 0 <= i < |recommenders| ==>
              deliveries[i] == Delivery(recommenders[i].info, recommenders[i].recommendations.items)
  {
    seq(|recommenders|, i requires 0 <= i < |recommenders| reads set r | r in recommenders :: r.recommendations =>
      Delivery(recommenders[i].info, recommenders[i].recommendations.items))
  }

  class RecommendationManager {
    /** The table; the dictionaries behind it are shared by all collections of the process. */
    const recommenderMap: map<string, Entry>

    constructor (recommenderMap: map<string, Entry>)
      ensures this.recommenderMap == recommenderMap
    {
      this.recommenderMap := recommenderMap;
    }

    /** Different ids have different entries, and no two entries share a list. */
    ghost predicate Separated()
      reads recommenderMap.Values
    {
      forall a, b :: a in recommenderMap && b in recommenderMap && a != b ==>
        && recommenderMap[a] != recommenderMap[b]
        && (recommenderMap[a].recommendations != null ==>
              recommenderMap[a].recommendations != recommenderMap[b].recommendations)
    }

    /** The list is in no entry of the table. */
    ghost predicate Unused(list: RecommendationList)
      reads recommenderMap.Values
    {
      forall a :: a in recommenderMap ==> recommenderMap[a].recommendations != list
    }

    /**
      One recommender. The loop walks the recommender's list while the entry's list grows: it
      ends because the two are different objects.
     */
    method MergeOne(recommender: Recommender)
      requires recommender.info.id in recommenderMap
      requires Separated() && Unused(recommender.recommendations)
      modifies recommenderMap[recommender.info.id]
      modifies recommenderMap[recommender.info.id].recommendations
      ensures Separated()
      ensures var entry := recommenderMap[recommender.info.id];
              && entry.recommendations == (if old(entry.recommendations) == null then recommender.recommendations
                                           else old(entry.recommendations))
              && entry.State() == Received(old(entry.State()), Delivery(recommender.info, old(recommender.recommendations.items)))
      ensures recommender.recommendations.items == old(recommender.recommendations.items)
      ensures forall id :: id in recommenderMap && id != recommender.info.id ==>
                && recommenderMap[id].recommendations == old(recommenderMap[id].recommendations)
                && recommenderMap[id].State() == old(recommenderMap[id].State())
    {
      var entry := recommenderMap[recommender.info.id];
      if entry.recommendations == null {
        entry.info := recommender.info;
        entry.recommendations := recommender.recommendations;
      } else {
        var source := recommender.recommendations;
        var target := entry.recommendations;
        var j := 0;
        while j < |source.items|
          invariant 0 <= j <= |source.items|
          invariant source.items == old(source.items)
          invariant target.items == old(target.items) + source.items[..j]
          decreases |source.items| - j
          modifies target
        {
          target.Append(source.items[j]);
          j := j + 1;
        }
        assert source.items[..|source.items|] == source.items;
      }
    }

    /** The list objects the merge may append to: those of the table and those it is given. */
    ghost function Lists(recommenders: seq<Recommender>): set<object>
      reads recommenderMap.Values
    {
      (set id | id in recommenderMap && recommenderMap[id].recommendations != null :: recommenderMap[id].recommendations)
      + (set r | r in recommenders :: r.recommendations)
    }

    /**
      All recommenders. An unknown id stops the merge with a key error; what was merged before
      stays merged. Otherwise the i-th result is the very entry of the i-th recommender's id.
     */
    method MergeRecommenders(recommenders: seq<Recommender>) returns (merged: seq<Entry>, keyError: Option<string>)
      requires Separated() && OwnLists(recommenders)
      requires forall r :: r in recommenders ==> Unused(r.recommendations)
      modifies recommenderMap.Values, Lists(recommenders)
      ensures Separated()
      ensures |merged| <= |recommenders| && ResultsAreEntries(recommenders, merged)
      ensures match keyError
              case None => |merged| == |recommenders|
              case Some(id) => |merged| < |recommenders| && id == recommenders[|merged|].info.id && id !in recommenderMap
      ensures forall id :: id in recommenderMap ==>
                recommenderMap[id].State() ==
                  Merged(id, old(recommenderMap[id].State()), old(DeliveriesOf(recommenders))[..|merged|])
    {
      ghost var deliveries := DeliveriesOf(recommenders);
      ghost var states := map id | id in recommenderMap :: recommenderMap[id].State();
      assert deliveries[..0] == [];
      merged, keyError := MergeLoop(recommenders, states, deliveries);
    }

    method MergeLoop(recommenders: seq<Recommender>, ghost states: map<string, EntryState>, ghost deliveries: seq<Delivery>)
      returns (merged: seq<Entry>, keyError: Option<string>)
      requires |deliveries| == |recommenders| && Separated() && OwnLists(recommenders)
      requires Waiting(recommenders, deliveries, 0) && MergedUpTo(states, deliveries, 0)
      modifies recommenderMap.Values, Lists(recommenders)
      ensures Separated() && |merged| <= |recommenders| && ResultsAreEntries(recommenders, merged)
      ensures match keyError
              case None => |merged| == |recommenders|
              case Some(id) => |merged| < |recommenders| && id == recommenders[|merged|].info.id && id !in recommenderMap
      ensures MergedUpTo(states, deliveries, |merged|)
    {
      merged, keyError := [], None;
      ghost var lists := Lists(recommenders);
      for i := 0 to |recommenders|
        invariant Progress(recommenders, states, deliveries, lists, merged, i)
      {
        if recommenders[i].info.id !in recommenderMap {
          return merged, Some(recommenders[i].info.id);
        }
        merged := MergeNext(recommenders, states, deliveries, lists, merged);
      }
    }

    /** The loop's state when `i` recommenders are merged. */
    ghost predicate Progress(recommenders: seq<Recommender>, states: map<string, EntryState>, deliveries: seq<Delivery>,
                             lists: set<object>, merged: seq<Entry>, i: nat)
      reads recommenderMap.Values, set id | id in recommenderMap :: recommenderMap[id].recommendations
      reads set r | r in recommenders :: r.recommendations
    {
      && i == |merged| <= |recommenders| == |deliveries|
      && ResultsAreEntries(recommenders, merged)
      && Separated() && Waiting(recommenders, deliveries, i) && MergedUpTo(states, deliveries, i)
      && HoldsOnly(lists)
    }

    ghost predicate HoldsOnly(lists: set<object>)
      reads recommenderMap.Values
    {
      forall id :: id in recommenderMap && recommenderMap[id].recommendations != null ==>
        recommenderMap[id].recommendations in lists
    }

    /** The table holds what the first `i` deliveries make of the states it started with. */
    ghost predicate MergedUpTo(states: map<string, EntryState>, deliveries: seq<Delivery>, i: nat)
      requires i <= |deliveries|
      reads recommenderMap.Values, set id | id in recommenderMap :: recommenderMap[id].recommendations
    {
      forall id :: id in recommenderMap ==>
        id in states && recommenderMap[id].State() == Merged(id, states[id], deliveries[..i])
    }

    /** The body of the merge loop. */
    method MergeNext(recommenders: seq<Recommender>, ghost states: map<string, EntryState>, ghost deliveries: seq<Delivery>,
                     ghost lists: set<object>, merged: seq<Entry>) returns (more: seq<Entry>)
      requires |merged| < |recommenders| && recommenders[|merged|].info.id in recommenderMap
      requires OwnLists(recommenders) && recommenders[|merged|].recommendations in lists
      requires Progress(recommenders, states, deliveries, lists, merged, |merged|)
      modifies recommenderMap.Values, lists
      ensures Progress(recommenders, states, deliveries, lists, more, |merged| + 1)
    {
      ghost var i := |merged|;
      var recommender := recommenders[|merged|];
      MergeOne(recommender);
      forall id | id in recommenderMap
        ensures recommenderMap[id].State() == Merged(id, states[id], deliveries[..i + 1])
      {
        MergedStep(id, states[id], deliveries, i);
      }
      more := merged + [recommenderMap[recommender.info.id]];
    }

    ghost predicate ResultsAreEntries(recommenders: seq<Recommender>, merged: seq<Entry>)
    {
      |merged| <= |recommenders| &&
      forall i :: 0 <= i < |merged| ==>
        recommenders[i].info.id in recommenderMap && merged[i] == recommenderMap[recommenders[i].info.id]
    }

    /** The recommenders from `i` on still have their lists to themselves, unchanged. */
    ghost predicate Waiting(recommenders: seq<Recommender>, deliveries: seq<Delivery>, i: nat)
      requires |deliveries| == |recommenders|
      reads recommenderMap.Values, set r | r in recommenders :: r.recommendations
    {
      forall k :: i <= k < |recommenders| ==>
        && Unused(recommenders[k].recommendations)
        && deliveries[k] == Delivery(recommenders[k].info, recommenders[k].recommendations.items)
    }
  }

  // ---------- the totals of the merged entries ----------

  /** The totals of an entry; a zero total or count leaves what was written earlier. */
  function Summarised(state: EntryState): Result<EntryState, TotalsError>
  {
    match TotalsOf(state.items.GetOr([]), state.info.category == "COST")
    case Failure(e) => Failure(e)
    case Success(totals) =>
      var (shown, level) := GetStateAndPriority(totals.levels);
      Success(state.(summary := Summary(
        if totals.cost != 0.0 then Some(Round2(totals.cost)) else state.summary.costSavings,
        if totals.resourceCount != 0 then Some(totals.resourceCount) else state.summary.resourceCount,
        Some(shown), Some(level))))
  }

  /** The entry after its totals were tried; a failure leaves it alone. */
  function AfterTotals(state: EntryState): EntryState
  {
    match Summarised(state)
    case Success(next) => next
    case Failure(_) => state
  }

  /** A record with exactly these values; a zero sum and a zero count leave what was there. */
  ghost predicate IsRecord(state: EntryState, next: EntryState)
  {
    var items := state.items.GetOr([]);
    var costs := if state.info.category == "COST" then SumOfCosts(items) else 0.0;
    && next.items == state.items && next.info == state.info
    && next.summary.costSavings == (if costs == 0.0 then state.summary.costSavings else Some(Round2(costs)))
    && next.summary.resourceCount == (if Affected(items) == 0 then state.summary.resourceCount else Some(Affected(items)))
    && next.summary.primaryPriorityLevel.Some? && next.summary.state.Some?
  }

  /**
    The record in terms of the recommendations: it exists exactly when every priority is counted
    and no needed cost is missing; only the COST category shows savings, the sum of its costs;
    the primary priority is the highest one of the list and the state follows it.
   */
  lemma RecordIsExact(state: EntryState)
    ensures Summarised(state).Success? <==> Summable(state.items.GetOr([]), state.info.category == "COST")
    ensures Summarised(state).Success? ==>
              var items, next := state.items.GetOr([]), Summarised(state).value;
              && IsRecord(state, next)
              && (items != [] <==> exists r :: r in items && r.priorityLevel == next.summary.primaryPriorityLevel)
              && (items == [] ==> next.summary.primaryPriorityLevel == Some(Lowest))
              && (forall r :: r in items ==>
                    Rank(r.priorityLevel.GetOr(Unspecified)) <= Rank(next.summary.primaryPriorityLevel.value))
              && next.summary.state.value == (match next.summary.primaryPriorityLevel.value
                                              case Highest => ERROR
                                              case SecondHighest => WARNING
                                              case _ => OK)
  {
    var items, isCost := state.items.GetOr([]), state.info.category == "COST";
    TotalsExist(items, isCost);
    if Summarised(state).Success? {
      CostIsTheSum(items, isCost);
      CountsAreExact(items, isCost);
      PrimaryPriorityIsTheHighest(items, isCost);
    }
  }

  /** Outside the COST category, and for costs that add up to nothing, the savings stay as they were. */
  lemma NoSavingsOutsideCost(state: EntryState)
    requires Summarised(state).Success?
    requires state.info.category != "COST" || SumOfCosts(state.items.GetOr([])) == 0.0
    ensures Summarised(state).value.summary.costSavings == state.summary.costSavings
  {
    RecordIsExact(state);
  }

  /** Doing the totals of the same entry again gives the same record. */
  lemma TotalsAgain(state: EntryState)
    ensures Summarised(AfterTotals(state)) == Summarised(state)
    ensures AfterTotals(AfterTotals(state)) == AfterTotals(state)
  {
    if Summarised(state).Success? {
      var next := Summarised(state).value;
      assert next.items == state.items && next.info == state.info;
    }
  }

  // ---------- collecting again ----------

  /** The entry of an id after `n` collections that all deliver the same: merged and totalled each time. */
  function AfterCollections(id: string, state: EntryState, deliveries: seq<Delivery>, n: nat): EntryState
  {
    if n == 0 then state else AfterTotals(Merged(id, AfterCollections(id, state, deliveries, n - 1), deliveries))
  }

  lemma {:induction false} MergedKeepsInfo(id: string, state: EntryState, deliveries: seq<Delivery>)
    requires state.items.Some?
    ensures Merged(id, state, deliveries).info == state.info && Merged(id, state, deliveries).items.Some?
  {
    if deliveries != [] {
      MergedKeepsInfo(id, state, deliveries[..|deliveries| - 1]);
    }
  }

  lemma {:induction false} ItemsAfterCollections(id: string, state: EntryState, deliveries: seq<Delivery>, n: nat)
    requires n > 0 && Mentions(deliveries, id)
    ensures var after := AfterCollections(id, state, deliveries, n);
            && after.items == Some(state.items.GetOr([]) + Repeated(Delivered(deliveries, id), n))
            && after.info == Merged(id, state, deliveries).info
  {
    var before := AfterCollections(id, state, deliveries, n - 1);
    var delivered := Delivered(deliveries, id);
    MergedItems(id, before, deliveries);
    if n == 1 {
      assert Repeated(delivered, 0) == [];
      assert Repeated(delivered, 1) == delivered;
    } else {
      ItemsAfterCollections(id, state, deliveries, n - 1);
      MergedKeepsInfo(id, before, deliveries);
      assert state.items.GetOr([]) + Repeated(delivered, n) == state.items.GetOr([]) + Repeated(delivered, n - 1) + delivered;
    }
  }

  /** The record shows these totals; zero ones are not shown. */
  predicate Shows(summary: Summary, totals: Totals)
  {
    && (totals.cost != 0.0 ==> summary.costSavings == Some(Round2(totals.cost)))
    && (totals.resourceCount != 0 ==> summary.resourceCount == Some(totals.resourceCount))
    && summary.state == Some(GetStateAndPriority(totals.levels).0)
    && summary.primaryPriorityLevel == Some(GetStateAndPriority(totals.levels).1)
  }

  lemma TotalledShows(state: EntryState, totals: Totals)
    requires TotalsOf(state.items.GetOr([]), state.info.category == "COST") == Success(totals)
    ensures Shows(AfterTotals(state).summary, totals)
    ensures AfterTotals(state).items == state.items && AfterTotals(state).info == state.info
  {
  }

  lemma AfterTotalsKeeps(state: EntryState)
    ensures AfterTotals(state).items == state.items && AfterTotals(state).info == state.info
  {
  }

  /** Old items, then the same items `n` times: what the totals are. */
  lemma TotalsOfOldAndRepeated(older: seq<Recommendation>, delivered: seq<Recommendation>, isCost: bool, n: nat,
                               first: Totals, again: Totals)
    requires TotalsOf(older, isCost) == Success(first) && TotalsOf(delivered, isCost) == Success(again)
    ensures TotalsOf(older + Repeated(delivered, n), isCost) == Success(AddedTotals(first, Scaled(again, n)))
  {
    TotalsOfRepeated(delivered, isCost, n, again);
    TotalsOfSuccesses(older, Repeated(delivered, n), isCost, first, Scaled(again, n));
  }

  /**
    The record after `n` collections that deliver the same shows the totals of what the entry
    held at first plus `n` times those of the deliveries.
   */
  lemma RecordAfterCollections(id: string, state: EntryState, deliveries: seq<Delivery>, n: nat,
                               first: Totals, delivered: Totals)
    requires n > 0 && Mentions(deliveries, id)
    requires TotalsOf(state.items.GetOr([]), Merged(id, state, deliveries).info.category == "COST") == Success(first)
    requires TotalsOf(Delivered(deliveries, id), Merged(id, state, deliveries).info.category == "COST") == Success(delivered)
    ensures Shows(AfterCollections(id, state, deliveries, n).summary, AddedTotals(first, Scaled(delivered, n)))
  {
    var merged := Merged(id, AfterCollections(id, state, deliveries, n - 1), deliveries);
    ItemsAfterCollections(id, state, deliveries, n);
    AfterTotalsKeeps(merged);
    TotalsOfOldAndRepeated(state.items.GetOr([]), Delivered(deliveries, id),
                           Merged(id, state, deliveries).info.category == "COST", n, first, delivered);
    TotalledShows(merged, AddedTotals(first, Scaled(delivered, n)));
  }

  /** The totals of one entry: its record, or the error of a list that cannot be summed. */
  method Summarise(entry: Entry) returns (r: Result<EntryState, TotalsError>)
    requires entry.recommendations != null
    modifies entry`summary
    ensures r == Summarised(old(entry.State()))
    ensures entry.State() == AfterTotals(old(entry.State()))
  {
    var totals := SumUp(entry.recommendations.items, entry.info.category);
    match totals {
      case Failure(e) => r := Failure(e);
      case Success(sums) =>
        var summary := entry.summary;
        if sums.cost != 0.0 {
          summary := summary.(costSavings := Some(Round2(sums.cost)));
        }
        if sums.resourceCount != 0 {
          summary := summary.(resourceCount := Some(sums.resourceCount));
        }
        var (shown, level) := GetStateAndPriority(sums.levels);
        entry.summary := summary.(state := Some(shown), primaryPriorityLevel := Some(level));
        r := Success(EntryState(entry.info, Some(entry.recommendations.items), entry.summary));
    }
  }

  /**
    The totals of all merged entries. One entry may stand in the list many times; every
    occurrence gives the record that the entry alone determines.
   */
  method SummariseAll(merged: seq<Entry>) returns (records: seq<Result<EntryState, TotalsError>>)
    requires forall e :: e in merged ==> e.recommendations != null
    modifies set e | e in merged :: e`summary
    ensures |records| == |merged|
    ensures forall k :: 0 <= k < |merged| ==> records[k] == Summarised(old(merged[k].State()))
    ensures forall e :: e in merged ==> e.State() == AfterTotals(old(e.State()))
  {
    records := [];
    for i := 0 to |merged|
      invariant |records| == i
      invariant forall k :: 0 <= k < i ==> records[k] == Summarised(old(merged[k].State()))
      invariant forall k :: 0 <= k < i ==> merged[k].State() == AfterTotals(old(merged[k].State()))
      invariant forall e :: e in merged ==>
                  e.recommendations != null && (e.State() == old(e.State()) || e.State() == AfterTotals(old(e.State())))
    {
      TotalsAgain(old(merged[i].State()));
      var r := Summarise(merged[i]);
      records := records + [r];
    }
  }

  /**
    The whole aggregation of one collection: group, merge into the table, total. With every id
    in the table there is one record per recommendation, and all records of one recommender
    are the same: that of everything the table held for it and everything delivered now.
   */
  method Aggregate(manager: RecommendationManager, preprocessed: seq<Preprocessed>)
    returns (records: seq<Result<EntryState, TotalsError>>)
    requires manager.Separated()
    requires forall p :: p in preprocessed ==> p.info.id in manager.recommenderMap
    modifies manager.recommenderMap.Values, manager.Lists([])
    ensures manager.Separated()
    ensures |records| == |preprocessed|
    ensures forall i :: 0 <= i < |records| ==>
              var id := preprocessed[i].info.id;
              records[i] == Summarised(Merged(id, old(manager.recommenderMap[id].State()), AsDeliveries(preprocessed)))
  {
    var recommenders := CreateRecommenders(preprocessed);
    assert DeliveriesOf(recommenders) == AsDeliveries(preprocessed);
    var merged, keyError := manager.MergeRecommenders(recommenders);
    ghost var deliveries := AsDeliveries(preprocessed);
    assert deliveries[..|deliveries|] == deliveries;
    forall i | 0 <= i < |merged|
      ensures merged[i].recommendations != null
    {
      assert deliveries[i] in deliveries;
      MergedItems(preprocessed[i].info.id, old(manager.recommenderMap[preprocessed[i].info.id].State()), deliveries);
    }
    records := SummariseAll(merged);
  }

  function AsDeliveries(preprocessed: seq<Preprocessed>): (deliveries: seq<Delivery>)
    ensures |deliveries| == |preprocessed|
    ensures forall i :: 0 <= i < |preprocessed| ==>
              deliveries[i] == Delivery(preprocessed[i].info, [preprocessed[i].recommendation])
  {
    seq(|preprocessed|, i requires 0 <= i < |preprocessed| => Delivery(preprocessed[i].info, [preprocessed[i].recommendation]))
  }
}
