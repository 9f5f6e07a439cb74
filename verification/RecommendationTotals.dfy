/**
  Cost and priority of recommendations: the Money amount shown for one, and the total, the
  level counts and the primary priority of a recommender's whole list.
 */
module RecommendationTotals {
  import opened Basics
  import opened Rounding

  // ---------- one cost ----------

  /** `units` and `nanos` of the service's Money; absent parts are zero. */
  datatype Money = Money(units: int, nanos: int)

  function Absolute(x: real): real
  {
    if x < 0.0 then -x else x
  }

  function Amount(money: Money): real
  {
    money.units as real + money.nanos as real / 1000000000.0
  }

  /** The sum of the absolute parts, before rounding. */
  function UnroundedCost(money: Money): real
  {
    var nanos := if money.nanos < 0 then -money.nanos as real / 1000000000.0 else money.nanos as real / 1000000000.0;
    var units := if money.units < 0 then -money.units as real else money.units as real;
    nanos + units
  }

  function ChangeCost(money: Money): real
  {
    Round2(UnroundedCost(money))
  }

  predicate SameSigned(money: Money)
  {
    !(money.units < 0 < money.nanos) && !(money.nanos < 0 < money.units)
  }

  /** The parts add up to the absolute amount exactly when they do not have opposite signs. */
  lemma CostIsTheAbsoluteAmount(money: Money)
    ensures UnroundedCost(money) == Absolute(Amount(money)) <==> SameSigned(money)
    ensures SameSigned(money) ==> -0.005 <= ChangeCost(money) - Absolute(Amount(money)) <= 0.005
    ensures ChangeCost(money) >= 0.0
  {
    RoundNonNegative(UnroundedCost(money));
  }

  // ---------- priorities ----------

  datatype Level = Highest | SecondHighest | SecondLowest | Lowest | Unspecified

  function ConvertReadablePriority(priority: string): Level
  {
    if priority == "P1" then Highest
    else if priority == "P2" then SecondHighest
    else if priority == "P3" then SecondLowest
    else if priority == "P4" then Lowest
    else Unspecified
  }

  function Rank(level: Level): nat
  {
    match level
    case Highest => 4
    case SecondHighest => 3
    case SecondLowest => 2
    case Lowest => 1
    case Unspecified => 0
  }

  // ---------- the totals of a list ----------

  /** What the totals read of a recommendation; an absent value is None. */
  datatype Recommendation = Recommendation(
    description: string,
    affectedResource: Option<string>,
    priorityLevel: Option<Level>,
    cost: Option<real>)

  datatype Levels = Levels(lowest: nat, secondLowest: nat, highest: nat, secondHighest: nat)

  datatype Totals = Totals(cost: real, resourceCount: nat, levels: Levels)

  /** Adding None to a number, counting a level that is not one of the four. */
  datatype TotalsError = TypeError | KeyError

  function Counted(levels: Levels, level: Option<Level>): Result<Levels, TotalsError>
  {
    match level
    case Some(Lowest) => Success(levels.(lowest := levels.lowest + 1))
    case Some(SecondLowest) => Success(levels.(secondLowest := levels.secondLowest + 1))
    case Some(Highest) => Success(levels.(highest := levels.highest + 1))
    case Some(SecondHighest) => Success(levels.(secondHighest := levels.secondHighest + 1))
    case _ => Failure(KeyError)
  }

  predicate Affects(recommendation: Recommendation)
  {
    recommendation.affectedResource.Some? && recommendation.affectedResource.value != ""
  }

  function TotalsStep(totals: Totals, recommendation: Recommendation, isCost: bool): Result<Totals, TotalsError>
  {
    if isCost && recommendation.cost.None? then Failure(TypeError)
    else
      match Counted(totals.levels, recommendation.priorityLevel)
      case Failure(e) => Failure(e)
      case Success(levels) =>
        Success(Totals(if isCost then totals.cost + recommendation.cost.value else totals.cost,
                       if Affects(recommendation) then totals.resourceCount + 1 else totals.resourceCount,
                       levels))
  }

  const NO_TOTALS := Totals(0.0, 0, Levels(0, 0, 0, 0))

  function TotalsOf(recommendations: seq<Recommendation>, isCost: bool): Result<Totals, TotalsError>
  {
    if recommendations == [] then Success(NO_TOTALS)
    else
      match TotalsOf(recommendations[..|recommendations| - 1], isCost)
      case Failure(e) => Failure(e)
      case Success(totals) => TotalsStep(totals, recommendations[|recommendations| - 1], isCost)
  }

  lemma {:induction false} TotalsFailEarly(recommendations: seq<Recommendation>, isCost: bool, i: nat)
    requires i <= |recommendations| && TotalsOf(recommendations[..i], isCost).Failure?
    ensures TotalsOf(recommendations, isCost) == TotalsOf(recommendations[..i], isCost)
  {
    if i < |recommendations| {
      assert recommendations[..|recommendations| - 1][..i] == recommendations[..i];
      TotalsFailEarly(recommendations[..|recommendations| - 1], isCost, i);
    } else {
      assert recommendations[..i] == recommendations;
    }
  }

  method SumUp(recommendations: seq<Recommendation>, category: string) returns (r: Result<Totals, TotalsError>)
    ensures r == TotalsOf(recommendations, category == "COST")
  {
    var totalCost := 0.0;
    var resourceCount := 0;
    var levels := Levels(0, 0, 0, 0);
    var isCost := category == "COST";
    for i := 0 to |recommendations|
      invariant TotalsOf(recommendations[..i], isCost) == Success(Totals(totalCost, resourceCount, levels))
    {
      var recommendation := recommendations[i];
      assert recommendations[..i + 1][..i] == recommendations[..i];
      if isCost {
        if recommendation.cost.None? {
          TotalsFailEarly(recommendations, isCost, i + 1);
          return Failure(TypeError);
        }
        totalCost := totalCost + recommendation.cost.value;
      }
      if Affects(recommendation) {
        resourceCount := resourceCount + 1;
      }
      var counted := Counted(levels, recommendation.priorityLevel);
      match counted {
        case Failure(e) =>
          TotalsFailEarly(recommendations, isCost, i + 1);
          return Failure(e);
        case Success(next) => levels := next;
      }
    }
    assert recommendations[..|recommendations|] == recommendations;
    r := Success(Totals(totalCost, resourceCount, levels));
  }

  // ---------- the totals of lists put together ----------

  function AddedLevels(a: Levels, b: Levels): Levels
  {
    Levels(a.lowest + b.lowest, a.secondLowest + b.secondLowest, a.highest + b.highest, a.secondHighest + b.secondHighest)
  }

  function AddedTotals(a: Totals, b: Totals): Totals
  {
    Totals(a.cost + b.cost, a.resourceCount + b.resourceCount, AddedLevels(a.levels, b.levels))
  }

  /** The sum of two totals, or the error of the first part that has none. */
  function Added(a: Result<Totals, TotalsError>, b: Result<Totals, TotalsError>): Result<Totals, TotalsError>
  {
    if a.Failure? then a
    else if b.Failure? then b
    else Success(AddedTotals(a.value, b.value))
  }

  lemma CountedAdds(levels: Levels, more: Levels, level: Option<Level>)
    ensures Counted(AddedLevels(levels, more), level) ==
              match Counted(more, level)
              case Success(next) => Success(AddedLevels(levels, next))
              case Failure(e) => Failure(e)
  {
  }

  lemma StepAdds(a: Totals, b: Totals, recommendation: Recommendation, isCost: bool)
    ensures TotalsStep(AddedTotals(a, b), recommendation, isCost) ==
              Added(Success(a), TotalsStep(b, recommendation, isCost))
  {
    CountedAdds(a.levels, b.levels, recommendation.priorityLevel);
  }

  /** One more recommendation. */
  lemma TotalsOfNext(front: seq<Recommendation>, last: Recommendation, isCost: bool)
    ensures TotalsOf(front + [last], isCost) ==
              if TotalsOf(front, isCost).Failure? then TotalsOf(front, isCost)
              else TotalsStep(TotalsOf(front, isCost).value, last, isCost)
  {
    assert (front + [last])[..|front|] == front;
  }

  /** Two lists together have the sum of their totals, and none exactly when one of them has none. */
  lemma {:induction false} TotalsOfBoth(xs: seq<Recommendation>, ys: seq<Recommendation>, isCost: bool)
    ensures TotalsOf(xs + ys, isCost) == Added(TotalsOf(xs, isCost), TotalsOf(ys, isCost))
  {
    if ys == [] {
      assert xs + ys == xs;
    } else {
      var front, last := ys[..|ys| - 1], ys[|ys| - 1];
      assert ys == front + [last] && xs + ys == (xs + front) + [last];
      TotalsOfBoth(xs, front, isCost);
      TotalsOfNext(xs + front, last, isCost);
      TotalsOfNext(front, last, isCost);
      if TotalsOf(xs, isCost).Success? && TotalsOf(front, isCost).Success? {
        StepAdds(TotalsOf(xs, isCost).value, TotalsOf(front, isCost).value, last, isCost);
      }
    }
  }

  function Repeated<T>(xs: seq<T>, n: nat): seq<T>
  {
    if n == 0 then [] else Repeated(xs, n - 1) + xs
  }

  function Scaled(totals: Totals, n: nat): Totals
  {
    if n == 0 then NO_TOTALS else AddedTotals(Scaled(totals, n - 1), totals)
  }

  function Times(n: nat, x: real): real
  {
    if n == 0 then 0.0 else Times(n - 1, x) + x
  }

  lemma {:induction false} TimesIsProduct(n: nat, x: real)
    ensures Times(n, x) == n as real * x
  {
    if n > 0 {
      TimesIsProduct(n - 1, x);
      assert n as real * x == ((n - 1) as real + 1.0) * x;
    }
  }

  function TimesCount(n: nat, x: nat): nat
  {
    if n == 0 then 0 else TimesCount(n - 1, x) + x
  }

  lemma {:induction false} TimesCountIsProduct(n: nat, x: nat)
    ensures TimesCount(n, x) == n * x
  {
    if n > 0 {
      TimesCountIsProduct(n - 1, x);
      assert n * x == (n - 1) * x + x;
    }
  }

  lemma {:induction false} ScaledIsRepeatedSum(totals: Totals, n: nat)
    ensures Scaled(totals, n) ==
              Totals(Times(n, totals.cost), TimesCount(n, totals.resourceCount),
                     Levels(TimesCount(n, totals.levels.lowest), TimesCount(n, totals.levels.secondLowest),
                            TimesCount(n, totals.levels.highest), TimesCount(n, totals.levels.secondHighest)))
  {
    if n > 0 {
      ScaledIsRepeatedSum(totals, n - 1);
    }
  }

  /** Adding the same totals n times multiplies the cost and every count by n. */
  lemma ScaledIsProduct(totals: Totals, n: nat)
    ensures Scaled(totals, n).cost == n as real * totals.cost
    ensures Scaled(totals, n).resourceCount == n * totals.resourceCount
    ensures Scaled(totals, n).levels == Levels(n * totals.levels.lowest, n * totals.levels.secondLowest,
                                               n * totals.levels.highest, n * totals.levels.secondHighest)
  {
    ScaledIsRepeatedSum(totals, n);
    TimesIsProduct(n, totals.cost);
    TimesCountIsProduct(n, totals.resourceCount);
    TimesCountIsProduct(n, totals.levels.lowest);
    TimesCountIsProduct(n, totals.levels.secondLowest);
    TimesCountIsProduct(n, totals.levels.highest);
    TimesCountIsProduct(n, totals.levels.secondHighest);
  }

  lemma TotalsOfSuccesses(xs: seq<Recommendation>, ys: seq<Recommendation>, isCost: bool, a: Totals, b: Totals)
    requires TotalsOf(xs, isCost) == Success(a) && TotalsOf(ys, isCost) == Success(b)
    ensures TotalsOf(xs + ys, isCost) == Success(AddedTotals(a, b))
  {
    TotalsOfBoth(xs, ys, isCost);
  }

  lemma RepeatedNext(xs: seq<Recommendation>, n: nat, totals: Totals)
    ensures Repeated(xs, n + 1) == Repeated(xs, n) + xs
    ensures Scaled(totals, n + 1) == AddedTotals(Scaled(totals, n), totals)
  {
  }

  lemma TotalsOfOneMore(xs: seq<Recommendation>, before: seq<Recommendation>, after: seq<Recommendation>, isCost: bool,
                        sum: Totals, totals: Totals)
    requires after == before + xs && TotalsOf(before, isCost) == Success(sum) && TotalsOf(xs, isCost) == Success(totals)
    ensures TotalsOf(after, isCost) == Success(AddedTotals(sum, totals))
  {
    TotalsOfSuccesses(before, xs, isCost, sum, totals);
  }

  /** The same list n times has n times the totals. */
  lemma {:induction false} TotalsOfRepeated(xs: seq<Recommendation>, isCost: bool, n: nat, totals: Totals)
    requires TotalsOf(xs, isCost) == Success(totals)
    ensures TotalsOf(Repeated(xs, n), isCost) == Success(Scaled(totals, n))
  {
    if n > 0 {
      var m := n - 1;
      TotalsOfRepeated(xs, isCost, m, totals);
      RepeatedNext(xs, m, totals);
      TotalsOfOneMore(xs, Repeated(xs, m), Repeated(xs, m + 1), isCost, Scaled(totals, m), totals);
    }
  }

  function AllCounted(levels: Levels): nat
  {
    levels.lowest + levels.secondLowest + levels.highest + levels.secondHighest
  }

  lemma EachIsCounted(recommendations: seq<Recommendation>, isCost: bool)
    requires TotalsOf(recommendations, isCost).Success?
    ensures AllCounted(TotalsOf(recommendations, isCost).value.levels) == |recommendations|
  {
    CountsAreExact(recommendations, isCost);
  }

  /** Older items always show in the totals: only an empty list in front leaves them as they are. */
  lemma OlderItemsShow(xs: seq<Recommendation>, ys: seq<Recommendation>, isCost: bool)
    requires TotalsOf(xs + ys, isCost).Success?
    ensures TotalsOf(xs + ys, isCost) == TotalsOf(ys, isCost) <==> xs == []
  {
    if xs == [] {
      assert xs + ys == ys;
    } else if TotalsOf(ys, isCost).Success? {
      EachIsCounted(xs + ys, isCost);
      EachIsCounted(ys, isCost);
    }
  }

  // ---------- what the totals say ----------

  function CountOf(recommendations: seq<Recommendation>, level: Level): nat
  {
    if recommendations == [] then 0
    else CountOf(recommendations[..|recommendations| - 1], level) +
         (if recommendations[|recommendations| - 1].priorityLevel == Some(level) then 1 else 0)
  }

  lemma {:induction false} CountedWhenPresent(recommendations: seq<Recommendation>, level: Level)
    ensures CountOf(recommendations, level) > 0 <==> exists r :: r in recommendations && r.priorityLevel == Some(level)
  {
    if recommendations != [] {
      var front, last := recommendations[..|recommendations| - 1], recommendations[|recommendations| - 1];
      assert forall r :: r in recommendations <==> r in front || r == last;
      CountedWhenPresent(front, level);
    }
  }

  /** How many recommendations name a resource. */
  function Affected(recommendations: seq<Recommendation>): nat
  {
    if recommendations == [] then 0
    else
      var resource := recommendations[|recommendations| - 1].affectedResource;
      Affected(recommendations[..|recommendations| - 1]) + (if resource.Some? && resource.value != "" then 1 else 0)
  }

  /** The costs of the list, added up; an absent cost is nothing. */
  function SumOfCosts(recommendations: seq<Recommendation>): real
  {
    if recommendations == [] then 0.0
    else SumOfCosts(recommendations[..|recommendations| - 1]) + recommendations[|recommendations| - 1].cost.GetOr(0.0)
  }

  /** A total is the sum of the costs for the COST category, and exactly nothing for any other. */
  lemma {:induction false} CostIsTheSum(recommendations: seq<Recommendation>, isCost: bool)
    requires TotalsOf(recommendations, isCost).Success?
    ensures TotalsOf(recommendations, isCost).value.cost == if isCost then SumOfCosts(recommendations) else 0.0
  {
    if recommendations != [] {
      CostIsTheSum(recommendations[..|recommendations| - 1], isCost);
    }
  }

  /** The recommendation that stops the totals: an uncounted priority, or a needed cost that is missing. */
  predicate Stops(recommendation: Recommendation, isCost: bool)
  {
    || (isCost && recommendation.cost.None?)
    || recommendation.priorityLevel.None? || recommendation.priorityLevel == Some(Unspecified)
  }

  /**
    Without totals there is a first recommendation that stops them. The error is a type error
    when its cost is needed and missing, and otherwise a key error.
   */
  lemma {:induction false} TotalsStopAtTheFirst(recommendations: seq<Recommendation>, isCost: bool) returns (k: nat)
    requires TotalsOf(recommendations, isCost).Failure?
    ensures k < |recommendations| && Stops(recommendations[k], isCost)
    ensures forall i :: 0 <= i < k ==> !Stops(recommendations[i], isCost)
    ensures TotalsOf(recommendations, isCost).error == if isCost && recommendations[k].cost.None? then TypeError else KeyError
  {
    var front := recommendations[..|recommendations| - 1];
    if TotalsOf(front, isCost).Failure? {
      k := TotalsStopAtTheFirst(front, isCost);
    } else {
      k := |front|;
      TotalsExist(front, isCost);
      forall i | 0 <= i < k
        ensures !Stops(recommendations[i], isCost)
      {
        assert front[i] in front;
      }
    }
  }

  /** One of the four counted levels. */
  predicate Countable(recommendation: Recommendation)
  {
    recommendation.priorityLevel.Some? && recommendation.priorityLevel != Some(Unspecified)
  }

  ghost predicate Summable(recommendations: seq<Recommendation>, isCost: bool)
  {
    forall r :: r in recommendations ==> Countable(r) && (isCost ==> r.cost.Some?)
  }

  /** The totals exist exactly when every priority is one of the four and no needed cost is missing. */
  lemma {:induction false} TotalsExist(recommendations: seq<Recommendation>, isCost: bool)
    ensures TotalsOf(recommendations, isCost).Success? <==> Summable(recommendations, isCost)
  {
    if recommendations != [] {
      var front, last := recommendations[..|recommendations| - 1], recommendations[|recommendations| - 1];
      assert forall r :: r in recommendations <==> r in front || r == last;
      TotalsExist(front, isCost);
    }
  }

  /** Each level count counts its level, the four add up to the list, and so do the resources. */
  lemma {:induction false} CountsAreExact(recommendations: seq<Recommendation>, isCost: bool)
    requires TotalsOf(recommendations, isCost).Success?
    ensures var totals := TotalsOf(recommendations, isCost).value;
            && totals.levels == Levels(CountOf(recommendations, Lowest), CountOf(recommendations, SecondLowest),
                                       CountOf(recommendations, Highest), CountOf(recommendations, SecondHighest))
            && totals.levels.lowest + totals.levels.secondLowest + totals.levels.highest + totals.levels.secondHighest
               == |recommendations|
            && totals.resourceCount == Affected(recommendations)
  {
    if recommendations != [] {
      CountsAreExact(recommendations[..|recommendations| - 1], isCost);
    }
  }

  datatype State = ERROR | WARNING | OK

  function GetStateAndPriority(levels: Levels): (State, Level)
  {
    if levels.highest > 0 then (ERROR, Highest)
    else if levels.secondHighest > 0 then (WARNING, SecondHighest)
    else if levels.secondLowest > 0 then (OK, SecondLowest)
    else (OK, Lowest)
  }

  /**
    The primary priority is the highest one in the list, and the state follows it. Only the
    empty list reports a priority that no recommendation has.
   */
  lemma PrimaryPriorityIsTheHighest(recommendations: seq<Recommendation>, isCost: bool)
    requires TotalsOf(recommendations, isCost).Success?
    ensures var (state, level) := GetStateAndPriority(TotalsOf(recommendations, isCost).value.levels);
            && (recommendations != [] <==> exists r :: r in recommendations && r.priorityLevel == Some(level))
            && (forall r :: r in recommendations ==> Rank(r.priorityLevel.GetOr(Unspecified)) <= Rank(level))
            && (state == ERROR <==> level == Highest) && (state == WARNING <==> level == SecondHighest)
  {
    TotalsExist(recommendations, isCost);
    CountsAreExact(recommendations, isCost);
    var (_, level) := GetStateAndPriority(TotalsOf(recommendations, isCost).value.levels);
    CountedWhenPresent(recommendations, level);
    forall r | r in recommendations
      ensures Rank(r.priorityLevel.GetOr(Unspecified)) <= Rank(level)
    {
      assert Countable(r);
      CountedWhenPresent(recommendations, r.priorityLevel.value);
    }
  }

  /** The priorities of the service that are counted. */
  lemma CountedPriorities(priority: string)
    ensures ConvertReadablePriority(priority) != Unspecified <==>
              priority == "P1" || priority == "P2" || priority == "P3" || priority == "P4"
    ensures Rank(ConvertReadablePriority("P1")) > Rank(ConvertReadablePriority("P2"))
              > Rank(ConvertReadablePriority("P3")) > Rank(ConvertReadablePriority("P4"))
  {
    assert "P1"[1] == '1' && "P2"[1] == '2' && "P3"[1] == '3' && "P4"[1] == '4';
  }

  function ExactSum(moneys: seq<Money>): real
  {
    if moneys == [] then 0.0 else ExactSum(moneys[..|moneys| - 1]) + Absolute(Amount(moneys[|moneys| - 1]))
  }

  ghost predicate CostsOf(recommendations: seq<Recommendation>, moneys: seq<Money>)
  {
    && |recommendations| == |moneys|
    && forall i :: 0 <= i < |moneys| ==> recommendations[i].cost == Some(ChangeCost(moneys[i])) && SameSigned(moneys[i])
  }

  lemma {:induction false} CostDrift(recommendations: seq<Recommendation>, moneys: seq<Money>)
    requires CostsOf(recommendations, moneys) && TotalsOf(recommendations, true).Success?
    ensures var error := TotalsOf(recommendations, true).value.cost - ExactSum(moneys);
            -0.005 * |moneys| as real <= error <= 0.005 * |moneys| as real
    ensures TotalsOf(recommendations, true).value.cost >= 0.0
  {
    if moneys != [] {
      CostDrift(recommendations[..|recommendations| - 1], moneys[..|moneys| - 1]);
      CostIsTheAbsoluteAmount(moneys[|moneys| - 1]);
    }
  }

  /** Every cost is rounded and so is their sum: with n costs the shown total is off by at most (n+1) half cents. */
  lemma ShownTotalIsClose(recommendations: seq<Recommendation>, moneys: seq<Money>)
    requires CostsOf(recommendations, moneys) && TotalsOf(recommendations, true).Success?
    ensures var shown := Round2(TotalsOf(recommendations, true).value.cost);
            -0.005 * (|moneys| + 1) as real <= shown - ExactSum(moneys) <= 0.005 * (|moneys| + 1) as real
  {
    CostDrift(recommendations, moneys);
  }
}
