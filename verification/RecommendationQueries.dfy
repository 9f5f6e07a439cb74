/**
  The recommendations of one collection as the queries bring them, and what a path that is
  asked twice does to the groups and their totals.
 */
module RecommendationQueries {
  import opened Basics
  import opened Sequences
  import opened RecommendationTotals
  import opened Recommenders
  import opened RecommendationParents

  /** The answers to all paths, in order. `answers` gives what preprocessing keeps of a path's answer. */
  function Collected(parents: seq<string>, answers: string -> seq<Preprocessed>): seq<Preprocessed>
  {
    Flatten(Map(answers, parents))
  }

  method CollectRecommendations(parents: seq<string>, answers: string -> seq<Preprocessed>)
    returns (preprocessed: seq<Preprocessed>)
    ensures preprocessed == Collected(parents, answers)
  {
    preprocessed := [];
    ghost var blocks := Map(answers, parents);
    for i := 0 to |parents|
      invariant preprocessed == Flatten(blocks[..i])
    {
      FlattenUpTo(blocks, i);
      preprocessed := preprocessed + answers(parents[i]);
    }
    TakeAll(blocks);
  }

  /** What is delivered for one recommender. */
  function Group(id: string, preprocessed: seq<Preprocessed>): seq<Recommendation>
  {
    Delivered(AsDeliveries(preprocessed), id)
  }

  lemma {:induction false} DeliveredBoth(a: seq<Delivery>, b: seq<Delivery>, id: string)
    ensures Delivered(a + b, id) == Delivered(a, id) + Delivered(b, id)
  {
    if b == [] {
      assert a + b == a;
    } else {
      assert (a + b)[..|a + b| - 1] == a + b[..|b| - 1];
      DeliveredBoth(a, b[..|b| - 1], id);
    }
  }

  lemma GroupOfBoth(id: string, a: seq<Preprocessed>, b: seq<Preprocessed>)
    ensures Group(id, a + b) == Group(id, a) + Group(id, b)
  {
    assert AsDeliveries(a + b) == AsDeliveries(a) + AsDeliveries(b);
    DeliveredBoth(AsDeliveries(a), AsDeliveries(b), id);
  }

  /** A recommender's group, path by path. */
  lemma {:induction false} GroupByPath(id: string, parents: seq<string>, answers: string -> seq<Preprocessed>)
    ensures Group(id, Collected(parents, answers)) == Flatten(Map(path => Group(id, answers(path)), parents))
  {
    if parents != [] {
      var front, last := parents[..|parents| - 1], parents[|parents| - 1];
      assert parents == front + [last];
      GroupByPath(id, front, answers);
      FlattenMapNext(answers, front, last);
      FlattenMapNext(path => Group(id, answers(path)), front, last);
      GroupOfBoth(id, Collected(front, answers), answers(last));
    }
  }

  /**
    A recommendation that only one path brings stands in its recommender's group once per time
    that path is asked.
   */
  lemma EachQueryDelivers(projectId: string, available: seq<string>, ids: seq<string>, costIds: set<string>,
                          id: string, place: string, answers: string -> seq<Preprocessed>, item: Recommendation)
    requires SlashFree(available) && '/' !in place && id in ids && NoRepeats(ids)
    requires forall path :: path in Parents(projectId, available, ids, costIds) && path != Path(projectId, place, id) ==>
               item !in Group(id, answers(path))
    ensures Count(Group(id, Collected(Parents(projectId, available, ids, costIds), answers)), item)
              == Asked(available, id, costIds, place) * Count(Group(id, answers(Path(projectId, place, id))), item)
  {
    var parents := Parents(projectId, available, ids, costIds);
    GroupByPath(id, parents, answers);
    FlattenMapCount(path => Group(id, answers(path)), parents, Path(projectId, place, id), item);
    HowOftenAPathIsAsked(projectId, available, ids, costIds, id, place);
  }

  /** The totals of one path's answer after the other, added up. */
  function TotalsByPath(id: string, parents: seq<string>, answers: string -> seq<Preprocessed>, isCost: bool)
    : Result<Totals, TotalsError>
  {
    if parents == [] then Success(NO_TOTALS)
    else Added(TotalsByPath(id, parents[..|parents| - 1], answers, isCost),
               TotalsOf(Group(id, answers(parents[|parents| - 1])), isCost))
  }

  /** The totals of a collection are those of its queries, each as often as it is asked. */
  lemma {:induction false} TotalsAddUp(id: string, parents: seq<string>, answers: string -> seq<Preprocessed>, isCost: bool)
    ensures TotalsOf(Group(id, Collected(parents, answers)), isCost) == TotalsByPath(id, parents, answers, isCost)
  {
    if parents != [] {
      var front, last := parents[..|parents| - 1], parents[|parents| - 1];
      assert parents == front + [last];
      TotalsAddUp(id, front, answers, isCost);
      FlattenMapNext(answers, front, last);
      GroupOfBoth(id, Collected(front, answers), answers(last));
      TotalsOfBoth(Group(id, Collected(front, answers)), Group(id, answers(last)), isCost);
    }
  }

  lemma AskedTwice(id: string, path: string, answers: string -> seq<Preprocessed>, isCost: bool)
    ensures TotalsOf(Group(id, Collected([path, path], answers)), isCost) ==
              Added(TotalsOf(Group(id, answers(path)), isCost), TotalsOf(Group(id, answers(path)), isCost))
  {
    assert Map(answers, [path, path]) == [answers(path), answers(path)];
    FlattenTwo(answers(path), answers(path));
    GroupOfBoth(id, answers(path), answers(path));
    TotalsOfBoth(Group(id, answers(path)), Group(id, answers(path)), isCost);
  }

  /** With two zones of one region among the assets, a recommender of that region shows twice its totals. */
  lemma TwoZonesDoubleTheTotals(projectId: string, region: string, id: string, regions: set<string>,
                                answers: string -> seq<Preprocessed>, isCost: bool)
    requires region + "-a" !in regions && region + "-b" !in regions
    ensures var parents := Parents(projectId, AvailableLocations([region + "-a", region + "-b"], regions), [id], {});
            var once := TotalsOf(Group(id, answers(Path(projectId, region, id))), isCost);
            TotalsOf(Group(id, Collected(parents, answers)), isCost) == Added(once, once)
  {
    TwoZonesAskTwice(projectId, region, id, regions);
    AskedTwice(id, Path(projectId, region, id), answers, isCost);
  }
}
