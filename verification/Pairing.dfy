/** The pairs of positions that match, in the order in which two nested loops meet them. */
module Pairing {
  datatype Pair = Pair(first: nat, second: nat)

  function Row(i: nat, m: nat, hit: (nat, nat) -> bool): seq<Pair>
  {
    if m == 0 then [] else Row(i, m - 1, hit) + (if hit(i, m - 1) then [Pair(i, m - 1)] else [])
  }

  function Pairs(n: nat, m: nat, hit: (nat, nat) -> bool): seq<Pair>
  {
    if n == 0 then [] else Pairs(n - 1, m, hit) + Row(n - 1, m, hit)
  }

  predicate Before(a: Pair, b: Pair)
  {
    a.first < b.first || (a.first == b.first && a.second < b.second)
  }

  ghost predicate Ordered(pairs: seq<Pair>)
  {
    forall i, j :: 0 <= i < j < |pairs| ==> Before(pairs[i], pairs[j])
  }

  ghost predicate Bounded(pairs: seq<Pair>, n: nat, m: nat)
  {
    forall k :: 0 <= k < |pairs| ==> pairs[k].first < n && pairs[k].second < m
  }

  ghost predicate AllHit(pairs: seq<Pair>, hit: (nat, nat) -> bool)
  {
    forall k :: 0 <= k < |pairs| ==> hit(pairs[k].first, pairs[k].second)
  }

  ghost predicate InRow(pairs: seq<Pair>, i: nat)
  {
    forall k :: 0 <= k < |pairs| ==> pairs[k].first == i
  }

  lemma {:induction false} RowSound(i: nat, m: nat, hit: (nat, nat) -> bool)
    ensures InRow(Row(i, m, hit), i) && Bounded(Row(i, m, hit), i + 1, m) && AllHit(Row(i, m, hit), hit)
  {
    if m > 0 {
      RowSound(i, m - 1, hit);
    }
  }

  lemma {:induction false} RowFind(i: nat, m: nat, hit: (nat, nat) -> bool, j: nat) returns (k: nat)
    requires j < m && hit(i, j)
    ensures k < |Row(i, m, hit)| && Row(i, m, hit)[k] == Pair(i, j)
  {
    if j == m - 1 {
      k := |Row(i, m - 1, hit)|;
    } else {
      k := RowFind(i, m - 1, hit, j);
    }
  }

  /** Only pairs that match. */
  lemma {:induction false} PairsSound(n: nat, m: nat, hit: (nat, nat) -> bool)
    ensures Bounded(Pairs(n, m, hit), n, m) && AllHit(Pairs(n, m, hit), hit)
  {
    if n > 0 {
      PairsSound(n - 1, m, hit);
      RowSound(n - 1, m, hit);
    }
  }

  /** Every pair that matches. */
  lemma {:induction false} PairsFind(n: nat, m: nat, hit: (nat, nat) -> bool, i: nat, j: nat) returns (k: nat)
    requires i < n && j < m && hit(i, j)
    ensures k < |Pairs(n, m, hit)| && Pairs(n, m, hit)[k] == Pair(i, j)
  {
    if i == n - 1 {
      var r := RowFind(i, m, hit, j);
      k := |Pairs(n - 1, m, hit)| + r;
    } else {
      k := PairsFind(n - 1, m, hit, i, j);
    }
  }

  lemma PairsMember(n: nat, m: nat, hit: (nat, nat) -> bool, pair: Pair)
    ensures pair in Pairs(n, m, hit) <==> pair.first < n && pair.second < m && hit(pair.first, pair.second)
  {
    PairsSound(n, m, hit);
    if pair.first < n && pair.second < m && hit(pair.first, pair.second) {
      var _ := PairsFind(n, m, hit, pair.first, pair.second);
    }
  }

  lemma OrderedAppend(a: seq<Pair>, b: seq<Pair>)
    requires Ordered(a) && Ordered(b)
    requires forall i, j :: 0 <= i < |a| && 0 <= j < |b| ==> Before(a[i], b[j])
    ensures Ordered(a + b)
  {
  }

  lemma {:induction false} RowOrdered(i: nat, m: nat, hit: (nat, nat) -> bool)
    ensures Ordered(Row(i, m, hit))
  {
    if m > 0 {
      RowOrdered(i, m - 1, hit);
      RowSound(i, m - 1, hit);
      OrderedAppend(Row(i, m - 1, hit), if hit(i, m - 1) then [Pair(i, m - 1)] else []);
    }
  }

  /** By the first position, then by the second, each pair once. */
  lemma {:induction false} PairsOrdered(n: nat, m: nat, hit: (nat, nat) -> bool)
    ensures Ordered(Pairs(n, m, hit))
  {
    if n > 0 {
      PairsOrdered(n - 1, m, hit);
      RowOrdered(n - 1, m, hit);
      PairsSound(n - 1, m, hit);
      RowSound(n - 1, m, hit);
      var front, row := Pairs(n - 1, m, hit), Row(n - 1, m, hit);
      OrderedAppend(front, row);
    }
  }
}
