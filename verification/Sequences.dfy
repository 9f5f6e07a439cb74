/** Facts about lists that several components share. */
module Sequences {

  function Map<A, B>(f: A -> B, xs: seq<A>): (ys: seq<B>)
    ensures |ys| == |xs|
    ensures forall i :: 0 <= i < |xs| ==> ys[i] == f(xs[i])
  {
    seq(|xs|, i requires 0 <= i < |xs| => f(xs[i]))
  }

  lemma TakeNext<T>(xs: seq<T>, i: nat)
    requires i < |xs|
    ensures xs[..i + 1] == xs[..i] + [xs[i]]
  {
  }

  lemma TakeAll<T>(xs: seq<T>)
    ensures xs[..|xs|] == xs
  {
  }

  lemma AppendRegroups<T>(a: seq<T>, b: seq<T>, c: seq<T>)
    ensures a + (b + c) == (a + b) + c
  {
  }

  function Flatten<T>(blocks: seq<seq<T>>): seq<T>
  {
    if blocks == [] then [] else Flatten(blocks[..|blocks| - 1]) + blocks[|blocks| - 1]
  }

  lemma FlattenAppend<T>(blocks: seq<seq<T>>, last: seq<T>)
    ensures Flatten(blocks + [last]) == Flatten(blocks) + last
  {
    assert (blocks + [last])[..|blocks|] == blocks;
  }

  lemma FlattenUpTo<T>(blocks: seq<seq<T>>, k: nat)
    requires k < |blocks|
    ensures Flatten(blocks[..k + 1]) == Flatten(blocks[..k]) + blocks[k]
  {
    assert blocks[..k + 1] == blocks[..k] + [blocks[k]];
    FlattenAppend(blocks[..k], blocks[k]);
  }

  lemma FlattenOne<T>(block: seq<T>)
    ensures Flatten([block]) == block
  {
    FlattenAppend([], block);
    assert [] + [block] == [block];
  }

  lemma FlattenTwo<T>(a: seq<T>, b: seq<T>)
    ensures Flatten([a, b]) == a + b
  {
    FlattenOne(a);
    FlattenAppend([a], b);
    assert [a] + [b] == [a, b];
  }

  lemma FlattenBehind<T>(before: seq<T>, blocks: seq<seq<T>>, k: nat)
    requires k < |blocks|
    ensures before + Flatten(blocks[..k + 1]) == before + Flatten(blocks[..k]) + blocks[k]
  {
    FlattenUpTo(blocks, k);
  }

  /** A block follows directly on everything in front of it. */
  lemma {:induction false} FlattenPrefix<T>(blocks: seq<seq<T>>, k: nat)
    requires k < |blocks|
    ensures Flatten(blocks[..k]) + blocks[k] <= Flatten(blocks)
  {
    var front := blocks[..|blocks| - 1];
    if k == |front| {
      assert blocks[..k] == front;
    } else {
      FlattenPrefix(front, k);
      assert front[..k] == blocks[..k];
    }
  }

  lemma {:induction false} FlattenRemove<T>(before: seq<seq<T>>, taken: seq<T>, after: seq<seq<T>>)
    ensures multiset(Flatten(before + [taken] + after)) == multiset(Flatten(before + after)) + multiset(taken)
  {
    if after == [] {
      FlattenAppend(before, taken);
      assert before + [taken] + after == before + [taken] && before + after == before;
    } else {
      var front, last := after[..|after| - 1], after[|after| - 1];
      FlattenRemove(before, taken, front);
      FlattenAppend(before + [taken] + front, last);
      FlattenAppend(before + front, last);
      assert before + [taken] + after == before + [taken] + front + [last];
      assert before + after == before + front + [last];
    }
  }

  lemma SplitAround<T>(xs: seq<T>, k: nat)
    requires k < |xs|
    ensures xs == xs[..k] + [xs[k]] + xs[k + 1..]
  {
  }

  lemma TakenOut<T>(before: seq<T>, x: T, after: seq<T>)
    ensures multiset(before + [x] + after) == multiset(before + after) + multiset{x}
  {
  }

  /** A permutation taken apart at the last element of the other list. */
  lemma FindInPermutation<T>(xs: seq<T>, front: seq<T>, last: T) returns (k: nat)
    requires multiset(xs) == multiset(front + [last])
    ensures k < |xs| && xs[k] == last
    ensures xs == xs[..k] + [last] + xs[k + 1..]
    ensures multiset(xs[..k] + xs[k + 1..]) == multiset(front)
  {
    TakenOut(front, last, []);
    assert front + [last] + [] == front + [last] && front + [] == front;
    assert last in multiset(xs);
    k :| 0 <= k < |xs| && xs[k] == last;
    SplitAround(xs, k);
    TakenOut(xs[..k], last, xs[k + 1..]);
    Cancel(multiset(xs[..k] + xs[k + 1..]), multiset(front), multiset{last});
  }

  lemma Cancel<T>(a: multiset<T>, b: multiset<T>, c: multiset<T>)
    requires a + c == b + c
    ensures a == b
  {
    forall x
      ensures a[x] == b[x]
    {
      assert (a + c)[x] == (b + c)[x];
    }
  }

  /** Permuting the blocks permutes the flattened list. */
  lemma {:induction false} FlattenPermutation<T>(xs: seq<seq<T>>, ys: seq<seq<T>>)
    requires multiset(xs) == multiset(ys)
    ensures multiset(Flatten(xs)) == multiset(Flatten(ys))
    decreases |ys|
  {
    if ys == [] {
      assert |multiset(xs)| == 0;
    } else {
      var front, last := ys[..|ys| - 1], ys[|ys| - 1];
      assert ys == front + [last];
      var k := FindInPermutation(xs, front, last);
      FlattenRemove(xs[..k], last, xs[k + 1..]);
      FlattenPermutation(xs[..k] + xs[k + 1..], front);
    }
  }

  lemma MapAppend<A, B>(f: A -> B, xs: seq<A>, ys: seq<A>)
    ensures Map(f, xs + ys) == Map(f, xs) + Map(f, ys)
  {
  }

  lemma MapRemove<A, B>(f: A -> B, before: seq<A>, taken: A, after: seq<A>)
    ensures multiset(Map(f, before + [taken] + after)) == multiset(Map(f, before + after)) + multiset{f(taken)}
  {
    MapAppend(f, before + [taken], after);
    MapAppend(f, before, [taken]);
    MapAppend(f, before, after);
    assert Map(f, [taken]) == [f(taken)];
  }

  /** Permuting a list permutes its image. */
  lemma {:induction false} MapPermutation<A, B>(f: A -> B, xs: seq<A>, ys: seq<A>)
    requires multiset(xs) == multiset(ys)
    ensures multiset(Map(f, xs)) == multiset(Map(f, ys))
    decreases |ys|
  {
    if ys == [] {
      assert |multiset(xs)| == 0;
    } else {
      var front, last := ys[..|ys| - 1], ys[|ys| - 1];
      assert ys == front + [last] + [] && front + [] == front;
      assert front + [last] == ys;
      var k := FindInPermutation(xs, front, last);
      MapPermutation(f, xs[..k] + xs[k + 1..], front);
      MapRemove(f, xs[..k], last, xs[k + 1..]);
      MapRemove(f, front, last, []);
    }
  }

  // ---------- how often ----------

  /** How often an element stands in a list. */
  function Count<T(==)>(xs: seq<T>, x: T): nat
  {
    if xs == [] then 0 else Count(xs[..|xs| - 1], x) + (if xs[|xs| - 1] == x then 1 else 0)
  }

  lemma CountNext<T>(front: seq<T>, last: T, x: T)
    ensures Count(front + [last], x) == Count(front, x) + (if last == x then 1 else 0)
  {
    assert (front + [last])[..|front|] == front;
  }

  lemma {:induction false} CountAppend<T>(xs: seq<T>, ys: seq<T>, x: T)
    ensures Count(xs + ys, x) == Count(xs, x) + Count(ys, x)
  {
    if ys == [] {
      assert xs + ys == xs;
    } else {
      var front, last := ys[..|ys| - 1], ys[|ys| - 1];
      assert ys == front + [last] && xs + ys == (xs + front) + [last];
      CountAppend(xs, front, x);
      CountNext(xs + front, last, x);
    }
  }

  lemma {:induction false} CountIn<T>(xs: seq<T>, x: T)
    ensures Count(xs, x) > 0 <==> x in xs
  {
    if xs != [] {
      var front, last := xs[..|xs| - 1], xs[|xs| - 1];
      assert xs == front + [last];
      CountIn(front, x);
    }
  }

  ghost predicate NoRepeats<T>(xs: seq<T>)
  {
    forall i, j :: 0 <= i < j < |xs| ==> xs[i] != xs[j]
  }

  lemma {:induction false} CountOfNoRepeats<T>(xs: seq<T>, x: T)
    requires NoRepeats(xs)
    ensures Count(xs, x) == if x in xs then 1 else 0
  {
    if xs != [] {
      var front, last := xs[..|xs| - 1], xs[|xs| - 1];
      assert xs == front + [last];
      CountOfNoRepeats(front, x);
      assert last !in front;
    }
  }

  lemma {:induction false} CountOfTwo<T>(xs: seq<T>, i: nat, j: nat)
    requires i < j < |xs| && xs[i] == xs[j]
    ensures Count(xs, xs[i]) > 1
  {
    var front := xs[..|xs| - 1];
    if j < |front| {
      CountOfTwo(front, i, j);
    } else {
      CountIn(front, xs[i]);
      assert front[i] in front;
    }
  }

  /** No repetition is at most one of each. */
  lemma NoRepeatsByCount<T(!new)>(xs: seq<T>)
    ensures NoRepeats(xs) <==> forall x :: Count(xs, x) <= 1
  {
    if NoRepeats(xs) {
      forall x
        ensures Count(xs, x) <= 1
      {
        CountOfNoRepeats(xs, x);
      }
    } else {
      var i, j :| 0 <= i < j < |xs| && xs[i] == xs[j];
      CountOfTwo(xs, i, j);
    }
  }

  lemma CountStep(n: nat, m: nat)
    ensures (n + 1) * m == n * m + m
  {
  }

  lemma FlattenMapNext<A, B>(f: A -> seq<B>, front: seq<A>, last: A)
    ensures Flatten(Map(f, front + [last])) == Flatten(Map(f, front)) + f(last)
  {
    assert Map(f, front + [last]) == Map(f, front) + [f(last)];
    FlattenAppend(Map(f, front), f(last));
  }

  lemma FlattenMapOne<A, B>(f: A -> seq<B>, x: A)
    ensures Flatten(Map(f, [x])) == f(x)
  {
    assert Map(f, [x]) == [f(x)];
    FlattenOne(f(x));
  }

  lemma {:induction false} FlattenMapBoth<A, B>(f: A -> seq<B>, a: seq<A>, b: seq<A>)
    ensures Flatten(Map(f, a + b)) == Flatten(Map(f, a)) + Flatten(Map(f, b))
  {
    if b == [] {
      assert a + b == a;
    } else {
      var front, last := b[..|b| - 1], b[|b| - 1];
      assert a + b == (a + front) + [last] && b == front + [last];
      FlattenMapBoth(f, a, front);
      FlattenMapNext(f, a + front, last);
      FlattenMapNext(f, front, last);
    }
  }

  /** An element that only the blocks of `x` hold is there once per occurrence in each of them. */
  lemma {:induction false} FlattenMapCount<A, B>(f: A -> seq<B>, xs: seq<A>, x: A, b: B)
    requires forall y :: y in xs && y != x ==> b !in f(y)
    ensures Count(Flatten(Map(f, xs)), b) == Count(xs, x) * Count(f(x), b)
  {
    if xs != [] {
      var front, last := xs[..|xs| - 1], xs[|xs| - 1];
      assert xs == front + [last] && last in xs;
      FlattenMapCount(f, front, x, b);
      FlattenMapNext(f, front, last);
      CountAppend(Flatten(Map(f, front)), f(last), b);
      CountStep(Count(front, x), Count(f(x), b));
      CountIn(f(last), b);
    }
  }
}
