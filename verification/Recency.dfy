/** Recency order: the least recently used id first, every id once. */
module Recency {

  ghost predicate Distinct<T>(order: seq<T>) {
    forall i, j :: 0 <= i < j < |order| ==> order[i] != order[j]
  }

  /** The order without `x`. */
  function Without<T(==)>(order: seq<T>, x: T): (rest: seq<T>)
    ensures |rest| <= |order|
  {
    if order == [] then []
    else if order[|order| - 1] == x then Without(order[..|order| - 1], x)
    else Without(order[..|order| - 1], x) + [order[|order| - 1]]
  }

  function Ids<T(==)>(order: seq<T>): set<T> {
    if order == [] then {} else Ids(order[..|order| - 1]) + {order[|order| - 1]}
  }

  lemma {:induction false} IdsAre<T>(order: seq<T>, x: T)
    ensures x in Ids(order) <==> x in order
  {
    if order != [] {
      IdsAre(order[..|order| - 1], x);
      assert order == order[..|order| - 1] + [order[|order| - 1]];
    }
  }

  lemma {:induction false} IdsOfWithout<T>(order: seq<T>, x: T)
    ensures Ids(Without(order, x)) == Ids(order) - {x}
  {
    if order != [] {
      var front, last := order[..|order| - 1], order[|order| - 1];
      IdsOfWithout(front, x);
      if last != x {
        assert Without(order, x)[..|Without(order, x)| - 1] == Without(front, x);
      }
    }
  }

  lemma IdsOfAppend<T>(order: seq<T>, x: T)
    ensures Ids(order + [x]) == Ids(order) + {x}
  {
    assert (order + [x])[..|order|] == order;
  }

  lemma WithoutMembers<T>(order: seq<T>, x: T, y: T)
    ensures y in Without(order, x) <==> y in order && y != x
  {
    IdsOfWithout(order, x);
    IdsAre(order, y);
    IdsAre(Without(order, x), y);
  }

  function Touched<T(==)>(order: seq<T>, x: T): seq<T> {
    Without(order, x) + [x]
  }

  lemma {:induction false} WithoutAbsent<T>(order: seq<T>, x: T)
    requires x !in order
    ensures Without(order, x) == order
  {
    if order != [] {
      WithoutAbsent(order[..|order| - 1], x);
      assert order == order[..|order| - 1] + [order[|order| - 1]];
    }
  }

  lemma {:induction false} WithoutOne<T>(order: seq<T>, k: nat)
    requires Distinct(order) && k < |order|
    ensures Without(order, order[k]) == order[..k] + order[k + 1..]
  {
    var last := |order| - 1;
    var front := order[..last];
    if k == last {
      assert order[last] !in front;
      WithoutAbsent(front, order[last]);
      assert order[..last] + order[last + 1..] == front;
    } else {
      WithoutOne(front, k);
      assert front[k] == order[k] && order[k] != order[last];
      assert front[..k] + front[k + 1..] + [order[last]] == order[..k] + order[k + 1..];
    }
  }

  lemma {:induction false} WithoutKeepsDistinct<T>(order: seq<T>, x: T)
    requires Distinct(order)
    ensures Distinct(Without(order, x)) && Distinct(Touched(order, x))
  {
    if order != [] {
      var front, last := order[..|order| - 1], order[|order| - 1];
      WithoutKeepsDistinct(front, x);
      assert last !in front;
      WithoutMembers(front, x, last);
    }
    WithoutMembers(order, x, x);
  }

  /** The last `k` of a sequence. */
  function Last<T>(k: nat, order: seq<T>): seq<T> {
    if |order| <= k then order else order[|order| - k..]
  }

  /** All ids touched so far, by their last touch. */
  function ByLastTouch<T(==)>(touches: seq<T>): seq<T> {
    if touches == [] then [] else Touched(ByLastTouch(touches[..|touches| - 1]), touches[|touches| - 1])
  }

  lemma {:induction false} ByLastTouchIsDistinct<T>(touches: seq<T>)
    ensures Distinct(ByLastTouch(touches))
  {
    if touches != [] {
      ByLastTouchIsDistinct(touches[..|touches| - 1]);
      WithoutKeepsDistinct(ByLastTouch(touches[..|touches| - 1]), touches[|touches| - 1]);
    }
  }

  lemma {:induction false} WithoutSplits<T>(a: seq<T>, b: seq<T>, x: T)
    ensures Without(a + b, x) == Without(a, x) + Without(b, x)
  {
    if b == [] {
      assert a + b == a;
    } else {
      WithoutSplits(a, b[..|b| - 1], x);
      assert (a + b)[..|a + b| - 1] == a + b[..|b| - 1];
    }
  }

  /** The touches that are the last ones of their ids, in the order in which they came. */
  function LastTouches<T(==)>(touches: seq<T>): seq<T> {
    if touches == [] then []
    else if touches[0] in touches[1..] then LastTouches(touches[1..])
    else [touches[0]] + LastTouches(touches[1..])
  }

  lemma WithoutFirst<T>(first: T, rest: seq<T>, x: T)
    ensures Without([first] + rest, x) == (if first == x then [] else [first]) + Without(rest, x)
  {
    WithoutSplits([first], rest, x);
    assert [first][..0] == [];
  }

  lemma {:induction false} AnotherTouch<T>(touches: seq<T>, x: T)
    ensures LastTouches(touches + [x]) == Without(LastTouches(touches), x) + [x]
  {
    if touches == [] {
      LastTouchesFirst(x, []);
      assert [x] + [] == touches + [x];
    } else {
      var first, rest := touches[0], touches[1..];
      AnotherTouch(rest, x);
      assert touches + [x] == [first] + (rest + [x]);
      LastTouchesFirst(first, rest + [x]);
      if first !in rest {
        WithoutFirst(first, LastTouches(rest), x);
      }
    }
  }

  lemma LastTouchesFirst<T>(first: T, rest: seq<T>)
    ensures LastTouches([first] + rest) == (if first in rest then [] else [first]) + LastTouches(rest)
  {
    assert ([first] + rest)[1..] == rest;
  }

  /** Ids in the order of their last touches. */
  lemma {:induction false} OrderedByLastTouch<T>(touches: seq<T>)
    ensures ByLastTouch(touches) == LastTouches(touches)
  {
    if touches != [] {
      var front, last := touches[..|touches| - 1], touches[|touches| - 1];
      OrderedByLastTouch(front);
      AnotherTouch(front, last);
      assert touches == front + [last];
    }
  }

  lemma LastOfConcat<T>(k: nat, a: seq<T>, b: seq<T>)
    requires |b| >= k
    ensures Last(k, a + b) == Last(k, b)
  {}

  lemma TouchPresent<T>(order: seq<T>, x: T)
    requires Distinct(order) && x in order
    ensures |Touched(order, x)| == |order|
  {
    var i :| 0 <= i < |order| && order[i] == x;
    WithoutOne(order, i);
  }

  /** Keeping only the last `k` before touching an id loses nothing that touching it on all ids would keep. */
  lemma LastTouched<T>(k: nat, order: seq<T>, x: T)
    requires k > 0 && Distinct(order)
    ensures Last(k, Touched(Last(k, order), x)) == Last(k, Touched(order, x))
    ensures x in Last(k, order) ==> Touched(Last(k, order), x) == Last(k, Touched(order, x))
  {
    if |order| > k {
      LastTouchedSplit(k, order[..|order| - k], order[|order| - k..], x);
      assert order == order[..|order| - k] + order[|order| - k..];
    } else if x in order {
      TouchPresent(order, x);
    }
  }

  lemma LastTouchedSplit<T>(k: nat, a: seq<T>, b: seq<T>, x: T)
    requires k > 0 && Distinct(a + b) && |b| == k
    ensures Last(k, Touched(b, x)) == Last(k, Touched(a + b, x))
    ensures x in b ==> Touched(b, x) == Last(k, Touched(a + b, x))
  {
    WithoutSplits(a, b, x);
    assert Touched(a + b, x) == Without(a, x) + Touched(b, x);
    if x in b {
      assert Distinct(b) by {
        assert forall i :: 0 <= i < |b| ==> b[i] == (a + b)[|a| + i];
      }
      TouchPresent(b, x);
    } else {
      WithoutAbsent(b, x);
    }
    LastOfConcat(k, Without(a, x), Touched(b, x));
  }

  /** The shortest prefix is dropped after which `fits` holds of the rest. */
  function DropUntil<T>(fits: seq<T> -> bool, order: seq<T>): (rest: seq<T>)
  {
    if order == [] || fits(order) then order else DropUntil(fits, order[1..])
  }

  /** Nothing shorter than the dropped prefix would have done. */
  lemma {:induction false} DropUntilIsShortest<T>(fits: seq<T> -> bool, order: seq<T>)
    ensures var rest := DropUntil(fits, order);
      && |rest| <= |order| && rest == order[|order| - |rest|..]
      && (rest == [] || fits(rest))
      && forall n :: 0 <= n < |order| - |rest| ==> !fits(order[n..])
  {
    if order != [] && !fits(order) {
      DropUntilIsShortest(fits, order[1..]);
      var rest := DropUntil(fits, order);
      forall n | 0 <= n < |order| - |rest|
        ensures !fits(order[n..])
      {
        if n > 0 {
          var m := n - 1;
          assert order[n..] == order[1..][m..];
        } else {
          assert order[0..] == order;
        }
      }
    }
  }

  // Sizes.

  function Sum<T>(size: T -> nat, order: seq<T>): nat {
    if order == [] then 0 else size(order[0]) + Sum(size, order[1..])
  }

  lemma {:induction false} SumConcat<T>(size: T -> nat, a: seq<T>, b: seq<T>)
    ensures Sum(size, a + b) == Sum(size, a) + Sum(size, b)
  {
    if a == [] {
      assert a + b == b;
    } else {
      SumConcat(size, a[1..], b);
      assert (a + b)[1..] == a[1..] + b;
    }
  }

  lemma {:induction false} SumSame<T>(f: T -> nat, g: T -> nat, order: seq<T>)
    requires forall x :: x in order ==> f(x) == g(x)
    ensures Sum(f, order) == Sum(g, order)
  {
    if order != [] {
      assert order[0] in order;
      SumSame(f, g, order[1..]);
    }
  }

  lemma {:induction false} SumWithout<T>(size: T -> nat, order: seq<T>, x: T)
    requires Distinct(order)
    ensures Sum(size, order) == Sum(size, Without(order, x)) + if x in order then size(x) else 0
  {
    if x in order {
      var k :| 0 <= k < |order| && order[k] == x;
      WithoutOne(order, k);
      assert order == order[..k] + [x] + order[k + 1..];
      SumConcat(size, order[..k] + [x], order[k + 1..]);
      SumConcat(size, order[..k], [x]);
      SumConcat(size, order[..k], order[k + 1..]);
      assert [x][1..] == [];
    } else {
      WithoutAbsent(order, x);
    }
  }

  // Ranks along the order.

  ghost predicate Increasing<T>(rank: T -> int, order: seq<T>) {
    forall i, j :: 0 <= i < j < |order| ==> rank(order[i]) < rank(order[j])
  }

  lemma FirstRanksLowest<T>(rank: T -> int, order: seq<T>, i: nat)
    requires Increasing(rank, order) && i < |order| && rank(order[i]) <= rank(order[0])
    ensures i == 0
  {}

  lemma {:induction false} WithoutKeepsIncreasing<T>(rank: T -> int, order: seq<T>, x: T)
    requires Increasing(rank, order)
    ensures Increasing(rank, Without(order, x))
  {
    if order != [] {
      var front, last := order[..|order| - 1], order[|order| - 1];
      WithoutKeepsIncreasing(rank, front, x);
      forall i | 0 <= i < |Without(front, x)|
        ensures rank(Without(front, x)[i]) < rank(last)
      {
        var y := Without(front, x)[i];
        WithoutMembers(front, x, y);
        assert y in Without(front, x);
        var j :| 0 <= j < |front| && front[j] == y;
        assert order[j] == y;
      }
    }
  }

  lemma IncreasingAppend<T>(rank: T -> int, order: seq<T>, x: T)
    requires Increasing(rank, order) && (order != [] ==> rank(order[|order| - 1]) < rank(x))
    ensures Increasing(rank, order + [x])
  {}

  /** Ranks that agree on the listed ids order them alike. */
  lemma {:induction false} IncreasingSame<T>(f: T -> int, g: T -> int, order: seq<T>)
    requires Increasing(f, order) && forall id :: id in order ==> f(id) == g(id)
    ensures Increasing(g, order)
  {
    forall i, j | 0 <= i < j < |order|
      ensures g(order[i]) < g(order[j])
    {
      assert order[i] in order && order[j] in order;
    }
  }

  /** What is left of an increasing order stays below what its last id stayed below. */
  lemma LastOfWithout<T>(rank: T -> int, order: seq<T>, x: T, bound: int)
    requires Increasing(rank, order) && (order != [] ==> rank(order[|order| - 1]) < bound)
    ensures var rest := Without(order, x); rest != [] ==> rank(rest[|rest| - 1]) < bound
  {
    var rest := Without(order, x);
    if rest != [] {
      var y := rest[|rest| - 1];
      WithoutMembers(order, x, y);
      var i :| 0 <= i < |order| && order[i] == y;
    }
  }

  lemma IncreasingIsDistinct<T>(rank: T -> int, order: seq<T>)
    requires Increasing(rank, order)
    ensures Distinct(order)
  {}

  lemma {:induction false} WithoutCommutes<T>(order: seq<T>, x: T, y: T)
    ensures Without(Without(order, x), y) == Without(Without(order, y), x)
  {
    if order != [] {
      var front, last := order[..|order| - 1], order[|order| - 1];
      WithoutCommutes(front, x, y);
      if last != x && last != y {
        assert Without(order, x)[..|Without(order, x)| - 1] == Without(front, x);
        assert Without(order, y)[..|Without(order, y)| - 1] == Without(front, y);
      } else if last != y {
        assert Without(order, y)[..|Without(order, y)| - 1] == Without(front, y);
      } else if last != x {
        assert Without(order, x)[..|Without(order, x)| - 1] == Without(front, x);
      }
    }
  }

  /** Dropping the first of the ids other than `x`. */
  lemma WithoutFirstOther<T>(order: seq<T>, x: T)
    requires Distinct(order) && Without(order, x) != []
    ensures Without(Without(order, Without(order, x)[0]), x) == Without(order, x)[1..]
  {
    var others := Without(order, x);
    WithoutKeepsDistinct(order, x);
    WithoutCommutes(order, x, others[0]);
    WithoutOne(others, 0);
  }

  lemma {:induction false} CountIds<T>(order: seq<T>)
    requires Distinct(order)
    ensures |Ids(order)| == |order|
  {
    if order != [] {
      var front, last := order[..|order| - 1], order[|order| - 1];
      CountIds(front);
      IdsAre(front, last);
      assert last !in front;
    }
  }

  lemma {:induction false} MultisetOfDistinct<T>(order: seq<T>)
    requires Distinct(order)
    ensures multiset(order) == multiset(Ids(order))
  {
    if order != [] {
      var front, last := order[..|order| - 1], order[|order| - 1];
      MultisetOfDistinct(front);
      IdsAre(front, last);
      assert last !in front;
      assert order == front + [last];
      assert multiset(Ids(front) + {last}) == multiset(Ids(front)) + multiset{last};
    }
  }

  lemma TwiceInMultiset<T>(order: seq<T>, i: nat, j: nat)
    requires i < j < |order| && order[i] == order[j]
    ensures multiset(order)[order[i]] >= 2
  {
    assert order == order[..j] + [order[j]] + order[j + 1..];
    assert order[..j] == order[..i] + [order[i]] + order[i + 1..j];
  }

  /** Rearranging distinct ids keeps them distinct. */
  lemma DistinctByMultiset<T(!new)>(a: seq<T>, b: seq<T>)
    requires Distinct(a) && multiset(a) == multiset(b)
    ensures Distinct(b) && Ids(b) == Ids(a)
  {
    MultisetOfDistinct(a);
    forall x
      ensures x in Ids(a) <==> x in Ids(b)
    {
      IdsAre(a, x);
      IdsAre(b, x);
      assert x in a <==> x in multiset(a);
      assert x in b <==> x in multiset(b);
    }
    if !Distinct(b) {
      var i, j :| 0 <= i < j < |b| && b[i] == b[j];
      TwiceInMultiset(b, i, j);
    }
  }
}
