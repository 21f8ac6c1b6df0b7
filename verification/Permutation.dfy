/** Permutations as equal multisets. */
module Permutation {

  lemma RemoveOne<T>(a: seq<T>, x: T, b: seq<T>, c: seq<T>)
    requires multiset(a + [x]) == multiset(b + [x] + c)
    ensures multiset(a) == multiset(b + c)
  {
    assert multiset(a + [x]) == multiset(a) + multiset{x};
    assert multiset(b + [x] + c) == multiset(b) + multiset{x} + multiset(c);
    assert multiset(a) == multiset(a + [x]) - multiset{x};
    assert multiset(b + c) == multiset(b + [x] + c) - multiset{x};
  }

  function Apply<T, U>(f: T -> U, items: seq<T>): (r: seq<U>)
    ensures |r| == |items|
    ensures forall i :: 0 <= i < |items| ==> r[i] == f(items[i])
  {
    if items == [] then [] else Apply(f, items[..|items| - 1]) + [f(items[|items| - 1])]
  }

  lemma MiddleCounts<T>(a: seq<T>, x: T, b: seq<T>)
    ensures multiset(a + [x] + b) == multiset(a + b) + multiset{x}
  {}

  lemma ApplyMiddle<T, U>(f: T -> U, a: seq<T>, x: T, b: seq<T>)
    ensures multiset(Apply(f, a + [x] + b)) == multiset(Apply(f, a + b)) + multiset{f(x)}
  {
    assert Apply(f, a + [x] + b) == Apply(f, a) + [f(x)] + Apply(f, b);
    assert Apply(f, a + b) == Apply(f, a) + Apply(f, b);
    MiddleCounts(Apply(f, a), f(x), Apply(f, b));
  }

  lemma ApplyLast<T, U>(f: T -> U, a: seq<T>, x: T)
    ensures multiset(Apply(f, a + [x])) == multiset(Apply(f, a)) + multiset{f(x)}
  {
    assert (a + [x])[..|a|] == a;
  }

  /** Takes `x` out of wherever it stands in `b`. */
  lemma TakeOut<T>(a: seq<T>, x: T, b: seq<T>) returns (front: seq<T>, back: seq<T>)
    requires multiset(a + [x]) == multiset(b)
    ensures b == front + [x] + back && multiset(a) == multiset(front + back)
  {
    assert (a + [x])[|a|] == x;
    assert x in multiset(b);
    var i :| 0 <= i < |b| && b[i] == x;
    front, back := b[..i], b[i + 1..];
    assert b == front + [x] + back;
    RemoveOne(a, x, front, back);
  }

  /** Applying a function to every element keeps permutations permutations. */
  lemma {:induction false} ApplyPermuted<T, U>(f: T -> U, a: seq<T>, b: seq<T>)
    requires multiset(a) == multiset(b)
    ensures multiset(Apply(f, a)) == multiset(Apply(f, b))
    decreases |a|
  {
    if a == [] {
      assert |multiset(b)| == 0;
    } else {
      var rest, x := a[..|a| - 1], a[|a| - 1];
      assert a == rest + [x];
      var front, back := TakeOut(rest, x, b);
      ApplyPermuted(f, rest, front + back);
      ApplyLast(f, rest, x);
      ApplyMiddle(f, front, x, back);
    }
  }

  lemma SameElements<T>(a: seq<T>, b: seq<T>)
    requires multiset(a) == multiset(b)
    ensures |a| == |b| && forall x :: x in a <==> x in b
  {
    assert |multiset(a)| == |a| && |multiset(b)| == |b|;
    forall x
      ensures x in a <==> x in b
    {
      assert x in a <==> x in multiset(a);
      assert x in b <==> x in multiset(b);
    }
  }
}
