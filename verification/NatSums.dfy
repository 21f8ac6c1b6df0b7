/** Sums of natural numbers. */
module NatSums {

  function Sum(ns: seq<nat>): nat {
    if ns == [] then 0 else Sum(ns[..|ns| - 1]) + ns[|ns| - 1]
  }

  lemma {:induction false} SumAtMost(a: seq<nat>, b: seq<nat>)
    requires |a| == |b| && forall c: nat :: c < |a| ==> a[c] <= b[c]
    ensures Sum(a) <= Sum(b)
    ensures Sum(a) == Sum(b) ==> a == b
  {
    if a != [] {
      SumAtMost(a[..|a| - 1], b[..|b| - 1]);
      assert a == a[..|a| - 1] + [a[|a| - 1]] && b == b[..|b| - 1] + [b[|b| - 1]];
    }
  }

  lemma {:induction false} SumUpdate(a: seq<nat>, c: nat, v: nat)
    requires c < |a|
    ensures Sum(a[c := v]) == Sum(a) - a[c] + v
  {
    var n := |a| - 1;
    if c < n {
      SumUpdate(a[..n], c, v);
      assert a[c := v][..n] == a[..n][c := v];
    } else {
      assert a[c := v][..n] == a[..n];
    }
  }

  lemma {:induction false} SumZero(k: nat)
    ensures Sum(seq(k, _ => 0)) == 0
  {
    if k > 0 {
      SumZero(k - 1);
      assert seq(k, _ => 0)[..k - 1] == seq(k - 1, _ => 0);
    }
  }

  lemma {:induction false} SumBounds(counts: seq<nat>, i: nat)
    requires i < |counts|
    ensures counts[i] <= Sum(counts)
  {
    if i < |counts| - 1 {
      SumBounds(counts[..|counts| - 1], i);
    }
  }

  function Repeat(value: nat, count: nat): (counts: seq<nat>)
    ensures |counts| == count && forall i :: 0 <= i < count ==> counts[i] == value
  {
    seq(count, _ => value)
  }

  lemma {:induction false} SumRepeat(value: nat, count: nat)
    ensures Sum(Repeat(value, count)) == value * count
  {
    if count > 0 {
      SumRepeat(value, count - 1);
      assert Repeat(value, count)[..count - 1] == Repeat(value, count - 1);
      assert value * count == value * (count - 1) + value;
    }
  }
}
