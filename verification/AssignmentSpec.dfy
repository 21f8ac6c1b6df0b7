/** What a bounded assignment is and what it costs; points that are already fixed keep their cluster. */
module AssignmentSpec {
  import opened Wrappers
  import opened NatSums

  /** The row-major distance of point `p` to cluster `c`. */
  function Entry(distances: seq<real>, k: nat, p: nat, c: nat): real {
    if HasEntry(distances, k, p, c) then distances[p * k + c] else 0.0
  }

  predicate HasEntry(distances: seq<real>, k: nat, p: nat, c: nat) {
    0 <= p * k + c < |distances|
  }

  function Count(x: seq<nat>, c: nat): nat {
    if x == [] then 0 else Count(x[..|x| - 1], c) + if x[|x| - 1] == c then 1 else 0
  }

  function Cost(distances: seq<real>, k: nat, x: seq<nat>): real {
    if x == [] then 0.0
    else Cost(distances, k, x[..|x| - 1]) + Entry(distances, k, |x| - 1, x[|x| - 1])
  }

  ghost predicate Agrees(x: seq<nat>, fixed: seq<Option<nat>>) {
    |x| == |fixed| && forall p :: 0 <= p < |fixed| && fixed[p].Some? ==> x[p] == fixed[p].value
  }

  ghost predicate InBounds(x: seq<nat>, k: nat, min: nat, max: nat) {
    && (forall p :: 0 <= p < |x| ==> x[p] < k)
    && forall c: nat :: c < k ==> min <= Count(x, c) <= max
  }

  /** `x` extends `fixed` to a whole assignment within the bounds. */
  ghost predicate Completion(x: seq<nat>, fixed: seq<Option<nat>>, k: nat, min: nat, max: nat) {
    Agrees(x, fixed) && InBounds(x, k, min, max)
  }

  ghost predicate IsCheapest(cost: real, distances: seq<real>, fixed: seq<Option<nat>>, k: nat, min: nat, max: nat) {
    && (exists x :: Completion(x, fixed, k, min, max) && Cost(distances, k, x) == cost)
    && forall y :: Completion(y, fixed, k, min, max) ==> cost <= Cost(distances, k, y)
  }

  // ----- Sums over clusters -----

  /** The sizes of the first `k` clusters. */
  function Sizes(x: seq<nat>, k: nat): (r: seq<nat>)
    ensures |r| == k && forall c: nat :: c < k ==> r[c] == Count(x, c)
  {
    seq(k, c requires c >= 0 => Count(x, c))
  }

  /** Cluster sizes add up to the number of points. */
  lemma {:induction false} SizesSum(x: seq<nat>, k: nat)
    requires forall p :: 0 <= p < |x| ==> x[p] < k
    ensures Sum(Sizes(x, k)) == |x|
  {
    if x == [] {
      SumZero(k);
      assert Sizes(x, k) == seq(k, _ => 0);
    } else {
      var y, c := x[..|x| - 1], x[|x| - 1];
      SizesSum(y, k);
      SumUpdate(Sizes(y, k), c, Count(y, c) + 1);
      assert Sizes(x, k) == Sizes(y, k)[c := Count(y, c) + 1];
    }
  }

  lemma {:induction false} CountUpdate(x: seq<nat>, p: nat, c: nat, d: nat)
    requires p < |x|
    ensures Count(x[p := c], d) == Count(x, d) - (if x[p] == d then 1 else 0) + (if c == d then 1 else 0)
  {
    var n := |x| - 1;
    if p < n {
      CountUpdate(x[..n], p, c, d);
      assert x[p := c][..n] == x[..n][p := c];
    } else {
      assert x[p := c][..n] == x[..n];
    }
  }

  lemma {:induction false} CountWitness(x: seq<nat>, c: nat) returns (p: nat)
    requires Count(x, c) > 0
    ensures p < |x| && x[p] == c
  {
    p := |x| - 1;
    if x[p] != c {
      p := CountWitness(x[..p], c);
    }
  }

  // ----- Points still open -----

  /** The points without a fixed cluster, in order. */
  function Open(fixed: seq<Option<nat>>): (r: seq<nat>)
    ensures forall o :: 0 <= o < |r| ==> r[o] < |fixed| && fixed[r[o]].None?
  {
    if fixed == [] then []
    else Open(fixed[..|fixed| - 1]) + if fixed[|fixed| - 1].None? then [|fixed| - 1] else []
  }

  function FixedCount(fixed: seq<Option<nat>>, c: nat): nat {
    if fixed == [] then 0
    else FixedCount(fixed[..|fixed| - 1], c) + if fixed[|fixed| - 1] == Some(c) then 1 else 0
  }

  /** The whole assignment obtained by giving the open points the clusters `z`. */
  function Fill(fixed: seq<Option<nat>>, z: seq<nat>): (x: seq<nat>)
    requires |z| == |Open(fixed)|
    ensures |x| == |fixed|
  {
    if fixed == [] then []
    else
      var n := |fixed| - 1;
      if fixed[n].Some? then Fill(fixed[..n], z) + [fixed[n].value]
      else Fill(fixed[..n], z[..|z| - 1]) + [z[|z| - 1]]
  }

  /** The clusters `x` gives to the open points. */
  function OpenPart(fixed: seq<Option<nat>>, x: seq<nat>): (z: seq<nat>)
    requires |x| == |fixed|
    ensures |z| == |Open(fixed)| && forall o :: 0 <= o < |z| ==> z[o] == x[Open(fixed)[o]]
  {
    seq(|Open(fixed)|, o requires 0 <= o < |Open(fixed)| => x[Open(fixed)[o]])
  }

  lemma {:induction false} FillAt(fixed: seq<Option<nat>>, z: seq<nat>)
    requires |z| == |Open(fixed)|
    ensures forall p :: 0 <= p < |fixed| && fixed[p].Some? ==> Fill(fixed, z)[p] == fixed[p].value
    ensures forall o :: 0 <= o < |z| ==> Fill(fixed, z)[Open(fixed)[o]] == z[o]
  {
    if fixed != [] {
      var n := |fixed| - 1;
      FillAt(fixed[..n], if fixed[n].Some? then z else z[..|z| - 1]);
    }
  }

  lemma {:induction false} FillOpenPart(fixed: seq<Option<nat>>, x: seq<nat>)
    requires Agrees(x, fixed)
    ensures Fill(fixed, OpenPart(fixed, x)) == x
  {
    if fixed != [] {
      var n := |fixed| - 1;
      var f, y := fixed[..n], x[..n];
      assert Agrees(y, f);
      FillOpenPart(f, y);
      assert x == y + [x[n]];
      if fixed[n].Some? {
        assert OpenPart(fixed, x) == OpenPart(f, y);
      } else {
        assert OpenPart(fixed, x) == OpenPart(f, y) + [x[n]];
      }
    }
  }

  lemma {:induction false} FillCount(fixed: seq<Option<nat>>, z: seq<nat>, c: nat)
    requires |z| == |Open(fixed)|
    ensures Count(Fill(fixed, z), c) == FixedCount(fixed, c) + Count(z, c)
  {
    if fixed != [] {
      var n := |fixed| - 1;
      FillCount(fixed[..n], if fixed[n].Some? then z else z[..|z| - 1], c);
      assert Fill(fixed, z)[..n] == Fill(fixed[..n], if fixed[n].Some? then z else z[..|z| - 1]);
    }
  }

  function FixedCost(distances: seq<real>, k: nat, fixed: seq<Option<nat>>): real {
    if fixed == [] then 0.0
    else
      var n := |fixed| - 1;
      FixedCost(distances, k, fixed[..n]) + if fixed[n].Some? then Entry(distances, k, n, fixed[n].value) else 0.0
  }

  /** The cost rows of the given points. */
  function CostRows(distances: seq<real>, k: nat, points: seq<nat>): (r: seq<seq<real>>)
    ensures |r| == |points| && forall o :: 0 <= o < |r| ==> |r[o]| == k
    ensures forall o, c: nat :: 0 <= o < |r| && c < k ==> r[o][c] == Entry(distances, k, points[o], c)
  {
    seq(|points|, o requires 0 <= o < |points| => seq(k, c requires c >= 0 => Entry(distances, k, points[o], c)))
  }

  /** The cost of clusters `z` against a table of cost rows. */
  function RowCost(rows: seq<seq<real>>, z: seq<nat>): real
    requires |z| <= |rows| && forall o :: 0 <= o < |z| ==> z[o] < |rows[o]|
  {
    if z == [] then 0.0
    else RowCost(rows, z[..|z| - 1]) + rows[|z| - 1][z[|z| - 1]]
  }

  lemma CostSnoc(distances: seq<real>, k: nat, x: seq<nat>, c: nat)
    ensures Cost(distances, k, x + [c]) == Cost(distances, k, x) + Entry(distances, k, |x|, c)
  {
    assert (x + [c])[..|x|] == x;
  }

  lemma {:induction false} FillCost(distances: seq<real>, k: nat, fixed: seq<Option<nat>>, z: seq<nat>)
    requires |z| == |Open(fixed)| && forall o :: 0 <= o < |z| ==> z[o] < k
    ensures Cost(distances, k, Fill(fixed, z))
         == FixedCost(distances, k, fixed) + RowCost(CostRows(distances, k, Open(fixed)), z)
  {
    if fixed != [] {
      var n := |fixed| - 1;
      var f := fixed[..n];
      if fixed[n].Some? {
        FillCost(distances, k, f, z);
        assert Fill(fixed, z) == Fill(f, z) + [fixed[n].value];
        assert Open(fixed) == Open(f);
        CostSnoc(distances, k, Fill(f, z), fixed[n].value);
      } else {
        var y := z[..|z| - 1];
        FillCost(distances, k, f, y);
        assert Fill(fixed, z) == Fill(f, y) + [z[|z| - 1]];
        CostSnoc(distances, k, Fill(f, y), z[|z| - 1]);
        var rows := CostRows(distances, k, Open(fixed));
        assert rows[..|rows| - 1] == CostRows(distances, k, Open(f));
        RowCostPrefix(CostRows(distances, k, Open(f)), rows, y);
      }
    }
  }

  lemma {:induction false} RowCostPrefix(rows: seq<seq<real>>, more: seq<seq<real>>, z: seq<nat>)
    requires |z| <= |rows| <= |more| && rows == more[..|rows|]
    requires forall o :: 0 <= o < |z| ==> z[o] < |rows[o]|
    ensures RowCost(rows, z) == RowCost(more, z)
  {
    if z != [] {
      RowCostPrefix(rows, more, z[..|z| - 1]);
    }
  }
}
