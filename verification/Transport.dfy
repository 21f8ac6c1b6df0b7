/** The transport problem behind one solver call; prices certify optimality, penalties force lower bounds. */
module Transport {
  import opened AssignmentSpec
  import opened NatSums

  const OPTIONAL_CAPACITY_PENALTY := 8.0

  /** The largest distance the penalty has to dominate. */
  const DISTANCE_RANGE := 2.0

  ghost predicate RowsInRange(rows: seq<seq<real>>, k: nat) {
    forall o :: 0 <= o < |rows| ==> |rows[o]| == k && forall c: nat :: c < k ==> 0.0 <= rows[o][c] <= DISTANCE_RANGE
  }

  /** `z` gives every open point one of `k` clusters without exceeding an upper bound. */
  ghost predicate Fitting(rows: seq<seq<real>>, k: nat, upper: seq<nat>, z: seq<nat>) {
    && |upper| == k && |z| == |rows|
    && (forall o :: 0 <= o < |z| ==> z[o] < k == |rows[o]|)
    && forall c: nat :: c < k ==> Count(z, c) <= upper[c]
  }

  ghost predicate MeetsLower(z: seq<nat>, lower: seq<nat>) {
    forall c: nat :: c < |lower| ==> lower[c] <= Count(z, c)
  }

  /** Slots used beyond the lower bound. */
  function Extra(size: nat, lower: nat): nat {
    if size <= lower then 0 else size - lower
  }

  /** Optional slots used by cluster sizes `sizes`. */
  function Extras(sizes: seq<nat>, lower: seq<nat>): nat
    requires |sizes| == |lower|
  {
    if sizes == [] then 0
    else Extras(sizes[..|sizes| - 1], lower[..|lower| - 1]) + Extra(sizes[|sizes| - 1], lower[|lower| - 1])
  }

  ghost function PenalizedCost(rows: seq<seq<real>>, lower: seq<nat>, z: seq<nat>): real
    requires |z| <= |rows| && forall o :: 0 <= o < |z| ==> z[o] < |rows[o]|
  {
    RowCost(rows, z) + OPTIONAL_CAPACITY_PENALTY * Extras(Sizes(z, |lower|), lower) as real
  }

  // ----- Prices certify optimality -----

  /** No point prefers another cluster once cluster prices are paid. */
  ghost predicate PointsContent(rows: seq<seq<real>>, k: nat, price: seq<real>, z: seq<nat>)
    requires |price| == k && |z| == |rows| && forall o :: 0 <= o < |z| ==> z[o] < k == |rows[o]|
  {
    forall o, c: nat :: 0 <= o < |z| && c < k ==> rows[o][c] - rows[o][z[o]] >= price[c] - price[z[o]]
  }

  /** At price difference `gain` a cluster of size `size` is as full as it should be. */
  ghost predicate ClusterContent(size: nat, lower: nat, upper: nat, gain: real) {
    && (size < lower ==> gain <= 0.0)
    && (0 < size ==> gain >= 0.0)
    && (size < upper ==> gain <= OPTIONAL_CAPACITY_PENALTY)
    && (lower < size ==> gain >= OPTIONAL_CAPACITY_PENALTY)
  }

  function Price(price: seq<real>, z: seq<nat>): real
    requires forall o :: 0 <= o < |z| ==> z[o] < |price|
  {
    if z == [] then 0.0 else Price(price, z[..|z| - 1]) + price[z[|z| - 1]]
  }

  /** `p` paid `n` times. */
  function Times(p: real, n: nat): real {
    if n == 0 then 0.0 else Times(p, n - 1) + p
  }

  function Weighted(price: seq<real>, sizes: seq<nat>): real
    requires |price| == |sizes|
  {
    if price == [] then 0.0
    else Weighted(price[..|price| - 1], sizes[..|sizes| - 1]) + Times(price[|price| - 1], sizes[|sizes| - 1])
  }

  lemma {:induction false} WeightedMore(price: seq<real>, sizes: seq<nat>, c: nat)
    requires |price| == |sizes| && c < |sizes|
    ensures Weighted(price, sizes[c := sizes[c] + 1]) == Weighted(price, sizes) + price[c]
  {
    var n := |sizes| - 1;
    if c < n {
      WeightedMore(price[..n], sizes[..n], c);
      assert sizes[c := sizes[c] + 1][..n] == sizes[..n][c := sizes[c] + 1];
    } else {
      assert sizes[c := sizes[c] + 1][..n] == sizes[..n];
    }
  }

  lemma {:induction false} WeightedZero(price: seq<real>, sizes: seq<nat>)
    requires |price| == |sizes| && forall c :: 0 <= c < |sizes| ==> sizes[c] == 0
    ensures Weighted(price, sizes) == 0.0
  {
    if sizes != [] {
      WeightedZero(price[..|price| - 1], sizes[..|sizes| - 1]);
    }
  }

  /** Summing prices point by point or cluster by cluster is the same. */
  lemma {:induction false} PriceByCluster(price: seq<real>, z: seq<nat>)
    requires forall o :: 0 <= o < |z| ==> z[o] < |price|
    ensures Price(price, z) == Weighted(price, Sizes(z, |price|))
  {
    var k := |price|;
    if z == [] {
      WeightedZero(price, Sizes(z, k));
    } else {
      var y, c := z[..|z| - 1], z[|z| - 1];
      PriceByCluster(price, y);
      WeightedMore(price, Sizes(y, k), c);
      assert Sizes(z, k) == Sizes(y, k)[c := Count(y, c) + 1];
    }
  }

  lemma {:induction false} PointsGain(rows: seq<seq<real>>, k: nat, price: seq<real>, z: seq<nat>, y: seq<nat>)
    requires |price| == k && |z| == |y| == |rows|
    requires forall o :: 0 <= o < |z| ==> z[o] < k == |rows[o]| && y[o] < k
    requires PointsContent(rows, k, price, z)
    ensures RowCost(rows, y) - RowCost(rows, z) >= Price(price, y) - Price(price, z)
  {
    if z != [] {
      var n := |z| - 1;
      assert PointsContent(rows[..n], k, price, z[..n]);
      PointsGain(rows[..n], k, price, z[..n], y[..n]);
      RowCostPrefix(rows[..n], rows, z[..n]);
      RowCostPrefix(rows[..n], rows, y[..n]);
      assert rows[n][y[n]] - rows[n][z[n]] >= price[y[n]] - price[z[n]];
    }
  }

  lemma {:induction false} TimesMinus(a: real, b: real, n: nat)
    ensures Times(a - b, n) == Times(a, n) - Times(b, n)
  {
    if n > 0 {
      TimesMinus(a, b, n - 1);
    }
  }

  lemma {:induction false} TimesPlus(a: real, m: nat, n: nat)
    ensures Times(a, m + n) == Times(a, m) + Times(a, n)
  {
    if n > 0 {
      TimesPlus(a, m, n - 1);
    }
  }

  /** A cluster's penalties less its gain; the gain is the price difference paid per point. */
  function Burden(size: nat, lower: nat, gain: real): real {
    OPTIONAL_CAPACITY_PENALTY * Extra(size, lower) as real - Times(gain, size)
  }

  lemma {:induction false} ContentClusterIsBest(size: nat, size': nat, lower: nat, upper: nat, gain: real)
    requires ClusterContent(size, lower, upper, gain) && size <= upper && size' <= upper
    ensures Burden(size', lower, gain) >= Burden(size, lower, gain)
    decreases if size' > size then size' - size else size - size'
  {
    if size' > size {
      ContentClusterIsBest(size, size' - 1, lower, upper, gain);
    } else if size' < size {
      ContentClusterIsBest(size, size' + 1, lower, upper, gain);
    }
  }

  function Burdens(sizes: seq<nat>, lower: seq<nat>, price: seq<real>, top: real): real
    requires |sizes| == |lower| == |price|
  {
    if sizes == [] then 0.0
    else
      var n := |sizes| - 1;
      Burdens(sizes[..n], lower[..n], price[..n], top) + Burden(sizes[n], lower[n], top - price[n])
  }

  lemma {:induction false} BurdensSplit(sizes: seq<nat>, lower: seq<nat>, price: seq<real>, top: real)
    requires |sizes| == |lower| == |price|
    ensures Burdens(sizes, lower, price, top)
         == OPTIONAL_CAPACITY_PENALTY * Extras(sizes, lower) as real - Times(top, Sum(sizes)) + Weighted(price, sizes)
  {
    if sizes != [] {
      var n := |sizes| - 1;
      BurdensSplit(sizes[..n], lower[..n], price[..n], top);
      TimesMinus(top, price[n], sizes[n]);
      TimesPlus(top, Sum(sizes[..n]), sizes[n]);
    }
  }

  lemma {:induction false} ContentClustersAreBest(sizes: seq<nat>, sizes': seq<nat>, lower: seq<nat>, upper: seq<nat>,
                                                  price: seq<real>, top: real)
    requires |sizes| == |sizes'| == |lower| == |upper| == |price|
    requires forall c :: 0 <= c < |sizes| ==> sizes[c] <= upper[c] && sizes'[c] <= upper[c]
    requires forall c :: 0 <= c < |sizes| ==> ClusterContent(sizes[c], lower[c], upper[c], top - price[c])
    ensures Burdens(sizes', lower, price, top) >= Burdens(sizes, lower, price, top)
  {
    if sizes != [] {
      var n := |sizes| - 1;
      ContentClustersAreBest(sizes[..n], sizes'[..n], lower[..n], upper[..n], price[..n], top);
      ContentClusterIsBest(sizes[n], sizes'[n], lower[n], upper[n], top - price[n]);
    }
  }

  /** Content points and content clusters mean that no fitting choice is cheaper. */
  lemma {:induction false} PricesProveCheapest(rows: seq<seq<real>>, k: nat, lower: seq<nat>, upper: seq<nat>,
                                               price: seq<real>, top: real, z: seq<nat>, y: seq<nat>)
    requires |lower| == |price| == k && Fitting(rows, k, upper, z) && Fitting(rows, k, upper, y)
    requires PointsContent(rows, k, price, z)
    requires forall c: nat :: c < k ==> ClusterContent(Count(z, c), lower[c], upper[c], top - price[c])
    ensures PenalizedCost(rows, lower, z) <= PenalizedCost(rows, lower, y)
  {
    PointsGain(rows, k, price, z, y);
    PriceByCluster(price, z);
    PriceByCluster(price, y);
    SizesSum(z, k);
    SizesSum(y, k);
    ContentClustersAreBest(Sizes(z, k), Sizes(y, k), lower, upper, price, top);
    BurdensSplit(Sizes(z, k), lower, price, top);
    BurdensSplit(Sizes(y, k), lower, price, top);
  }

  // ----- The penalty forces the lower bounds -----

  lemma {:induction false} ExtrasUpdate(sizes: seq<nat>, lower: seq<nat>, c: nat, v: nat)
    requires |sizes| == |lower| && c < |sizes|
    ensures Extras(sizes[c := v], lower) == Extras(sizes, lower) - Extra(sizes[c], lower[c]) + Extra(v, lower[c])
  {
    var n := |sizes| - 1;
    if c < n {
      ExtrasUpdate(sizes[..n], lower[..n], c, v);
      assert sizes[c := v][..n] == sizes[..n][c := v];
    } else {
      assert sizes[c := v][..n] == sizes[..n];
    }
  }

  lemma {:induction false} RowCostUpdate(rows: seq<seq<real>>, z: seq<nat>, o: nat, c: nat)
    requires |z| <= |rows| && (forall i :: 0 <= i < |z| ==> z[i] < |rows[i]|) && o < |z| && c < |rows[o]|
    ensures RowCost(rows, z[o := c]) == RowCost(rows, z) - rows[o][z[o]] + rows[o][c]
  {
    var n := |z| - 1;
    if o < n {
      RowCostUpdate(rows, z[..n], o, c);
      assert z[o := c][..n] == z[..n][o := c];
    } else {
      assert z[o := c][..n] == z[..n];
    }
  }

  /** Moving one point from an overfull cluster `d` to an underfull cluster `c` saves more than it costs. */
  lemma {:induction false} MoveSaves(rows: seq<seq<real>>, k: nat, lower: seq<nat>, upper: seq<nat>, z: seq<nat>,
                                     o: nat, c: nat)
    requires |lower| == k && Fitting(rows, k, upper, z) && RowsInRange(rows, k)
    requires o < |z| && c < k && Count(z, c) < lower[c] <= upper[c] && lower[z[o]] < Count(z, z[o])
    ensures Fitting(rows, k, upper, z[o := c])
    ensures PenalizedCost(rows, lower, z[o := c]) < PenalizedCost(rows, lower, z)
  {
    var d := z[o];
    var y := z[o := c];
    forall e: nat | e < k
      ensures Count(y, e) == Count(z, e) - (if e == d then 1 else 0) + (if e == c then 1 else 0)
    {
      CountUpdate(z, o, c, e);
    }
    RowCostUpdate(rows, z, o, c);
    var s := Sizes(z, k);
    ExtrasUpdate(s, lower, d, s[d] - 1);
    ExtrasUpdate(s[d := s[d] - 1], lower, c, s[c] + 1);
    assert Sizes(y, k) == s[d := s[d] - 1][c := s[c] + 1];
    assert Extras(Sizes(y, k), lower) == Extras(s, lower) - 1;
  }

  /** A cheapest fitting choice meets every lower bound that can be met at all. */
  lemma {:induction false} CheapestMeetsLower(rows: seq<seq<real>>, k: nat, lower: seq<nat>, upper: seq<nat>,
                                              z: seq<nat>)
    requires |lower| == k && Fitting(rows, k, upper, z) && RowsInRange(rows, k)
    requires (forall c: nat :: c < k ==> lower[c] <= upper[c]) && Sum(lower) <= |rows|
    requires forall y :: Fitting(rows, k, upper, y) ==> PenalizedCost(rows, lower, z) <= PenalizedCost(rows, lower, y)
    ensures MeetsLower(z, lower)
  {
    if c: nat :| c < k && Count(z, c) < lower[c] {
      var sizes := Sizes(z, k);
      SizesSum(z, k);
      if forall d: nat :: d < k ==> Count(z, d) <= lower[d] {
        SumAtMost(sizes, lower);
        assert false;
      }
      var d: nat :| d < k && lower[d] < Count(z, d);
      var o := CountWitness(z, d);
      MoveSaves(rows, k, lower, upper, z, o, c);
      assert false;
    }
  }

  lemma {:induction false} ExtrasWhenMet(sizes: seq<nat>, lower: seq<nat>)
    requires |sizes| == |lower| && forall c: nat :: c < |lower| ==> lower[c] <= sizes[c]
    ensures Extras(sizes, lower) == Sum(sizes) - Sum(lower)
  {
    if sizes != [] {
      ExtrasWhenMet(sizes[..|sizes| - 1], lower[..|lower| - 1]);
    }
  }

  /** Among choices that meet the lower bounds the penalties are all the same. */
  lemma {:induction false} PenaltyConstant(rows: seq<seq<real>>, k: nat, lower: seq<nat>, upper: seq<nat>, z: seq<nat>)
    requires |lower| == k && Fitting(rows, k, upper, z) && MeetsLower(z, lower) && Sum(lower) <= |rows|
    ensures PenalizedCost(rows, lower, z)
      == RowCost(rows, z) + OPTIONAL_CAPACITY_PENALTY * (|rows| - Sum(lower)) as real
  {
    ExtrasWhenMet(Sizes(z, k), lower);
    SizesSum(z, k);
  }

  /** Hence the cheapest penalized choice is feasible and has the least true cost of all feasible ones. */
  lemma {:induction false} PenaltyExact(rows: seq<seq<real>>, k: nat, lower: seq<nat>, upper: seq<nat>, z: seq<nat>,
                                        y: seq<nat>)
    requires |lower| == k && Fitting(rows, k, upper, z) && RowsInRange(rows, k)
    requires (forall c: nat :: c < k ==> lower[c] <= upper[c]) && Sum(lower) <= |rows|
    requires forall y :: Fitting(rows, k, upper, y) ==> PenalizedCost(rows, lower, z) <= PenalizedCost(rows, lower, y)
    requires Fitting(rows, k, upper, y) && MeetsLower(y, lower)
    ensures MeetsLower(z, lower) && RowCost(rows, z) <= RowCost(rows, y)
  {
    CheapestMeetsLower(rows, k, lower, upper, z);
    PenaltyConstant(rows, k, lower, upper, z);
    PenaltyConstant(rows, k, lower, upper, y);
  }
}
