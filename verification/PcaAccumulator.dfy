/** The streaming mean and scatter matrix: updates and merges agree with the two-pass definition. */
module PcaAccumulator {
  import opened Wrappers
  import opened PcaErrors
  import opened RealSums
  import Permutation

  const U64_MAX := 0xFFFF_FFFF_FFFF_FFFF

  type Sample = seq<real>

  ghost predicate OfDim(samples: seq<Sample>, dim: nat) {
    forall k :: 0 <= k < |samples| ==> |samples[k]| == dim
  }

  // ----- Two passes over the samples -----

  function At(sample: Sample, i: nat): real {
    if i < |sample| then sample[i] else 0.0
  }

  function Count(samples: seq<Sample>): real {
    |samples| as real
  }

  type Measure = Sample -> real

  function Sum(f: Measure, samples: seq<Sample>): real {
    if samples == [] then 0.0 else Sum(f, samples[..|samples| - 1]) + f(samples[|samples| - 1])
  }

  function Coordinate(i: nat): Measure {
    (s: Sample) => At(s, i)
  }

  function Total(samples: seq<Sample>, i: nat): real {
    Sum(Coordinate(i), samples)
  }

  function Mean(samples: seq<Sample>, i: nat): real
    requires samples != []
  {
    Total(samples, i) / Count(samples)
  }

  function Deviation(i: nat, j: nat, p: real, q: real): Measure {
    (s: Sample) => (At(s, i) - p) * (At(s, j) - q)
  }

  /** The products of the deviations from `p` and `q`, added up. */
  function Deviations(samples: seq<Sample>, i: nat, j: nat, p: real, q: real): real {
    Sum(Deviation(i, j, p, q), samples)
  }

  /** The scatter matrix by its definition: first the means, then the deviations from them. */
  function Scatter(samples: seq<Sample>, i: nat, j: nat): real
    requires samples != []
  {
    Deviations(samples, i, j, Mean(samples, i), Mean(samples, j))
  }

  // ----- Raw sums, which are additive -----

  function Product(i: nat, j: nat): Measure {
    (s: Sample) => At(s, i) * At(s, j)
  }

  function Products(samples: seq<Sample>, i: nat, j: nat): real {
    Sum(Product(i, j), samples)
  }

  function Scaled(c: real, i: nat): Measure {
    (s: Sample) => c * At(s, i)
  }

  lemma OneMore(n: real, c: real)
    ensures (n + 1.0) * c == n * c + c
  {}

  lemma {:induction false} SumOfLinear(samples: seq<Sample>, d: Measure, a: Measure, b: Measure, e: Measure, c: real)
    requires forall s: Sample :: d(s) == a(s) - b(s) - e(s) + c
    ensures Sum(d, samples) == Sum(a, samples) - Sum(b, samples) - Sum(e, samples) + Count(samples) * c
  {
    if samples != [] {
      SumOfLinear(samples[..|samples| - 1], d, a, b, e, c);
      OneMore(Count(samples[..|samples| - 1]), c);
    }
  }

  lemma {:induction false} SumOfScaled(samples: seq<Sample>, c: real, f: Measure, g: Measure)
    requires forall s: Sample :: g(s) == c * f(s)
    ensures Sum(g, samples) == c * Sum(f, samples)
  {
    if samples != [] {
      var front, last := samples[..|samples| - 1], samples[|samples| - 1];
      SumOfScaled(front, c, f, g);
      Distribute(c, Sum(f, front), f(last));
    }
  }

  lemma OneDeviation(x: real, y: real, p: real, q: real)
    ensures (x - p) * (y - q) == x * y - q * x - p * y + p * q
  {}

  lemma DeviationIsLinear(i: nat, j: nat, p: real, q: real)
    ensures forall s: Sample ::
      Deviation(i, j, p, q)(s) == Product(i, j)(s) - Scaled(q, i)(s) - Scaled(p, j)(s) + p * q
  {
    forall s: Sample
      ensures Deviation(i, j, p, q)(s) == Product(i, j)(s) - Scaled(q, i)(s) - Scaled(p, j)(s) + p * q
    {
      OneDeviation(At(s, i), At(s, j), p, q);
    }
  }

  /** Deviations from any two values, by the raw sums. */
  lemma ExpandValues(samples: seq<Sample>, i: nat, j: nat, p: real, q: real, deviations: real, products: real, n: real,
                     first: real, second: real)
    requires deviations == Deviations(samples, i, j, p, q) && products == Products(samples, i, j)
    requires n == Count(samples) && first == Total(samples, i) && second == Total(samples, j)
    ensures deviations == products - q * first - p * second + n * (p * q)
  {
    DeviationIsLinear(i, j, p, q);
    SumOfLinear(samples, Deviation(i, j, p, q), Product(i, j), Scaled(q, i), Scaled(p, j), p * q);
    SumOfScaled(samples, q, Coordinate(i), Scaled(q, i));
    SumOfScaled(samples, p, Coordinate(j), Scaled(p, j));
  }

  /** The deviations from `p`, added up: nothing when `p` is the mean. */
  function Residual(samples: seq<Sample>, i: nat, p: real): real {
    if samples == [] then 0.0
    else Residual(samples[..|samples| - 1], i, p) + (At(samples[|samples| - 1], i) - p)
  }

  lemma Cancel(deviations: real, products: real, n: real, p: real, q: real, first: real, second: real)
    requires deviations == products - q * first - p * second + n * (p * q)
    requires first == n * p && second == n * q
    ensures deviations == products - n * (p * q)
  {
    assert q * first == n * (p * q);
    assert p * second == n * (p * q);
  }

  lemma {:induction false} ResidualIs(samples: seq<Sample>, i: nat, p: real)
    ensures Residual(samples, i, p) == Total(samples, i) - Count(samples) * p
  {
    if samples != [] {
      ResidualIs(samples[..|samples| - 1], i, p);
      OneMore(Count(samples[..|samples| - 1]), p);
    }
  }

  lemma TotalFromMean(samples: seq<Sample>, i: nat, p: real, n: real) returns (total: real)
    requires Residual(samples, i, p) == 0.0 && n == Count(samples)
    ensures total == Total(samples, i) && total == n * p
  {
    ResidualIs(samples, i, p);
    total := Total(samples, i);
  }

  /** Deviations from the means are the raw products less what the means account for. */
  lemma DeviationsFromMeans(samples: seq<Sample>, i: nat, j: nat, p: real, q: real, deviations: real, products: real,
                            n: real)
    requires Residual(samples, i, p) == 0.0 && Residual(samples, j, q) == 0.0
    requires deviations == Deviations(samples, i, j, p, q) && products == Products(samples, i, j) && n == Count(samples)
    ensures deviations == products - n * (p * q)
  {
    var first := TotalFromMean(samples, i, p, n);
    var second := TotalFromMean(samples, j, q, n);
    ExpandValues(samples, i, j, p, q, deviations, products, n, first, second);
    Cancel(deviations, products, n, p, q, first, second);
  }

  lemma {:induction false} SumOfConcat(f: Measure, a: seq<Sample>, b: seq<Sample>)
    ensures Sum(f, a + b) == Sum(f, a) + Sum(f, b)
  {
    if b == [] {
      assert a + b == a;
    } else {
      SumOfConcat(f, a, b[..|b| - 1]);
      assert (a + b)[..|a + b| - 1] == a + b[..|b| - 1];
    }
  }

  lemma SumsConcat(a: seq<Sample>, b: seq<Sample>, i: nat, j: nat)
    ensures Total(a + b, i) == Total(a, i) + Total(b, i)
    ensures Products(a + b, i, j) == Products(a, i, j) + Products(b, i, j)
  {
    SumOfConcat(Coordinate(i), a, b);
    SumOfConcat(Product(i, j), a, b);
  }

  // ----- The merge formulas -----

  /** With means `p` of `m` samples and `q` of `n` samples, `p + (q - p) * (n / (m + n))` is the joint mean. */
  lemma JointMean(m: real, n: real, p: real, q: real, share: real)
    requires share * (m + n) == n
    ensures (m + n) * (p + (q - p) * share) == m * p + n * q
  {
    assert (m + n) * ((q - p) * share) == (q - p) * (share * (m + n));
    assert (m + n) * (p + (q - p) * share) == (m + n) * p + (m + n) * ((q - p) * share);
    assert (q - p) * n == q * n - p * n;
  }

  lemma MeanIs(total: real, n: real, mean: real)
    requires n > 0.0 && n * mean == total
    ensures total / n == mean
  {
    assert (total / n - mean) * n == 0.0;
  }

  lemma TotalIs(samples: seq<Sample>, i: nat)
    requires samples != []
    ensures Total(samples, i) == Count(samples) * Mean(samples, i)
  {}

  lemma MeanValue(a: seq<Sample>, b: seq<Sample>, i: nat, p: real, q: real, m: real, n: real, share: real)
    requires a != [] && b != [] && m == Count(a) && n == Count(b) && share * (m + n) == n
    requires p == Mean(a, i) && q == Mean(b, i)
    ensures Mean(a + b, i) == p + (q - p) * share
  {
    SumsConcat(a, b, i, i);
    TotalIs(a, i);
    TotalIs(b, i);
    JointMean(m, n, p, q, share);
    MeanIs(Total(a + b, i), m + n, p + (q - p) * share);
  }

  /** The mean of two sample sets together. */
  lemma MeanOfConcat(a: seq<Sample>, b: seq<Sample>, i: nat)
    requires a != [] && b != []
    ensures Mean(a + b, i) == Mean(a, i) + (Mean(b, i) - Mean(a, i)) * (Count(b) / Count(a + b))
  {
    MeanValue(a, b, i, Mean(a, i), Mean(b, i), Count(a), Count(b), Count(b) / Count(a + b));
  }

  /** The products that the separate means account for, against those of the joint means. */
  lemma JointProducts(m: real, n: real, p: real, q: real, u: real, v: real, share: real, s: real, t: real, scale: real)
    requires share * (m + n) == n && scale == m * share
    requires s == p + (q - p) * share && t == u + (v - u) * share
    ensures m * (p * u) + n * (q * v) - (m + n) * (s * t) == ((q - p) * (v - u)) * scale
  {
    var d, e := q - p, v - u;
    assert s * t == p * u + p * (e * share) + u * (d * share) + (d * share) * (e * share);
    JointTerms(m, n, p, u, d, e, share);
    assert q * v == p * u + p * e + u * d + d * e;
    assert n * (q * v) == n * (p * u) + n * (p * e) + n * (u * d) + n * (d * e);
    assert (m + n) * (s * t)
        == (m + n) * (p * u) + (m + n) * (p * (e * share)) + (m + n) * (u * (d * share))
           + (m + n) * ((d * share) * (e * share));
    assert n * (d * e) - (n * share) * (d * e) == (m * share) * (d * e) by {
      assert n == share * m + share * n;
      assert n - n * share == m * share;
      assert n * (d * e) - (n * share) * (d * e) == (n - n * share) * (d * e);
    }
  }

  lemma JointTerms(m: real, n: real, p: real, u: real, d: real, e: real, share: real)
    requires share * (m + n) == n
    ensures (m + n) * (p * (e * share)) == n * (p * e)
    ensures (m + n) * (u * (d * share)) == n * (u * d)
    ensures (m + n) * ((d * share) * (e * share)) == (n * share) * (d * e)
  {
    assert (m + n) * (p * (e * share)) == (share * (m + n)) * (p * e);
    assert (m + n) * (u * (d * share)) == (share * (m + n)) * (u * d);
    assert (m + n) * ((d * share) * (e * share)) == (share * (m + n)) * (share * (d * e));
  }

  lemma ScaleIs(m: real, n: real, total: real)
    requires total != 0.0
    ensures m * (n / total) == (m * n) / total
  {}

  lemma JointScatter(m: real, n: real, p: real, q: real, u: real, v: real, share: real, s: real, t: real, left: real,
                     right: real, both: real, leftProducts: real, rightProducts: real, total: real)
    requires total == m + n && share * total == n && s == p + (q - p) * share && t == u + (v - u) * share
    requires left == leftProducts - m * (p * u) && right == rightProducts - n * (q * v)
    requires both == leftProducts + rightProducts - total * (s * t)
    ensures both == left + right + ((q - p) * (v - u)) * (m * share)
  {
    JointProducts(m, n, p, q, u, v, share, s, t, m * share);
  }

  lemma ConcatValues(a: seq<Sample>, b: seq<Sample>, i: nat, j: nat, p: real, q: real, u: real, v: real, s: real,
                     t: real,
                     m: real, n: real, total: real)
    returns (left: real, right: real, both: real, leftProducts: real, rightProducts: real)
    requires Residual(a, i, p) == Residual(b, i, q) == Residual(a + b, i, s) == 0.0
    requires Residual(a, j, u) == Residual(b, j, v) == Residual(a + b, j, t) == 0.0
    requires m == Count(a) && n == Count(b) && total == Count(a + b)
    ensures left == Deviations(a, i, j, p, u) && right == Deviations(b, i, j, q, v)
    ensures both == Deviations(a + b, i, j, s, t)
    ensures left == leftProducts - m * (p * u) && right == rightProducts - n * (q * v)
    ensures both == leftProducts + rightProducts - total * (s * t)
  {
    left, right, both := Deviations(a, i, j, p, u), Deviations(b, i, j, q, v), Deviations(a + b, i, j, s, t);
    leftProducts, rightProducts := Products(a, i, j), Products(b, i, j);
    DeviationsFromMeans(a, i, j, p, u, left, leftProducts, m);
    DeviationsFromMeans(b, i, j, q, v, right, rightProducts, n);
    SumsConcat(a, b, i, j);
    DeviationsFromMeans(a + b, i, j, s, t, both, leftProducts + rightProducts, total);
  }

  lemma JointMeans(a: seq<Sample>, b: seq<Sample>, i: nat, p: real, q: real, m: real, n: real, share: real)
    returns (s: real)
    requires a != [] && b != [] && m == Count(a) && n == Count(b) && share * (m + n) == n
    requires p == Mean(a, i) && q == Mean(b, i)
    ensures s == Mean(a + b, i) && s == p + (q - p) * share
    ensures Residual(a, i, p) == Residual(b, i, q) == Residual(a + b, i, s) == 0.0
  {
    MeanValue(a, b, i, p, q, m, n, share);
    NoResidual(a, i);
    NoResidual(b, i);
    NoResidual(a + b, i);
    s := Mean(a + b, i);
  }

  lemma ScatterValues(a: seq<Sample>, b: seq<Sample>, i: nat, j: nat, p: real, q: real, u: real, v: real, m: real,
                      n: real,
                      total: real, share: real)
    returns (left: real, right: real, both: real)
    requires a != [] && b != [] && m == Count(a) && n == Count(b) && total == m + n && share * total == n
    requires p == Mean(a, i) && q == Mean(b, i) && u == Mean(a, j) && v == Mean(b, j)
    ensures left == Scatter(a, i, j) && right == Scatter(b, i, j) && both == Scatter(a + b, i, j)
    ensures both == left + right + ((q - p) * (v - u)) * (m * share)
  {
    var s := JointMeans(a, b, i, p, q, m, n, share);
    var t := JointMeans(a, b, j, u, v, m, n, share);
    var l, r, together, leftProducts, rightProducts := ConcatValues(a, b, i, j, p, q, u, v, s, t, m, n, total);
    left, right, both := l, r, together;
    JointScatter(m, n, p, q, u, v, share, s, t, left, right, both, leftProducts, rightProducts, total);
  }

  /** The scatter of two sample sets together. */
  lemma ScatterOfConcat(a: seq<Sample>, b: seq<Sample>, i: nat, j: nat)
    requires a != [] && b != []
    ensures Scatter(a + b, i, j)
         == Scatter(a, i, j) + Scatter(b, i, j)
            + ((Mean(b, i) - Mean(a, i)) * (Mean(b, j) - Mean(a, j))) * ((Count(a) * Count(b)) / Count(a + b))
  {
    var m, n, total := Count(a), Count(b), Count(a + b);
    var p, q, u, v := Mean(a, i), Mean(b, i), Mean(a, j), Mean(b, j);
    var left, right, both := ScatterValues(a, b, i, j, p, q, u, v, m, n, total, n / total);
    ScaleIs(m, n, total);
  }

  lemma NoResidual(samples: seq<Sample>, i: nat)
    requires samples != []
    ensures Residual(samples, i, Mean(samples, i)) == 0.0
  {
    ResidualIs(samples, i, Mean(samples, i));
    TotalIs(samples, i);
  }

  // ----- Order does not matter -----

  lemma SumOfMiddle(f: Measure, front: seq<Sample>, s: Sample, back: seq<Sample>)
    ensures Sum(f, front + [s] + back) == Sum(f, front + back) + f(s)
  {
    SumOfConcat(f, front + [s], back);
    SumOfConcat(f, front, [s]);
    SumOfConcat(f, front, back);
    SumOfOne(f, s);
  }

  lemma {:induction false} SumPermuted(f: Measure, a: seq<Sample>, b: seq<Sample>)
    requires multiset(a) == multiset(b)
    ensures Sum(f, a) == Sum(f, b)
    decreases |a|
  {
    if a == [] {
      assert |multiset(b)| == 0;
    } else {
      var rest, s := a[..|a| - 1], a[|a| - 1];
      assert a == rest + [s];
      var front, back := Permutation.TakeOut(rest, s, b);
      SumPermuted(f, rest, front + back);
      SumOfMiddle(f, front, s, back);
    }
  }

  /** Mean and scatter depend on which samples there are, not on their order. */
  lemma OrderDoesNotMatter(a: seq<Sample>, b: seq<Sample>, i: nat, j: nat)
    requires multiset(a) == multiset(b) && a != []
    ensures b != [] && Mean(a, i) == Mean(b, i) && Scatter(a, i, j) == Scatter(b, i, j)
  {
    assert |multiset(a)| == |a| && |multiset(b)| == |b|;
    SumPermuted(Coordinate(i), a, b);
    SumPermuted(Coordinate(j), a, b);
    SumPermuted(Deviation(i, j, Mean(a, i), Mean(a, j)), a, b);
  }

  // ----- One more sample -----

  lemma SumOfOne(f: Measure, s: Sample)
    ensures Sum(f, [s]) == f(s)
  {
    assert [s][..|[s]| - 1] == [];
  }

  lemma OneSample(s: Sample, i: nat, j: nat)
    ensures Mean([s], i) == At(s, i) && Scatter([s], i, j) == 0.0
  {
    SumOfOne(Coordinate(i), s);
    SumOfOne(Coordinate(j), s);
    SumOfOne(Deviation(i, j, At(s, i), At(s, j)), s);
  }

  /** With the old means `p` and `q`, the new mean `t`, and the old and new scatter of one entry. */
  lemma UpdateFormula(n: real, x: real, y: real, p: real, q: real, t: real, share: real, before: real, after: real)
    requires share * (n + 1.0) == 1.0 && t == q + (y - q) * share
    requires after == before + ((x - p) * (y - q)) * (n * share)
    ensures after == before + (x - p) * (y - t)
  {
    assert n * share == 1.0 - share;
    assert y - t == (y - q) * (1.0 - share);
    assert ((x - p) * (y - q)) * (1.0 - share) == (x - p) * ((y - q) * (1.0 - share));
  }

  lemma ShareOfOne(x: real, p: real, n: real)
    requires n > 0.0
    ensures p + (x - p) / n == p + (x - p) * (1.0 / n)
  {}

  /** The running mean after one more sample. */
  function NextMean(samples: seq<Sample>, s: Sample, i: nat): real
    requires samples != []
  {
    Mean(samples, i) + (At(s, i) - Mean(samples, i)) / (Count(samples) + 1.0)
  }

  lemma UpdateMoves(samples: seq<Sample>, s: Sample, i: nat)
    requires samples != []
    ensures Mean(samples + [s], i) == NextMean(samples, s, i)
    ensures NextMean(samples, s, i) == Mean(samples, i) + (At(s, i) - Mean(samples, i)) * (1.0 / (Count(samples) + 1.0))
  {
    var n := Count(samples);
    OneSample(s, i, i);
    ShareOfOne(At(s, i), Mean(samples, i), n + 1.0);
    MeanValue(samples, [s], i, Mean(samples, i), At(s, i), n, 1.0, 1.0 / (n + 1.0));
  }

  lemma UpdateGrows(samples: seq<Sample>, s: Sample, i: nat, j: nat, n: real, x: real, y: real, p: real, q: real,
                    share: real)
    returns (before: real, after: real)
    requires samples != [] && n == Count(samples) && x == At(s, i) && y == At(s, j) && share * (n + 1.0) == 1.0
    requires p == Mean(samples, i) && q == Mean(samples, j)
    ensures before == Scatter(samples, i, j) && after == Scatter(samples + [s], i, j)
    ensures after == before + ((x - p) * (y - q)) * (n * share)
  {
    OneSample(s, i, j);
    OneSample(s, j, i);
    var left, right, both := ScatterValues(samples, [s], i, j, p, x, q, y, n, 1.0, n + 1.0, share);
    before, after := left, both;
  }

  /** One update: the mean moves by its share, the scatter grows by the deviations before and after the move. */
  lemma UpdateIsExact(samples: seq<Sample>, s: Sample, i: nat, j: nat)
    requires samples != []
    ensures Mean(samples + [s], i) == NextMean(samples, s, i)
    ensures Scatter(samples + [s], i, j)
         == Scatter(samples, i, j) + (At(s, i) - Mean(samples, i)) * (At(s, j) - NextMean(samples, s, j))
  {
    UpdateMoves(samples, s, i);
    var before, after, t := UpdateValues(samples, s, i, j, Count(samples), At(s, i), At(s, j), Mean(samples, i),
                                         Mean(samples, j), 1.0 / (Count(samples) + 1.0));
  }

  lemma UpdateValues(samples: seq<Sample>, s: Sample, i: nat, j: nat, n: real, x: real, y: real, p: real, q: real,
                     share: real)
    returns (before: real, after: real, t: real)
    requires samples != [] && n == Count(samples) && x == At(s, i) && y == At(s, j) && share == 1.0 / (n + 1.0)
    requires p == Mean(samples, i) && q == Mean(samples, j)
    ensures before == Scatter(samples, i, j) && after == Scatter(samples + [s], i, j) && t == NextMean(samples, s, j)
    ensures after == before + (x - p) * (y - t)
  {
    t := NextMean(samples, s, j);
    UpdateMoves(samples, s, j);
    before, after := UpdateGrows(samples, s, i, j, n, x, y, p, q, share);
    UpdateFormula(n, x, y, p, q, t, share, before, after);
  }

  // ----- The accumulator -----

  ghost predicate DescribesMean(mean: seq<real>, samples: seq<Sample>, dim: nat) {
    && |mean| == dim
    && forall i: nat :: i < dim ==> mean[i] == MeanEntry(samples, i)
  }

  /** Nothing seen so far counts as zero. */
  function MeanEntry(samples: seq<Sample>, i: nat): real {
    if |samples| == 0 then 0.0 else Mean(samples, i)
  }

  function ScatterEntry(samples: seq<Sample>, i: nat, j: nat): real {
    if |samples| == 0 then 0.0 else Scatter(samples, i, j)
  }

  function ScatterTable(samples: seq<Sample>): Table {
    (i: nat, j: nat) => ScatterEntry(samples, i, j)
  }

  function Plus(t: Table, u: Table): Table {
    (i: nat, j: nat) => t(i, j) + u(i, j)
  }

  lemma TableIs(m: seq<real>, rowCount: nat, columnCount: nat, t: Table, u: Table)
    requires IsMatrix(m, rowCount, columnCount, t)
    requires forall i: nat, j: nat :: i < rowCount && j < columnCount ==> t(i, j) == u(i, j)
    ensures IsMatrix(m, rowCount, columnCount, u)
  {}

  /** Adds a term to every entry, column by column. */
  method AddTerms(m: seq<real>, dim: nat, terms: Table, ghost t: Table) returns (r: seq<real>)
    requires IsMatrix(m, dim, dim, t)
    ensures IsMatrix(r, dim, dim, Plus(t, terms))
  {
    r := m;
    ghost var sum := Plus(t, terms);
    for column := 0 to dim
      invariant FilledTo(r, dim, dim, sum, t, 0, column)
    {
      for row := 0 to dim
        invariant FilledTo(r, dim, dim, sum, t, row, column)
      {
        FillNext(r, dim, dim, sum, t, row, column);
        r := Store(r, dim, row, column, r[MatrixIndex(dim, row, column)] + terms(row, column));
      }
      NextColumn(r, dim, dim, sum, t, column);
    }
    Filled(r, dim, dim, sum, t);
  }

  method AddMatrix(m: seq<real>, other: seq<real>, dim: nat, ghost t: Table, ghost u: Table) returns (r: seq<real>)
    requires IsMatrix(m, dim, dim, t) && IsMatrix(other, dim, dim, u)
    ensures IsMatrix(r, dim, dim, Plus(t, u))
  {
    r := m;
    for index := 0 to |r|
      invariant |r| == |m|
      invariant forall k :: 0 <= k < |m| ==> r[k] == if k < index then m[k] + other[k] else m[k]
    {
      r := r[index := r[index] + other[index]];
    }
    forall i: nat, j: nat | i < dim && j < dim
      ensures Entry(r, dim, i, j) == Plus(t, u)(i, j)
    {
      IndexInBounds(dim, dim, i, j);
      assert Entry(m, dim, i, j) == t(i, j) && Entry(other, dim, i, j) == u(i, j);
    }
  }

  /** Moves the mean towards a new sample; `before` and `after` are the deviations from the old and the new mean. */
  method MoveMean(mean: seq<real>, sample: Sample, nextCount: real)
    returns (moved: seq<real>, before: seq<real>, after: seq<real>)
    requires |mean| == |sample| && nextCount > 0.0
    ensures |moved| == |before| == |after| == |mean|
    ensures forall i :: 0 <= i < |mean| ==>
      && moved[i] == mean[i] + (sample[i] - mean[i]) / nextCount
      && before[i] == sample[i] - mean[i] && after[i] == sample[i] - moved[i]
  {
    moved, before, after := [], [], [];
    for i := 0 to |sample|
      invariant |moved| == |before| == |after| == i
      invariant forall k :: 0 <= k < i ==>
        && moved[k] == mean[k] + (sample[k] - mean[k]) / nextCount
        && before[k] == sample[k] - mean[k] && after[k] == sample[k] - moved[k]
    {
      var delta := sample[i] - mean[i];
      before := before + [delta];
      moved := moved + [mean[i] + delta / nextCount];
      after := after + [sample[i] - moved[i]];
    }
  }

  function Outer(left: seq<real>, right: seq<real>, scale: real): Table {
    (i: nat, j: nat) => (At(left, i) * At(right, j)) * scale
  }

  lemma UpdatedScatter(samples: seq<Sample>, s: Sample, dim: nat, m: seq<real>, before: seq<real>, after: seq<real>)
    requires |samples| > 0 && |s| == |before| == |after| == dim
    requires IsMatrix(m, dim, dim, Plus(ScatterTable(samples), Outer(before, after, 1.0)))
    requires forall i: nat :: i < dim ==>
      before[i] == s[i] - Mean(samples, i) && after[i] == s[i] - NextMean(samples, s, i)
    ensures IsMatrix(m, dim, dim, ScatterTable(samples + [s]))
  {
    forall i: nat, j: nat | i < dim && j < dim
      ensures Plus(ScatterTable(samples), Outer(before, after, 1.0))(i, j) == ScatterTable(samples + [s])(i, j)
    {
      UpdateIsExact(samples, s, i, j);
      assert before[i] == At(s, i) - Mean(samples, i) && after[j] == At(s, j) - NextMean(samples, s, j);
    }
    TableIs(m, dim, dim, Plus(ScatterTable(samples), Outer(before, after, 1.0)), ScatterTable(samples + [s]));
  }

  lemma UpdatedMean(samples: seq<Sample>, s: Sample, dim: nat, mean: seq<real>, moved: seq<real>, nextCount: real)
    requires |samples| > 0 && DescribesMean(mean, samples, dim) && |s| == |moved| == dim
    requires nextCount == Count(samples) + 1.0
    requires forall i :: 0 <= i < dim ==> moved[i] == mean[i] + (s[i] - mean[i]) / nextCount
    ensures DescribesMean(moved, samples + [s], dim)
    ensures forall i: nat :: i < dim ==> mean[i] == Mean(samples, i) && moved[i] == NextMean(samples, s, i)
  {
    forall i: nat | i < dim
      ensures mean[i] == Mean(samples, i) && moved[i] == NextMean(samples, s, i)
      ensures moved[i] == MeanEntry(samples + [s], i)
    {
      assert mean[i] == MeanEntry(samples, i);
      UpdateIsExact(samples, s, i, i);
    }
  }

  lemma FirstSample(s: Sample, dim: nat, m: seq<real>, none: seq<Sample>)
    requires |s| == dim && |none| == 0 && IsMatrix(m, dim, dim, ScatterTable(none))
    ensures DescribesMean(s, [s], dim) && IsMatrix(m, dim, dim, ScatterTable([s]))
  {
    forall i: nat, j: nat | i < dim && j < dim
      ensures MeanEntry([s], i) == s[i] && ScatterTable(none)(i, j) == ScatterTable([s])(i, j)
    {
      OneSample(s, i, j);
    }
    forall i: nat | i < dim
      ensures s[i] == MeanEntry([s], i)
    {
      OneSample(s, i, i);
    }
    TableIs(m, dim, dim, ScatterTable(none), ScatterTable([s]));
  }

  /** Moves the mean towards another mean by its share; `delta` is the distance between the two. */
  method BlendMeans(mean: seq<real>, other: seq<real>, share: real) returns (moved: seq<real>, delta: seq<real>)
    requires |mean| == |other|
    ensures |moved| == |delta| == |mean|
    ensures forall i :: 0 <= i < |mean| ==>
      delta[i] == other[i] - mean[i] && moved[i] == mean[i] + (other[i] - mean[i]) * share
  {
    moved, delta := [], [];
    for i := 0 to |mean|
      invariant |moved| == |delta| == i
      invariant forall k :: 0 <= k < i ==>
        delta[k] == other[k] - mean[k] && moved[k] == mean[k] + (other[k] - mean[k]) * share
    {
      delta := delta + [other[i] - mean[i]];
      moved := moved + [mean[i] + (other[i] - mean[i]) * share];
    }
  }

  lemma MergedMean(a: seq<Sample>, b: seq<Sample>, dim: nat, mean: seq<real>, other: seq<real>, moved: seq<real>)
    requires |a| > 0 && |b| > 0 && DescribesMean(mean, a, dim) && DescribesMean(other, b, dim) && |moved| == dim
    requires forall i :: 0 <= i < dim ==> moved[i] == mean[i] + (other[i] - mean[i]) * (Count(b) / Count(a + b))
    ensures DescribesMean(moved, a + b, dim)
  {
    forall i: nat | i < dim
      ensures moved[i] == MeanEntry(a + b, i)
    {
      assert mean[i] == MeanEntry(a, i) && other[i] == MeanEntry(b, i);
      MeanOfConcat(a, b, i);
    }
  }

  lemma MergedScatter(a: seq<Sample>, b: seq<Sample>, dim: nat, m: seq<real>, delta: seq<real>, scale: real)
    requires |a| > 0 && |b| > 0 && |delta| == dim && scale == (Count(a) * Count(b)) / Count(a + b)
    requires IsMatrix(m, dim, dim, Plus(Plus(ScatterTable(a), ScatterTable(b)), Outer(delta, delta, scale)))
    requires forall i: nat :: i < dim ==> delta[i] == Mean(b, i) - Mean(a, i)
    ensures IsMatrix(m, dim, dim, ScatterTable(a + b))
  {
    var t := Plus(Plus(ScatterTable(a), ScatterTable(b)), Outer(delta, delta, scale));
    forall i: nat, j: nat | i < dim && j < dim
      ensures t(i, j) == ScatterTable(a + b)(i, j)
    {
      ScatterOfConcat(a, b, i, j);
      assert delta[i] == Mean(b, i) - Mean(a, i) && delta[j] == Mean(b, j) - Mean(a, j);
    }
    TableIs(m, dim, dim, t, ScatterTable(a + b));
  }

  class Accumulator {
    const inputDim: nat
    var sampleCount: nat
    var mean: seq<real>
    var scatter: seq<real>
    /** Everything seen so far. */
    ghost var samples: seq<Sample>

    ghost predicate Valid()
      reads this
    {
      && sampleCount == |samples| <= U64_MAX
      && OfDim(samples, inputDim)
      && DescribesMean(mean, samples, inputDim)
      && IsMatrix(scatter, inputDim, inputDim, ScatterTable(samples))
    }

    constructor (dim: nat)
      ensures Valid() && inputDim == dim && samples == []
    {
      inputDim, sampleCount := dim, 0;
      mean := seq(dim, _ => 0.0);
      scatter := seq(dim * dim, _ => 0.0);
      samples := [];
      new;
      forall i: nat, j: nat | i < dim && j < dim
        ensures Entry(scatter, dim, i, j) == 0.0
      {
        IndexInBounds(dim, dim, i, j);
      }
    }

    /** Takes one more sample. */
    method Update(sample: Sample) returns (r: Result<(), PcaError>)
      requires Valid()
      modifies this
      ensures Valid()
      ensures r.Err? <==> |sample| != inputDim || old(sampleCount) == U64_MAX
      ensures r.Err? ==> samples == old(samples)
      ensures r.Ok? ==> samples == old(samples) + [sample]
    {
      if |sample| != inputDim {
        return Err(DimensionMismatch(inputDim, |sample|));
      }
      if sampleCount == 0 {
        FirstSample(sample, inputDim, scatter, samples);
        mean, sampleCount := sample, 1;
        samples := [sample];
        return Ok(());
      }
      if sampleCount == U64_MAX {
        return Err(InvalidNumericState);
      }
      var nextCount := (sampleCount + 1) as real;
      var moved, before, after := MoveMean(mean, sample, nextCount);
      var grown := AddTerms(scatter, inputDim, Outer(before, after, 1.0), ScatterTable(samples));
      UpdatedMean(samples, sample, inputDim, mean, moved, nextCount);
      UpdatedScatter(samples, sample, inputDim, grown, before, after);
      mean, scatter, sampleCount := moved, grown, sampleCount + 1;
      samples := samples + [sample];
      return Ok(());
    }

    /** Takes over everything another accumulator has seen. */
    method Merge(other: Accumulator) returns (r: Result<(), PcaError>)
      requires Valid() && other.Valid() && other != this
      modifies this
      ensures Valid() && other.Valid()
      ensures r.Err? <==> other.inputDim != inputDim || old(sampleCount) + other.sampleCount > U64_MAX
      ensures r.Err? ==> samples == old(samples)
      ensures r.Ok? ==> samples == old(samples) + other.samples
    {
      if inputDim != other.inputDim {
        return Err(DimensionMismatch(inputDim, other.inputDim));
      }
      if other.sampleCount == 0 {
        assert samples == samples + other.samples;
        return Ok(());
      }
      if sampleCount == 0 {
        assert other.samples == samples + other.samples;
        sampleCount, mean, scatter := other.sampleCount, other.mean, other.scatter;
        samples := other.samples;
        return Ok(());
      }
      if sampleCount + other.sampleCount > U64_MAX {
        return Err(InvalidNumericState);
      }
      MergeSamples(other);
      return Ok(());
    }

    method MergeSamples(other: Accumulator)
      requires Valid() && other.Valid() && other != this && other.inputDim == inputDim
      requires sampleCount > 0 && other.sampleCount > 0 && sampleCount + other.sampleCount <= U64_MAX
      modifies this
      ensures Valid() && samples == old(samples) + other.samples
    {
      var total := (sampleCount + other.sampleCount) as real;
      var scale := (sampleCount as real * other.sampleCount as real) / total;
      var moved, delta := BlendMeans(mean, other.mean, other.sampleCount as real / total);
      var both := AddMatrix(scatter, other.scatter, inputDim, ScatterTable(samples), ScatterTable(other.samples));
      var grown := AddTerms(both, inputDim, Outer(delta, delta, scale),
                            Plus(ScatterTable(samples), ScatterTable(other.samples)));
      MergedMean(samples, other.samples, inputDim, mean, other.mean, moved);
      MergedDelta(samples, other.samples, inputDim, mean, other.mean, delta);
      MergedScatter(samples, other.samples, inputDim, grown, delta, scale);
      sampleCount, mean, scatter := sampleCount + other.sampleCount, moved, grown;
      samples := samples + other.samples;
    }

    /** However the samples came in, one at a time or by merging, the result is the same. */
    lemma SplitDoesNotMatter(other: Accumulator)
      requires Valid() && other.Valid() && inputDim == other.inputDim
      requires multiset(samples) == multiset(other.samples)
      ensures sampleCount == other.sampleCount && mean == other.mean
      ensures forall i: nat, j: nat :: i < inputDim && j < inputDim ==>
        Entry(scatter, inputDim, i, j) == Entry(other.scatter, inputDim, i, j)
    {
      assert |multiset(samples)| == |samples| && |multiset(other.samples)| == |other.samples|;
      forall i: nat | i < inputDim
        ensures mean[i] == other.mean[i]
      {
        SameEntries(samples, other.samples, i, i);
      }
      forall i: nat, j: nat | i < inputDim && j < inputDim
        ensures Entry(scatter, inputDim, i, j) == Entry(other.scatter, inputDim, i, j)
      {
        SameEntries(samples, other.samples, i, j);
        assert Entry(scatter, inputDim, i, j) == ScatterTable(samples)(i, j);
        assert Entry(other.scatter, inputDim, i, j) == ScatterTable(other.samples)(i, j);
      }
    }
  }

  lemma SameEntries(a: seq<Sample>, b: seq<Sample>, i: nat, j: nat)
    requires multiset(a) == multiset(b) && |a| == |b|
    ensures MeanEntry(a, i) == MeanEntry(b, i) && ScatterEntry(a, i, j) == ScatterEntry(b, i, j)
  {
    if |a| > 0 {
      OrderDoesNotMatter(a, b, i, j);
    }
  }

  lemma MergedDelta(a: seq<Sample>, b: seq<Sample>, dim: nat, mean: seq<real>, other: seq<real>, delta: seq<real>)
    requires |a| > 0 && |b| > 0 && DescribesMean(mean, a, dim) && DescribesMean(other, b, dim) && |delta| == dim
    requires forall i :: 0 <= i < dim ==> delta[i] == other[i] - mean[i]
    ensures forall i: nat :: i < dim ==> delta[i] == Mean(b, i) - Mean(a, i)
  {
    forall i: nat | i < dim
      ensures delta[i] == Mean(b, i) - Mean(a, i)
    {
      assert mean[i] == MeanEntry(a, i) && other[i] == MeanEntry(b, i);
    }
  }
}
