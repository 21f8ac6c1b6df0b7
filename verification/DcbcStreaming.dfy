/** One pass of the balanced streaming trainer: occupancy bounds, distances, assignment and memberships. */
module DcbcStreaming {
  import opened Wrappers
  import opened Machine
  import opened AssignmentSpec
  import opened NatSums
  import opened AssignmentSolver

  datatype Constraints = Constraints(min: Option<nat>, max: Option<nat>)

  datatype OccupancyBounds = OccupancyBounds(min: nat, max: nat)

  datatype BoundsError = TooFewPoints | MultiplicationOverflow | CountUnderflow | Infeasible

  /** What the configuration validation lets through. */
  predicate ValidConstraints(c: Constraints) {
    && (c.min.Some? ==> c.min.value > 0)
    && (c.max.Some? ==> c.max.value > 0)
    && (c.min.Some? && c.max.Some? ==> c.min.value <= c.max.value)
  }

  /** The assignment meets the configured limits; an absent minimum means one, an absent maximum means none. */
  ghost predicate Meets(x: seq<nat>, k: nat, c: Constraints) {
    && (forall p :: 0 <= p < |x| ==> x[p] < k)
    && forall e: nat :: e < k ==>
         && Count(x, e) >= (if c.min.Some? then c.min.value else 1)
         && (c.max.Some? ==> Count(x, e) <= c.max.value)
  }

  function DeriveOccupancyBounds(k: nat, c: Constraints, observed: nat): Result<OccupancyBounds, BoundsError> {
    if observed < k then Err(TooFewPoints)
    else
      var min := if c.min.Some? then c.min.value else 1;
      if c.max.None? && (k == 0 || CheckedMul(k - 1, min).None?) then Err(MultiplicationOverflow)
      else if c.max.None? && observed < CheckedMul(k - 1, min).value then Err(CountUnderflow)
      else
        var max := if c.max.Some? then c.max.value else observed - CheckedMul(k - 1, min).value;
        var required, supported := CheckedMul(k, min), CheckedMul(k, max);
        if required.None? || supported.None? then Err(MultiplicationOverflow)
        else if required.value > observed || observed > supported.value then Err(Infeasible)
        else Ok(OccupancyBounds(min, max))
  }

  // ----- Which bounds can be met -----

  lemma {:induction false} CountConcat(x: seq<nat>, y: seq<nat>, c: nat)
    ensures Count(x + y, c) == Count(x, c) + Count(y, c)
  {
    if y == [] {
      assert x + y == x;
    } else {
      CountConcat(x, y[..|y| - 1], c);
      assert (x + y)[..|x + y| - 1] == x + y[..|y| - 1];
    }
  }

  lemma {:induction false} CountRepeat(t: nat, d: nat, c: nat)
    ensures Count(seq(t, _ => d), c) == if c == d then t else 0
  {
    if t > 0 {
      CountRepeat(t - 1, d, c);
      assert seq(t, _ => d)[..t - 1] == seq(t - 1, _ => d);
    }
  }

  lemma {:induction false} CountAbsent(x: seq<nat>, c: nat)
    requires forall p :: 0 <= p < |x| ==> x[p] != c
    ensures Count(x, c) == 0
  {
    if x != [] {
      CountAbsent(x[..|x| - 1], c);
    }
  }

  /** `k` times `m` as a repeated sum. */
  function Repeated(k: nat, m: nat): (r: nat)
    ensures r == k * m
  {
    if k == 0 then 0 else Repeated(k - 1, m) + m
  }

  lemma RepeatedMonotone(k: nat, a: nat, b: nat)
    requires a <= b
    ensures Repeated(k, a) <= Repeated(k, b)
  {
  }

  /** Bounds whose totals enclose the number of points can be met. */
  lemma {:induction false} BoundsCanBeMet(n: nat, k: nat, min: nat, max: nat) returns (x: seq<nat>)
    requires Repeated(k, min) <= n <= Repeated(k, max) && (k > 0 ==> min <= max)
    ensures |x| == n && InBounds(x, k, min, max)
  {
    if k == 0 {
      x := [];
    } else {
      var rest := Repeated(k - 1, max);
      var t := if n <= min + rest then min else n - rest;
      RepeatedMonotone(k - 1, min, max);
      var y := BoundsCanBeMet(n - t, k - 1, min, max);
      x := AddCluster(y, k - 1, min, max, t);
    }
  }

  lemma {:induction false} AddCluster(y: seq<nat>, k: nat, min: nat, max: nat, t: nat) returns (x: seq<nat>)
    requires InBounds(y, k, min, max) && min <= t <= max
    ensures |x| == |y| + t && InBounds(x, k + 1, min, max)
  {
    var last := seq(t, _ => k);
    x := y + last;
    forall c: nat | c < k + 1
      ensures min <= Count(x, c) <= max
    {
      CountConcat(y, last, c);
      CountRepeat(t, k, c);
      if c == k {
        CountAbsent(y, c);
      }
    }
  }

  lemma {:induction false} SumAtLeast(ns: seq<nat>, min: nat)
    requires forall c :: 0 <= c < |ns| ==> ns[c] >= min
    ensures Sum(ns) >= |ns| * min
  {
    if ns != [] {
      SumAtLeast(ns[..|ns| - 1], min);
      assert |ns| * min == (|ns| - 1) * min + min;
    }
  }

  lemma {:induction false} SumNoMore(ns: seq<nat>, max: nat)
    requires forall c :: 0 <= c < |ns| ==> ns[c] <= max
    ensures Sum(ns) <= |ns| * max
  {
    if ns != [] {
      SumNoMore(ns[..|ns| - 1], max);
      assert |ns| * max == (|ns| - 1) * max + max;
    }
  }

  /** Clusters of at least `min` points leave at most the rest for any one of them. */
  lemma {:induction false} OthersReserve(x: seq<nat>, k: nat, min: nat, c: nat)
    requires (forall p :: 0 <= p < |x| ==> x[p] < k) && (forall e: nat :: e < k ==> Count(x, e) >= min) && c < k
    ensures Count(x, c) + (k - 1) * min <= |x|
  {
    SizesSum(x, k);
    var sizes := Sizes(x, k);
    SumUpdate(sizes, c, min);
    SumAtLeast(sizes[c := min], min);
    assert k * min == (k - 1) * min + min;
  }

  /** Accepted bounds allow exactly the assignments the configuration allows. */
  lemma {:induction false} DerivedBoundsExact(k: nat, c: Constraints, n: nat, x: seq<nat>)
    requires k > 0 && DeriveOccupancyBounds(k, c, n).Ok? && |x| == n
    ensures
      var b := DeriveOccupancyBounds(k, c, n).value;
      InBounds(x, k, b.min, b.max) <==> Meets(x, k, c)
  {
    var b := DeriveOccupancyBounds(k, c, n).value;
    if Meets(x, k, c) && c.max.None? {
      forall e: nat | e < k
        ensures Count(x, e) <= b.max
      {
        OthersReserve(x, k, b.min, e);
      }
    }
  }

  /** What the configuration can be met by, given the number of points. */
  ghost predicate Satisfiable(k: nat, c: Constraints, n: nat) {
    exists x :: |x| == n && Meets(x, k, c)
  }

  lemma {:induction false} AcceptedIsSatisfiable(k: nat, c: Constraints, n: nat)
    requires k > 0 && ValidConstraints(c) && DeriveOccupancyBounds(k, c, n).Ok?
    ensures Satisfiable(k, c, n)
  {
    var b := DeriveOccupancyBounds(k, c, n).value;
    var x := BoundsCanBeMet(n, k, b.min, b.max);
    DerivedBoundsExact(k, c, n, x);
  }

  /** The largest size any cluster may have. */
  function EffectiveMax(k: nat, c: Constraints, n: nat): int {
    if c.max.Some? then c.max.value else n - (k - 1) * (if c.min.Some? then c.min.value else 1)
  }

  lemma ReservedArithmetic(k: nat, min: nat, n: nat)
    requires k > 0 && min > 0 && Repeated(k, min) <= n
    ensures k <= n && (k - 1) * min == Repeated(k - 1, min)
    ensures var max: int := n - Repeated(k - 1, min); min <= max && n <= k * max
  {
    RepeatedMonotone(k, 1, min);
    var max: nat := n - Repeated(k - 1, min);
    RepeatedMonotone(k - 1, min, max);
    assert k * max == Repeated(k, max);
  }

  lemma {:induction false} SatisfiableTotals(k: nat, c: Constraints, n: nat)
    requires k > 0 && ValidConstraints(c) && Satisfiable(k, c, n)
    ensures k * (if c.min.Some? then c.min.value else 1) <= n
    ensures c.max.Some? ==> n <= k * c.max.value
  {
    var x :| |x| == n && Meets(x, k, c);
    SizesSum(x, k);
    SumAtLeast(Sizes(x, k), if c.min.Some? then c.min.value else 1);
    if c.max.Some? {
      SumNoMore(Sizes(x, k), c.max.value);
    }
  }

  /**
   The derivation accepts exactly the satisfiable configurations whose cluster count times
   upper bound is representable.
   */
  lemma {:induction false} DerivationDecidesSatisfiability(k: nat, c: Constraints, n: nat)
    requires k > 0 && ValidConstraints(c) && n <= USIZE_MAX
    ensures DeriveOccupancyBounds(k, c, n).Ok? <==> Satisfiable(k, c, n) && k * EffectiveMax(k, c, n) <= USIZE_MAX
  {
    if DeriveOccupancyBounds(k, c, n).Ok? {
      AcceptedIsSatisfiable(k, c, n);
    }
    if Satisfiable(k, c, n) {
      SatisfiableTotals(k, c, n);
      ReservedArithmetic(k, if c.min.Some? then c.min.value else 1, n);
    }
  }

  // ----- Cosine distances -----

  function Dot(a: seq<real>, b: seq<real>): real
    requires |a| == |b|
  {
    if a == [] then 0.0 else Dot(a[..|a| - 1], b[..|b| - 1]) + a[|a| - 1] * b[|b| - 1]
  }

  ghost predicate UnitVectors(vs: seq<seq<real>>, dim: nat) {
    forall i :: 0 <= i < |vs| ==> |vs[i]| == dim && Dot(vs[i], vs[i]) == 1.0
  }

  lemma SquareNonneg(z: real)
    ensures z * z >= 0.0
  {
    if z < 0.0 {
      assert z * z == (-z) * (-z);
    }
  }

  lemma SquaresNonneg(x: real, y: real)
    ensures x * x + y * y - 2.0 * (x * y) >= 0.0
    ensures x * x + y * y + 2.0 * (x * y) >= 0.0
  {
    SquareNonneg(x - y);
    SquareNonneg(x + y);
    assert (x - y) * (x - y) == x * x + y * y - 2.0 * (x * y);
    assert (x + y) * (x + y) == x * x + y * y + 2.0 * (x * y);
  }

  lemma {:induction false} DotBounds(a: seq<real>, b: seq<real>)
    requires |a| == |b|
    ensures Dot(a, a) + Dot(b, b) - 2.0 * Dot(a, b) >= 0.0
    ensures Dot(a, a) + Dot(b, b) + 2.0 * Dot(a, b) >= 0.0
  {
    if a != [] {
      DotBounds(a[..|a| - 1], b[..|b| - 1]);
      SquaresNonneg(a[|a| - 1], b[|b| - 1]);
    }
  }

  function CosineDistance(a: seq<real>, b: seq<real>): (r: real)
    requires |a| == |b|
    ensures Dot(a, a) == 1.0 && Dot(b, b) == 1.0 ==> 0.0 <= r <= 2.0
  {
    DotBounds(a, b);
    1.0 - Dot(a, b)
  }

  function Product(a: real, b: real): real {
    a * b
  }

  lemma ProductSign(a: real, b: real)
    ensures (a > 0.0 && b > 0.0) || (a < 0.0 && b < 0.0) ==> Product(a, b) > 0.0
    ensures a == 0.0 ==> Product(a, b) == 0.0
  {}

  lemma SquareVanishes(z: real)
    ensures Product(z, z) >= 0.0 && (Product(z, z) == 0.0 <==> z == 0.0)
  {
    ProductSign(z, z);
  }

  lemma SquareOfDifference(x: real, y: real)
    ensures Product(x - y, x - y) == x * x + y * y - 2.0 * (x * y)
  {}

  /** The squared Euclidean distance, coordinate by coordinate. */
  function SquaredDistance(a: seq<real>, b: seq<real>): (r: real)
    requires |a| == |b|
    ensures r >= 0.0
  {
    if a == [] then 0.0
    else
      var n := |a| - 1;
      SquareVanishes(a[n] - b[n]);
      SquaredDistance(a[..n], b[..n]) + Product(a[n] - b[n], a[n] - b[n])
  }

  lemma {:induction false} SquaredByDots(a: seq<real>, b: seq<real>)
    requires |a| == |b|
    ensures SquaredDistance(a, b) == Dot(a, a) + Dot(b, b) - 2.0 * Dot(a, b)
  {
    if a != [] {
      var n := |a| - 1;
      SquaredByDots(a[..n], b[..n]);
      SquareOfDifference(a[n], b[n]);
    }
  }

  lemma {:induction false} ZeroDistance(a: seq<real>, b: seq<real>)
    requires |a| == |b|
    ensures SquaredDistance(a, b) == 0.0 <==> a == b
  {
    if a != [] {
      var n := |a| - 1;
      ZeroDistance(a[..n], b[..n]);
      SquareVanishes(a[n] - b[n]);
      assert a == a[..n] + [a[n]] && b == b[..n] + [b[n]];
    }
  }

  /** An entry is half the squared Euclidean distance, and nothing exactly between equal vectors. */
  ghost predicate HalvesSquares(distances: seq<real>, points: seq<seq<real>>, centroids: seq<seq<real>>, dim: nat) {
    && |distances| == |points| * |centroids|
    && forall p: nat, c: nat :: p < |points| && c < |centroids| ==>
         |points[p]| == |centroids[c]| == dim
         && 2.0 * Entry(distances, |centroids|, p, c) == SquaredDistance(points[p], centroids[c])
         && (Entry(distances, |centroids|, p, c) == 0.0 <==> points[p] == centroids[c])
  }

  lemma CosinesHalveSquares(distances: seq<real>, points: seq<seq<real>>, centroids: seq<seq<real>>, dim: nat)
    requires UnitVectors(points, dim) && UnitVectors(centroids, dim)
    requires IsDistanceMatrix(distances, points, centroids, dim)
    ensures HalvesSquares(distances, points, centroids, dim)
  {
    forall p: nat, c: nat | p < |points| && c < |centroids|
      ensures |points[p]| == |centroids[c]| == dim
      ensures 2.0 * Entry(distances, |centroids|, p, c) == SquaredDistance(points[p], centroids[c])
      ensures Entry(distances, |centroids|, p, c) == 0.0 <==> points[p] == centroids[c]
    {
      SquaredByDots(points[p], centroids[c]);
      ZeroDistance(points[p], centroids[c]);
    }
  }

  ghost predicate IsDistanceMatrix(distances: seq<real>, points: seq<seq<real>>, centroids: seq<seq<real>>, dim: nat)
    requires UnitVectors(points, dim) && UnitVectors(centroids, dim)
  {
    && |distances| == |points| * |centroids|
    && forall p: nat, c: nat :: p < |points| && c < |centroids| ==>
         Entry(distances, |centroids|, p, c) == CosineDistance(points[p], centroids[c])
  }

  /** All distances, row by row. */
  method DistanceMatrix(points: seq<seq<real>>, centroids: seq<seq<real>>, dim: nat) returns (distances: seq<real>)
    requires UnitVectors(points, dim) && UnitVectors(centroids, dim)
    ensures IsDistanceMatrix(distances, points, centroids, dim) && InRange(distances)
    ensures HalvesSquares(distances, points, centroids, dim)
  {
    var k := |centroids|;
    distances := [];
    for p := 0 to |points|
      invariant |distances| == p * k && InRange(distances)
      invariant forall q: nat, c: nat ::
        q < p && c < k ==> Entry(distances, k, q, c) == CosineDistance(points[q], centroids[c])
    {
      ghost var before := distances;
      for c := 0 to k
        invariant |distances| == p * k + c && InRange(distances) && before == distances[..p * k]
        invariant forall d: nat :: d < c ==> Entry(distances, k, p, d) == CosineDistance(points[p], centroids[d])
      {
        ghost var row := distances;
        distances := distances + [CosineDistance(points[p], centroids[c])];
        forall d: nat | d < c
          ensures Entry(distances, k, p, d) == Entry(row, k, p, d)
        {
        }
      }
      forall q: nat, c: nat | q < p && c < k
        ensures Entry(distances, k, q, c) == Entry(before, k, q, c)
      {
        IndexBound(q, c, p, k);
      }
      assert (p + 1) * k == p * k + k;
    }
    CosinesHalveSquares(distances, points, centroids, dim);
  }

  // ----- Memberships -----

  /** The points of one cluster, in order. */
  function Members(x: seq<nat>, c: nat): (r: seq<nat>)
    ensures |r| == Count(x, c)
  {
    if x == [] then [] else Members(x[..|x| - 1], c) + if x[|x| - 1] == c then [|x| - 1] else []
  }

  /** The list holds exactly the points of the cluster, in ascending order. */
  ghost predicate ListsCluster(points: seq<nat>, x: seq<nat>, c: nat) {
    && (forall p: nat :: p in points <==> p < |x| && x[p] == c)
    && forall a, b :: 0 <= a < b < |points| ==> points[a] < points[b]
  }

  lemma {:induction false} MembersAre(x: seq<nat>, c: nat)
    ensures ListsCluster(Members(x, c), x, c)
  {
    if x != [] {
      var y := x[..|x| - 1];
      MembersAre(y, c);
      forall a | 0 <= a < |Members(y, c)|
        ensures Members(y, c)[a] < |y|
      {
        assert Members(y, c)[a] in Members(y, c);
      }
    }
  }

  datatype MembershipError = UnknownCluster | OutsideBounds

  /** Splits an assignment into membership lists and checks the occupancy bounds. */
  method MaterializeMemberships(assignment: seq<nat>, k: nat, bounds: OccupancyBounds)
    returns (r: Result<seq<seq<nat>>, MembershipError>)
    ensures r.Ok? <==> InBounds(assignment, k, bounds.min, bounds.max)
    ensures r.Ok? ==> |r.value| == k && forall c: nat :: c < k ==> ListsCluster(r.value[c], assignment, c)
  {
    var memberships: seq<seq<nat>> := seq(k, _ => []);
    for p := 0 to |assignment|
      invariant |memberships| == k
      invariant forall q :: 0 <= q < p ==> assignment[q] < k
      invariant forall c: nat :: c < k ==> memberships[c] == Members(assignment[..p], c)
    {
      assert assignment[..p + 1][..p] == assignment[..p];
      var c := assignment[p];
      if c >= k {
        return Err(UnknownCluster);
      }
      memberships := memberships[c := memberships[c] + [p]];
    }
    assert assignment[..|assignment|] == assignment;
    for c := 0 to k
      invariant forall d: nat :: d < c ==> bounds.min <= Count(assignment, d) <= bounds.max
    {
      if |memberships[c]| < bounds.min || |memberships[c]| > bounds.max {
        return Err(OutsideBounds);
      }
    }
    forall c: nat | c < k
      ensures ListsCluster(memberships[c], assignment, c)
    {
      MembersAre(assignment, c);
    }
    return Ok(memberships);
  }

  /**
   The assignment part of an iteration: with bounds accepted for this many points no error is possible,
   and the membership lists are those of the lexicographically first cheapest assignment.
   */
  method AssignPoints(points: seq<seq<real>>, centroids: seq<seq<real>>, dim: nat, constraints: Constraints)
    returns (distances: seq<real>, assignment: seq<nat>, memberships: seq<seq<nat>>)
    requires UnitVectors(points, dim) && UnitVectors(centroids, dim) && |centroids| > 0
    requires ValidConstraints(constraints) && |points| <= USIZE_MAX
    requires DeriveOccupancyBounds(|centroids|, constraints, |points|).Ok?
    ensures HalvesSquares(distances, points, centroids, dim)
    ensures |assignment| == |points| && Meets(assignment, |centroids|, constraints)
    ensures forall y :: |y| == |points| && Meets(y, |centroids|, constraints) ==>
              Cost(distances, |centroids|, assignment) <= Cost(distances, |centroids|, y)
    ensures forall y :: |y| == |points| && Meets(y, |centroids|, constraints) ==>
              Cost(distances, |centroids|, y) > Cost(distances, |centroids|, assignment) || y == assignment
                || LexBefore(assignment, y)
    ensures |memberships| == |centroids|
      && forall c: nat :: c < |centroids| ==> ListsCluster(memberships[c], assignment, c)
  {
    var n, k := |points|, |centroids|;
    var bounds := DeriveOccupancyBounds(k, constraints, n).value;
    DerivationDecidesSatisfiability(k, constraints, n);
    distances := DistanceMatrix(points, centroids, dim);
    forall x: seq<nat> | |x| == n
      ensures InBounds(x, k, bounds.min, bounds.max) <==> Meets(x, k, constraints)
    {
      DerivedBoundsExact(k, constraints, n, x);
    }
    var solved := SolveLexicographicAssignment(distances, n, k, bounds.min, bounds.max);
    assignment := solved.value;
    var materialized := MaterializeMemberships(assignment, k, bounds);
    memberships := materialized.value;
  }
}
