/** The lexicographic assignment solver: a greedy loop over points, with one min-cost flow for every question. */
module AssignmentSolver {
  import opened Wrappers
  import opened AssignmentSpec
  import opened NatSums
  import opened AssignmentNetwork
  import opened Flow = MinCostFlow
  import opened Transport

  ghost predicate InRange(distances: seq<real>) {
    forall i :: 0 <= i < |distances| ==> 0.0 <= distances[i] <= DISTANCE_RANGE
  }

  function SatSub(a: nat, b: nat): nat {
    if a <= b then 0 else a - b
  }

  lemma IndexBound(p: nat, c: nat, n: nat, k: nat)
    requires p < n && c < k
    ensures p * k + c < n * k
  {
    assert (p + 1) * k <= n * k;
  }

  // ----- From whole assignments to open points and back -----

  /** The capacity each cluster has left, and still needs, once the fixed points are counted. */
  ghost predicate Remaining(fixed: seq<Option<nat>>, k: nat, min: nat, max: nat, lower: seq<nat>, upper: seq<nat>) {
    && |lower| == |upper| == k
    && (forall p :: 0 <= p < |fixed| && fixed[p].Some? ==> fixed[p].value < k)
    && forall c: nat :: c < k ==>
         && FixedCount(fixed, c) <= max
         && lower[c] == SatSub(min, FixedCount(fixed, c))
         && upper[c] == max - FixedCount(fixed, c)
  }

  lemma {:induction false} FixedCountPrefix(fixed: seq<Option<nat>>, n: nat, c: nat)
    requires n <= |fixed|
    ensures FixedCount(fixed[..n], c) <= FixedCount(fixed, c)
  {
    if n < |fixed| {
      FixedCountPrefix(fixed[..|fixed| - 1], n, c);
      assert fixed[..|fixed| - 1][..n] == fixed[..n];
    } else {
      assert fixed[..n] == fixed;
    }
  }

  lemma {:induction false} CompletionSizes(x: seq<nat>, fixed: seq<Option<nat>>, k: nat, min: nat, max: nat, c: nat)
    requires Completion(x, fixed, k, min, max) && c < k
    ensures min <= FixedCount(fixed, c) + Count(OpenPart(fixed, x), c) <= max
  {
    FillOpenPart(fixed, x);
    FillCount(fixed, OpenPart(fixed, x), c);
  }

  lemma {:induction false} CompletionIsFitting(x: seq<nat>, distances: seq<real>, fixed: seq<Option<nat>>, k: nat,
                                               min: nat, max: nat, lower: seq<nat>, upper: seq<nat>)
    requires Completion(x, fixed, k, min, max) && Remaining(fixed, k, min, max, lower, upper)
    ensures
      var z := OpenPart(fixed, x);
      var rows := CostRows(distances, k, Open(fixed));
      && Fitting(rows, k, upper, z) && MeetsLower(z, lower)
      && Cost(distances, k, x) == FixedCost(distances, k, fixed) + RowCost(rows, z)
  {
    forall c: nat | c < k
      ensures lower[c] <= Count(OpenPart(fixed, x), c) <= upper[c]
    {
      CompletionSizes(x, fixed, k, min, max, c);
    }
    FillOpenPart(fixed, x);
    FillCost(distances, k, fixed, OpenPart(fixed, x));
  }

  lemma {:induction false} FittingIsCompletion(z: seq<nat>, distances: seq<real>, fixed: seq<Option<nat>>, k: nat,
                                               min: nat, max: nat, lower: seq<nat>, upper: seq<nat>)
    requires Remaining(fixed, k, min, max, lower, upper)
    requires Fitting(CostRows(distances, k, Open(fixed)), k, upper, z) && MeetsLower(z, lower)
    ensures Completion(Fill(fixed, z), fixed, k, min, max)
    ensures Cost(distances, k, Fill(fixed, z))
      == FixedCost(distances, k, fixed) + RowCost(CostRows(distances, k, Open(fixed)), z)
  {
    FillAt(fixed, z);
    forall c: nat | c < k
      ensures min <= Count(Fill(fixed, z), c) <= max
    {
      FillCount(fixed, z, c);
    }
    forall p | 0 <= p < |fixed|
      ensures Fill(fixed, z)[p] < k
    {
      if fixed[p].None? {
        var o := OpenContains(fixed, p);
      }
    }
    FillCost(distances, k, fixed, z);
  }

  lemma {:induction false} OpenContains(fixed: seq<Option<nat>>, p: nat) returns (o: nat)
    requires p < |fixed| && fixed[p].None?
    ensures o < |Open(fixed)| && Open(fixed)[o] == p
  {
    if p == |fixed| - 1 {
      o := |Open(fixed)| - 1;
    } else {
      o := OpenContains(fixed[..|fixed| - 1], p);
    }
  }

  lemma {:induction false} OpenIncreasing(fixed: seq<Option<nat>>)
    ensures forall a, b :: 0 <= a < b < |Open(fixed)| ==> Open(fixed)[a] < Open(fixed)[b]
  {
    if fixed != [] {
      OpenIncreasing(fixed[..|fixed| - 1]);
    }
  }

  /** Totals that do not fit rule out every completion. */
  lemma {:induction false} CompletionTotals(x: seq<nat>, fixed: seq<Option<nat>>, k: nat, min: nat, max: nat,
                                            lower: seq<nat>, upper: seq<nat>)
    requires Completion(x, fixed, k, min, max) && Remaining(fixed, k, min, max, lower, upper)
    ensures Sum(lower) <= |Open(fixed)| <= Sum(upper)
  {
    CompletionIsFitting(x, [], fixed, k, min, max, lower, upper);
    var z := OpenPart(fixed, x);
    SizesSum(z, k);
    SumAtMost(lower, Sizes(z, k));
    SumAtMost(Sizes(z, k), upper);
  }

  /** The cheapest fitting choice for the open points is the cheapest completion. */
  lemma {:induction false} CheapestCompletion(z: seq<nat>, distances: seq<real>, fixed: seq<Option<nat>>, k: nat,
                                              min: nat, max: nat, lower: seq<nat>, upper: seq<nat>)
    requires Remaining(fixed, k, min, max, lower, upper) && Bounds(k, lower, upper) && Sum(lower) <= |Open(fixed)|
    requires var rows := CostRows(distances, k, Open(fixed));
      && RowsInRange(rows, k) && Fitting(rows, k, upper, z)
      && forall y :: Fitting(rows, k, upper, y) ==> PenalizedCost(rows, lower, z) <= PenalizedCost(rows, lower, y)
    ensures IsCheapest(Cost(distances, k, Fill(fixed, z)), distances, fixed, k, min, max)
  {
    var rows := CostRows(distances, k, Open(fixed));
    CheapestMeetsLower(rows, k, lower, upper, z);
    FittingIsCompletion(z, distances, fixed, k, min, max, lower, upper);
    forall y | Completion(y, fixed, k, min, max)
      ensures Cost(distances, k, Fill(fixed, z)) <= Cost(distances, k, y)
    {
      CompletionIsFitting(y, distances, fixed, k, min, max, lower, upper);
      PenaltyExact(rows, k, lower, upper, z, OpenPart(fixed, y));
    }
  }

  lemma CostIndices(distances: seq<real>, x: seq<nat>, n: nat, k: nat)
    requires |distances| == n * k && |x| == n && forall p :: 0 <= p < n ==> x[p] < k
    ensures forall p: nat :: p < n ==> HasEntry(distances, k, p, x[p])
  {
    forall p: nat | p < n
      ensures HasEntry(distances, k, p, x[p])
    {
      IndexBound(p, x[p], n, k);
    }
  }

  lemma RowsStayInRange(distances: seq<real>, n: nat, k: nat, points: seq<nat>)
    requires InRange(distances) && |distances| == n * k && forall o :: 0 <= o < |points| ==> points[o] < n
    ensures RowsInRange(CostRows(distances, k, points), k)
    ensures forall o, c: nat :: 0 <= o < |points| && c < k ==> HasEntry(distances, k, points[o], c)
  {
    forall o, c: nat | 0 <= o < |points| && c < k
      ensures HasEntry(distances, k, points[o], c)
      ensures 0.0 <= Entry(distances, k, points[o], c) <= DISTANCE_RANGE
    {
      IndexBound(points[o], c, n, k);
    }
  }

  // ----- One subproblem -----

  /** Counts the fixed points per cluster and collects the open ones; fails when the fixed points alone do not fit. */
  method Commit(fixed: seq<Option<nat>>, k: nat, max: nat) returns (r: Option<(seq<nat>, seq<nat>)>)
    ensures r.None? ==> forall x, min: nat :: !Completion(x, fixed, k, min, max)
    ensures r.Some? ==>
      && |r.value.0| == k && r.value.1 == Open(fixed)
      && (forall c: nat :: c < k ==> r.value.0[c] == FixedCount(fixed, c) <= max)
      && forall p :: 0 <= p < |fixed| && fixed[p].Some? ==> fixed[p].value < k
  {
    var committed: seq<nat> := seq(k, _ => 0);
    var remaining := [];
    for i := 0 to |fixed|
      invariant |committed| == k && remaining == Open(fixed[..i])
      invariant forall c: nat :: c < k ==> committed[c] == FixedCount(fixed[..i], c) <= max
      invariant forall p :: 0 <= p < i && fixed[p].Some? ==> fixed[p].value < k
    {
      assert fixed[..i + 1][..i] == fixed[..i];
      match fixed[i]
      case None => remaining := remaining + [i];
      case Some(c) =>
        if c >= k {
          return None;
        }
        committed := committed[c := committed[c] + 1];
        if committed[c] > max {
          forall x, min: nat | Completion(x, fixed, k, min, max)
            ensures false
          {
            CompletionSizes(x, fixed, k, min, max, c);
            FixedCountPrefix(fixed, i + 1, c);
          }
          return None;
        }
    }
    assert fixed[..|fixed|] == fixed;
    return Some((committed, remaining));
  }

  /** Wires one open point to the source and to every cluster. */
  method WirePoint(flow: MinCostFlow, distances: seq<real>, k: nat, points: seq<nat>, o: nat, ghost rows: Rows)
    requires rows == CostRows(distances, k, points) && o < |points|
    requires forall c: nat :: c < k ==> HasEntry(distances, k, points[o], c)
    requires PointStage(flow.graph, rows, k, o, false, 0)
    modifies flow
    ensures PointStage(flow.graph, rows, k, o + 1, false, 0)
  {
    StartPoint(flow.graph, rows, k, o);
    flow.AddEdge(0, PointNode(o), 1, 0.0);
    for c := 0 to k
      invariant PointStage(flow.graph, rows, k, o, true, c)
    {
      LinkCluster(flow.graph, rows, k, o, c);
      assert HasEntry(distances, k, points[o], c);
      flow.AddEdge(PointNode(o), ClusterNode(|points|, c), 1, distances[points[o] * k + c]);
    }
    FinishPoint(flow.graph, rows, k, o);
  }

  /** Wires every cluster to the sink, mandatory slots first. */
  method WireSink(flow: MinCostFlow, n: nat, k: nat, lower: seq<nat>, upper: seq<nat>, ghost rows: Rows)
    requires Rectangular(rows, k) && |rows| == n && Bounds(k, lower, upper)
      && PointStage(flow.graph, rows, k, n, false, 0)
    modifies flow
    ensures Network(flow.graph, rows, k, lower, upper)
  {
    PointsWired(flow.graph, rows, k, lower, upper);
    for c := 0 to k
      invariant SinkStage(flow.graph, rows, k, lower, upper, c)
    {
      LinkSink(flow.graph, rows, k, lower, upper, c);
      if lower[c] > 0 {
        flow.AddEdge(ClusterNode(n, c), SinkNode(n, k), lower[c], 0.0);
      }
      if upper[c] > lower[c] {
        flow.AddEdge(ClusterNode(n, c), SinkNode(n, k), upper[c] - lower[c], OPTIONAL_CAPACITY_PENALTY);
      }
    }
  }

  method BuildNetwork(distances: seq<real>, k: nat, points: seq<nat>, lower: seq<nat>, upper: seq<nat>,
                      ghost rows: Rows) returns (flow: MinCostFlow)
    requires rows == CostRows(distances, k, points) && Bounds(k, lower, upper)
    requires forall o, c: nat :: 0 <= o < |points| && c < k ==> HasEntry(distances, k, points[o], c)
    ensures fresh(flow) && Network(flow.graph, rows, k, lower, upper)
  {
    flow := new MinCostFlow(SinkNode(|points|, k) + 1);
    for o := 0 to |points|
      invariant fresh(flow) && PointStage(flow.graph, rows, k, o, false, 0)
    {
      WirePoint(flow, distances, k, points, o, rows);
    }
    WireSink(flow, |points|, k, lower, upper, rows);
  }

  /** The cluster whose edge from the given point carries its unit; there always is one. */
  method AssignedCluster(flow: MinCostFlow, n: nat, k: nat, q: nat, ghost g: Graph, ghost rows: Rows,
                         ghost lower: seq<nat>, ghost upper: seq<nat>)
    returns (c: nat)
    requires n == |rows| && Flowed(g, flow.graph, rows, k, lower, upper, n) && q < n
    ensures c < k && Assigned(flow.graph, n, q, c)
  {
    PointCapacities(g, flow.graph, rows, k, lower, upper, n, q);
    var edges := flow.graph[PointNode(q)];
    var found: Option<nat> := None;
    var i := 0;
    while i < |edges| && found.None?
      invariant i <= |edges|
      invariant found.None? ==> forall d: nat :: d < k && 1 + d < i ==> !Assigned(flow.graph, n, q, d)
      invariant found.Some? ==> found.value < k && Assigned(flow.graph, n, q, found.value)
    {
      var edge := edges[i];
      if i > 0 {
        ArcCapacities(g, flow.graph, rows, k, lower, upper, n, q, i - 1);
      }
      if ClusterNode(n, 0) <= edge.to < SinkNode(n, k) && flow.graph[edge.to][edge.rev].capacity == 1 {
        found := Some(edge.to - ClusterNode(n, 0));
      }
      i := i + 1;
    }
    FullFlowAssigns(g, flow.graph, rows, k, lower, upper, q);
    return found.value;
  }

  /** The whole assignment: fixed points keep their cluster, open points take the one their unit runs to. */
  method ReadAssignment(flow: MinCostFlow, fixed: seq<Option<nat>>, points: seq<nat>, k: nat,
                        ghost g: Graph, ghost rows: Rows, ghost lower: seq<nat>, ghost upper: seq<nat>)
    returns (assignment: seq<nat>)
    requires points == Open(fixed) && |rows| == |points| && Flowed(g, flow.graph, rows, k, lower, upper, |points|)
    ensures Agrees(assignment, fixed) && ReadsOff(flow.graph, rows, k, OpenPart(fixed, assignment))
  {
    var slots := fixed;
    ghost var z: seq<nat> := [];
    OpenIncreasing(fixed);
    for o := 0 to |points|
      invariant |slots| == |fixed| && |z| == o
      invariant forall p :: 0 <= p < |fixed| && fixed[p].Some? ==> slots[p] == fixed[p]
      invariant forall q: nat ::
        q < o ==> slots[points[q]] == Some(z[q]) && z[q] < k && Assigned(flow.graph, |rows|, q, z[q])
    {
      var c := AssignedCluster(flow, |points|, k, o, g, rows, lower, upper);
      slots := slots[points[o] := Some(c)];
      z := z + [c];
    }
    forall p: nat | p < |slots|
      ensures slots[p].Some?
    {
      if fixed[p].None? {
        var o := OpenContains(fixed, p);
      }
    }
    assignment := seq(|slots|, p requires 0 <= p < |slots| => slots[p].value);
    assert OpenPart(fixed, assignment) == z;
  }

  /** The true cost of an assignment; fails when a distance is missing from the matrix. */
  method AssignmentCost(distances: seq<real>, k: nat, assignment: seq<nat>) returns (r: Option<real>)
    ensures r.Some? <==> forall p: nat :: p < |assignment| ==> HasEntry(distances, k, p, assignment[p])
    ensures r.Some? ==> r.value == Cost(distances, k, assignment)
  {
    var total := 0.0;
    for p := 0 to |assignment|
      invariant forall q: nat :: q < p ==> HasEntry(distances, k, q, assignment[q])
      invariant total == Cost(distances, k, assignment[..p])
    {
      var offset := p * k + assignment[p];
      if offset >= |distances| {
        assert !HasEntry(distances, k, p, assignment[p]);
        return None;
      }
      assert assignment[..p + 1][..p] == assignment[..p];
      total := total + distances[offset];
    }
    assert assignment[..|assignment|] == assignment;
    return Some(total);
  }

  /** What every cluster still needs and still takes; fails when the bounds contradict each other. */
  method Capacities(committed: seq<nat>, k: nat, min: nat, max: nat) returns (r: Option<(seq<nat>, seq<nat>)>)
    requires |committed| == k && forall c: nat :: c < k ==> committed[c] <= max
    ensures r.None? <==> k > 0 && min > max
    ensures r.Some? ==>
      && |r.value.0| == |r.value.1| == k
      && forall c: nat :: c < k ==> r.value.0[c] == SatSub(min, committed[c]) <= r.value.1[c] == max - committed[c]
  {
    var lower: seq<nat>, upper: seq<nat> := [], [];
    for c := 0 to k
      invariant |lower| == |upper| == c
      invariant forall d: nat :: d < c ==> lower[d] == SatSub(min, committed[d]) <= upper[d] == max - committed[d]
    {
      var lo, up := SatSub(min, committed[c]), SatSub(max, committed[c]);
      if lo > up {
        return None;
      }
      lower, upper := lower + [lo], upper + [up];
    }
    assert k > 0 ==> lower[0] <= upper[0];
    return Some((lower, upper));
  }

  method Total(ns: seq<nat>) returns (total: nat)
    ensures total == Sum(ns)
  {
    total := 0;
    for i := 0 to |ns|
      invariant total == Sum(ns[..i])
    {
      assert ns[..i + 1][..i] == ns[..i];
      total := total + ns[i];
    }
    assert ns[..|ns|] == ns;
  }

  /** Wires the network, sends one unit per open point and reads the assignment off. */
  method AssignByFlow(distances: seq<real>, k: nat, min: nat, max: nat, fixed: seq<Option<nat>>, points: seq<nat>,
                      lower: seq<nat>, upper: seq<nat>)
    returns (assignment: seq<nat>)
    requires |distances| == |fixed| * k && InRange(distances) && points == Open(fixed)
    requires Remaining(fixed, k, min, max, lower, upper) && Bounds(k, lower, upper)
      && Sum(lower) <= |points| <= Sum(upper)
    ensures Completion(assignment, fixed, k, min, max)
    ensures IsCheapest(Cost(distances, k, assignment), distances, fixed, k, min, max)
  {
    ghost var rows := CostRows(distances, k, points);
    RowsStayInRange(distances, |fixed|, k, points);
    var flow := BuildNetwork(distances, k, points, lower, upper, rows);
    ghost var g := flow.graph;
    NetworkHasPotential(g, rows, k, lower, upper);
    var sent := flow.SendFlow(0, SinkNode(|points|, k), |points|);
    if sent.value < |points| {
      ghost var side :| Cut(flow.graph, 0, SinkNode(|points|, k), side);
      NoCutBeforeFull(g, flow.graph, rows, k, lower, upper, sent.value, side);
      assert false;
    }
    assignment := ReadAssignment(flow, fixed, points, k, g, rows, lower, upper);
    ReadIsCheapestCompletion(assignment, flow.graph, g, rows, distances, fixed, k, min, max, lower, upper);
  }

  lemma {:induction false} ReadIsCheapestCompletion(x: seq<nat>, h: Graph, g: Graph, rows: Rows, distances: seq<real>,
                                                    fixed: seq<Option<nat>>, k: nat, min: nat, max: nat,
                                                      lower: seq<nat>, upper: seq<nat>)
    requires Remaining(fixed, k, min, max, lower, upper) && Bounds(k, lower, upper) && Sum(lower) <= |Open(fixed)|
    requires rows == CostRows(distances, k, Open(fixed)) && RowsInRange(rows, k)
    requires Flowed(g, h, rows, k, lower, upper, |rows|) && HasPotential(h)
    requires Agrees(x, fixed) && ReadsOff(h, rows, k, OpenPart(fixed, x))
    ensures Completion(x, fixed, k, min, max)
    ensures IsCheapest(Cost(distances, k, x), distances, fixed, k, min, max)
  {
    var z := OpenPart(fixed, x);
    ReadIsCheapest(g, h, rows, k, lower, upper, z);
    FillOpenPart(fixed, x);
    CheapestMeetsLower(rows, k, lower, upper, z);
    FittingIsCompletion(z, distances, fixed, k, min, max, lower, upper);
    CheapestCompletion(z, distances, fixed, k, min, max, lower, upper);
  }

  /**
   The cost of the cheapest completion of `fixed`, or none when there is no completion.
   The exits of the program after the flow ("not all units sent", "a point without a cluster",
   "an assignment left open") cannot be taken.
   */
  method SolveSubproblem(distances: seq<real>, pointCount: nat, k: nat, min: nat, max: nat, fixed: seq<Option<nat>>)
    returns (r: Option<real>)
    requires |fixed| == pointCount && |distances| == pointCount * k && InRange(distances)
    ensures r.None? <==> forall x :: !Completion(x, fixed, k, min, max)
    ensures r.Some? ==> IsCheapest(r.value, distances, fixed, k, min, max)
  {
    var commit := Commit(fixed, k, max);
    if commit.None? {
      return None;
    }
    var (committed, points) := commit.value;
    var capacities := Capacities(committed, k, min, max);
    if capacities.None? {
      forall x
        ensures !Completion(x, fixed, k, min, max)
      {
        if Completion(x, fixed, k, min, max) {
          CompletionSizes(x, fixed, k, min, max, 0);
        }
      }
      return None;
    }
    var (lower, upper) := capacities.value;
    var required := Total(lower);
    var available := Total(upper);
    if required > |points| || |points| > available {
      forall x
        ensures !Completion(x, fixed, k, min, max)
      {
        if Completion(x, fixed, k, min, max) {
          CompletionTotals(x, fixed, k, min, max, lower, upper);
        }
      }
      return None;
    }
    var assignment := AssignByFlow(distances, k, min, max, fixed, points, lower, upper);
    CostIndices(distances, assignment, pointCount, k);
    r := AssignmentCost(distances, k, assignment);
  }

  // ----- The lexicographic loop -----

  /** A cheapest assignment of all points within the bounds. */
  ghost predicate IsOptimal(x: seq<nat>, distances: seq<real>, n: nat, k: nat, min: nat, max: nat) {
    && |x| == n && InBounds(x, k, min, max)
    && forall y :: |y| == n && InBounds(y, k, min, max) ==> Cost(distances, k, x) <= Cost(distances, k, y)
  }

  /** `x` and `y` agree before some point, where `x` names the smaller cluster. */
  ghost predicate LexBefore(x: seq<nat>, y: seq<nat>) {
    |x| == |y| && exists p :: FirstSmaller(x, y, p)
  }

  ghost predicate FirstSmaller(x: seq<nat>, y: seq<nat>, p: int) {
    0 <= p < |x| == |y| && x[..p] == y[..p] && x[p] < y[p]
  }

  /** The first `i` points are fixed, the others open. */
  ghost predicate FixedTo(fixed: seq<Option<nat>>, x: seq<nat>, n: nat) {
    && |fixed| == n && |x| <= n
    && (forall p :: 0 <= p < |x| ==> fixed[p] == Some(x[p]))
    && forall p :: |x| <= p < n ==> fixed[p].None?
  }

  /** Every optimal assignment either extends the prefix `x` or comes after it. */
  ghost predicate PrefixSmallest(x: seq<nat>, distances: seq<real>, n: nat, k: nat, min: nat, max: nat) {
    forall y :: IsOptimal(y, distances, n, k, min, max) && |x| <= n ==> x == y[..|x|] || LexBefore(x, y[..|x|])
  }

  /** Some optimal assignment starts with `x`. */
  ghost predicate Extendable(x: seq<nat>, distances: seq<real>, n: nat, k: nat, min: nat, max: nat) {
    |x| <= n && exists y :: IsOptimal(y, distances, n, k, min, max) && x == y[..|x|]
  }

  lemma FixedCompletions(fixed: seq<Option<nat>>, x: seq<nat>, y: seq<nat>, n: nat, k: nat, min: nat, max: nat)
    requires FixedTo(fixed, x, n) && |y| == n
    ensures Completion(y, fixed, k, min, max) <==> InBounds(y, k, min, max) && x == y[..|x|]
  {
    if Agrees(y, fixed) {
      forall p | 0 <= p < |x|
        ensures x[p] == y[p]
      {
        assert fixed[p] == Some(x[p]);
      }
    }
  }

  ghost predicate IsOptimalCost(cost: real, distances: seq<real>, n: nat, k: nat, min: nat, max: nat) {
    exists y :: IsOptimal(y, distances, n, k, min, max) && Cost(distances, k, y) == cost
  }

  /** The answer for a longer prefix tells whether an optimal assignment extends it. */
  lemma {:induction false} CandidateMeaning(r: Option<real>, best: real, distances: seq<real>,
                                            fixed: seq<Option<nat>>, x: seq<nat>, n: nat, k: nat, min: nat, max: nat)
    requires FixedTo(fixed, x, n)
    requires r.None? <==> forall y :: !Completion(y, fixed, k, min, max)
    requires r.Some? ==> IsCheapest(r.value, distances, fixed, k, min, max)
    requires IsOptimalCost(best, distances, n, k, min, max)
    ensures r == Some(best) <==> Extendable(x, distances, n, k, min, max)
  {
    forall y | |y| == n
      ensures Completion(y, fixed, k, min, max) <==> InBounds(y, k, min, max) && x == y[..|x|]
    {
      FixedCompletions(fixed, x, y, n, k, min, max);
    }
    if r == Some(best) {
      var y :| Completion(y, fixed, k, min, max) && Cost(distances, k, y) == best;
      assert IsOptimal(y, distances, n, k, min, max) && x == y[..|x|];
    }
    if y :| IsOptimal(y, distances, n, k, min, max) && x == y[..|x|] {
      assert Completion(y, fixed, k, min, max);
    }
  }

  lemma {:induction false} ExtendSmallest(x: seq<nat>, c: nat, distances: seq<real>, n: nat, k: nat, min: nat, max: nat)
    requires |x| < n && PrefixSmallest(x, distances, n, k, min, max)
    requires forall d: nat :: d < c ==> !Extendable(x + [d], distances, n, k, min, max)
    ensures PrefixSmallest(x + [c], distances, n, k, min, max)
  {
    forall y | IsOptimal(y, distances, n, k, min, max)
      ensures x + [c] == y[..|x| + 1] || LexBefore(x + [c], y[..|x| + 1])
    {
      var z := y[..|x| + 1];
      assert z == y[..|x|] + [y[|x|]];
      if x == y[..|x|] {
        assert Extendable(x + [y[|x|]], distances, n, k, min, max);
        if y[|x|] > c {
          assert FirstSmaller(x + [c], z, |x|);
        }
      } else {
        var p :| FirstSmaller(x, y[..|x|], p);
        assert (x + [c])[..p] == x[..p] && z[..p] == y[..|x|][..p];
        assert FirstSmaller(x + [c], z, p);
      }
    }
  }

  /** Tries the clusters in order until the best completion still has the optimal cost; there always is one. */
  method SmallestExtension(distances: seq<real>, n: nat, k: nat, min: nat, max: nat, fixed: seq<Option<nat>>, i: nat,
                           optimalCost: real, ghost x: seq<nat>)
    returns (chosen: nat)
    requires |distances| == n * k && InRange(distances) && i < n && |x| == i && FixedTo(fixed, x, n)
    requires IsOptimalCost(optimalCost, distances, n, k, min, max)
    requires Extendable(x, distances, n, k, min, max)
    ensures Extendable(x + [chosen], distances, n, k, min, max)
    ensures forall d: nat :: d < chosen ==> !Extendable(x + [d], distances, n, k, min, max)
  {
    var found: Option<nat> := None;
    var c := 0;
    while c < k && found.None?
      invariant c <= k
      invariant found.None? ==> forall d: nat :: d < c ==> !Extendable(x + [d], distances, n, k, min, max)
      invariant found.Some? ==> forall d: nat :: d < found.value ==> !Extendable(x + [d], distances, n, k, min, max)
      invariant found.Some? ==> Extendable(x + [found.value], distances, n, k, min, max)
    {
      var candidate := SolveSubproblem(distances, n, k, min, max, fixed[i := Some(c)]);
      CandidateMeaning(candidate, optimalCost, distances, fixed[i := Some(c)], x + [c], n, k, min, max);
      if candidate.Some? && candidate.value == optimalCost {
        found := Some(c);
      }
      c := c + 1;
    }
    ExtendableStep(x, distances, n, k, min, max);
    return found.value;
  }

  lemma ExtendableStep(x: seq<nat>, distances: seq<real>, n: nat, k: nat, min: nat, max: nat)
    requires Extendable(x, distances, n, k, min, max) && |x| < n
    ensures exists c: nat :: c < k && Extendable(x + [c], distances, n, k, min, max)
  {
    var y :| IsOptimal(y, distances, n, k, min, max) && x == y[..|x|];
    assert y[..|x| + 1] == x + [y[|x|]];
    assert Extendable(x + [y[|x|]], distances, n, k, min, max);
  }

  /**
   The lexicographically smallest of all cheapest assignments within the bounds. The program's
   "could not preserve the optimum" and "failed to finalize" errors cannot occur.
   */
  method SolveLexicographicAssignment(distances: seq<real>, pointCount: nat, k: nat, min: nat, max: nat)
    returns (r: Option<seq<nat>>)
    requires |distances| == pointCount * k && InRange(distances)
    ensures r.None? <==> forall x :: |x| == pointCount ==> !InBounds(x, k, min, max)
    ensures r.Some? ==> IsOptimal(r.value, distances, pointCount, k, min, max)
    ensures r.Some? ==>
      forall y :: IsOptimal(y, distances, pointCount, k, min, max) ==> y == r.value || LexBefore(r.value, y)
  {
    var n := pointCount;
    var fixed: seq<Option<nat>> := seq(n, _ => None);
    var optimal := SolveSubproblem(distances, n, k, min, max, fixed);
    FirstAnswer(optimal, distances, fixed, n, k, min, max);
    if optimal.None? {
      return None;
    }
    var optimalCost := optimal.value;
    ghost var x: seq<nat> := [];
    for i := 0 to n
      invariant |x| == i && FixedTo(fixed, x, n)
      invariant PrefixSmallest(x, distances, n, k, min, max)
      invariant Extendable(x, distances, n, k, min, max)
    {
      var c := SmallestExtension(distances, n, k, min, max, fixed, i, optimalCost, x);
      ExtendSmallest(x, c, distances, n, k, min, max);
      fixed := fixed[i := Some(c)];
      x := x + [c];
    }
    WholePrefix(x, distances, n, k, min, max);
    var assignment := seq(n, p requires 0 <= p < n => assert fixed[p].Some?; fixed[p].value);
    assert assignment == x;
    return Some(assignment);
  }

  lemma {:induction false} FirstAnswer(r: Option<real>, distances: seq<real>, fixed: seq<Option<nat>>, n: nat, k: nat,
                                       min: nat, max: nat)
    requires FixedTo(fixed, [], n)
    requires r.None? <==> forall y :: !Completion(y, fixed, k, min, max)
    requires r.Some? ==> IsCheapest(r.value, distances, fixed, k, min, max)
    ensures r.None? <==> forall x :: |x| == n ==> !InBounds(x, k, min, max)
    ensures r.Some? ==> IsOptimalCost(r.value, distances, n, k, min, max) && Extendable([], distances, n, k, min, max)
    ensures PrefixSmallest([], distances, n, k, min, max)
  {
    forall y: seq<nat> | |y| == n
      ensures Completion(y, fixed, k, min, max) <==> InBounds(y, k, min, max)
    {
      FixedCompletions(fixed, [], y, n, k, min, max);
      assert y[..0] == [];
    }
    if r.Some? {
      var y :| Completion(y, fixed, k, min, max) && Cost(distances, k, y) == r.value;
      assert IsOptimal(y, distances, n, k, min, max) && y[..0] == [];
    }
  }

  lemma {:induction false} WholePrefix(x: seq<nat>, distances: seq<real>, n: nat, k: nat, min: nat, max: nat)
    requires |x| == n && PrefixSmallest(x, distances, n, k, min, max) && Extendable(x, distances, n, k, min, max)
    ensures IsOptimal(x, distances, n, k, min, max)
    ensures forall y :: IsOptimal(y, distances, n, k, min, max) ==> y == x || LexBefore(x, y)
  {
    forall y | IsOptimal(y, distances, n, k, min, max)
      ensures y[..n] == y
    {
    }
  }
}
