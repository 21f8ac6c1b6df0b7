/** The network one solver call builds, and what a full flow says about the assignment read off from it. */
module AssignmentNetwork {
  import opened AssignmentSpec
  import opened NatSums
  import opened Flow = MinCostFlow
  import opened Transport

  type Rows = seq<seq<real>>

  function PointNode(q: nat): nat { 1 + q }
  function ClusterNode(n: nat, c: nat): nat { 1 + n + c }
  function SinkNode(n: nat, k: nat): nat { 1 + n + k }

  ghost predicate Rectangular(rows: Rows, k: nat) {
    forall q :: 0 <= q < |rows| ==> |rows[q]| == k
  }

  // ----- The edge lists the construction produces -----

  function SourceEdges(n: nat): (r: seq<Edge>)
    ensures |r| == n
  {
    seq(n, q requires q >= 0 => Edge(PointNode(q), 0, 1, 0.0))
  }

  function PointEdges(rows: Rows, k: nat, q: nat, j: nat): (r: seq<Edge>)
    requires q < |rows| && j <= k == |rows[q]|
    ensures |r| == 1 + j
  {
    [Edge(0, q, 0, -0.0)] + seq(j, c requires 0 <= c < j => Edge(ClusterNode(|rows|, c), q, 1, rows[q][c]))
  }

  function ClusterEdges(rows: Rows, k: nat, c: nat, n: nat): (r: seq<Edge>)
    requires n <= |rows| && c < k && Rectangular(rows, k)
    ensures |r| == n
  {
    seq(n, q requires 0 <= q < n => Edge(PointNode(q), 1 + c, 0, -rows[q][c]))
  }

  /** All points before `o` are wired; if `started`, point `o` is wired to the source and to `j` clusters. */
  ghost predicate PointStage(g: Graph, rows: Rows, k: nat, o: nat, started: bool, j: nat)
    requires Rectangular(rows, k)
  {
    var n := |rows|;
    && |g| == SinkNode(n, k) + 1 && WellFormed(g)
    && o <= n && j <= k && (started ==> o < n) && (!started ==> j == 0)
    && g[0] == SourceEdges(if started then o + 1 else o)
    && (forall q: nat :: q < n ==> PointRow(g, rows, k, o, started, j, q))
    && (forall c: nat :: c < k ==> ClusterRow(g, rows, k, o, started, j, c))
    && g[SinkNode(n, k)] == []
  }

  ghost predicate PointRow(g: Graph, rows: Rows, k: nat, o: nat, started: bool, j: nat, q: nat)
    requires Rectangular(rows, k) && |g| == SinkNode(|rows|, k) + 1 && q < |rows| && j <= k
  {
    g[PointNode(q)] ==
      if q < o then PointEdges(rows, k, q, k)
      else if q == o && started then PointEdges(rows, k, q, j)
      else []
  }

  ghost predicate ClusterRow(g: Graph, rows: Rows, k: nat, o: nat, started: bool, j: nat, c: nat)
    requires Rectangular(rows, k) && |g| == SinkNode(|rows|, k) + 1 && o <= |rows| && (started ==> o < |rows|) && c < k
  {
    g[ClusterNode(|rows|, c)] == ClusterEdges(rows, k, c, if started && c < j then o + 1 else o)
  }

  lemma {:induction false} StartPoint(g: Graph, rows: Rows, k: nat, o: nat)
    requires Rectangular(rows, k) && PointStage(g, rows, k, o, false, 0) && o < |rows|
    ensures PointStage(WithEdge(g, 0, PointNode(o), 1, 0.0), rows, k, o, true, 0)
  {
    var h := WithEdge(g, 0, PointNode(o), 1, 0.0);
    WithEdgeWellFormed(g, 0, PointNode(o), 1, 0.0);
    assert PointRow(g, rows, k, o, false, 0, o);
    assert h[0] == SourceEdges(o + 1);
    forall q: nat | q < |rows|
      ensures PointRow(h, rows, k, o, true, 0, q)
    {
      assert PointRow(g, rows, k, o, false, 0, q);
    }
    forall c: nat | c < k
      ensures ClusterRow(h, rows, k, o, true, 0, c)
    {
      assert ClusterRow(g, rows, k, o, false, 0, c);
    }
  }

  lemma PointEdgesSnoc(rows: Rows, k: nat, q: nat, j: nat)
    requires q < |rows| && j < k == |rows[q]|
    ensures PointEdges(rows, k, q, j + 1)
      == PointEdges(rows, k, q, j) + [Edge(ClusterNode(|rows|, j), q, 1, rows[q][j])]
  {
  }

  lemma ClusterEdgesSnoc(rows: Rows, k: nat, c: nat, m: nat)
    requires m < |rows| && c < k && Rectangular(rows, k)
    ensures ClusterEdges(rows, k, c, m + 1) == ClusterEdges(rows, k, c, m) + [Edge(PointNode(m), 1 + c, 0, -rows[m][c])]
  {
  }

  lemma {:induction false} LinkCluster(g: Graph, rows: Rows, k: nat, o: nat, j: nat)
    requires Rectangular(rows, k) && PointStage(g, rows, k, o, true, j) && j < k
    ensures PointStage(WithEdge(g, PointNode(o), ClusterNode(|rows|, j), 1, rows[o][j]), rows, k, o, true, j + 1)
  {
    var n, j' := |rows|, j + 1;
    var h := WithEdge(g, PointNode(o), ClusterNode(n, j), 1, rows[o][j]);
    WithEdgeWellFormed(g, PointNode(o), ClusterNode(n, j), 1, rows[o][j]);
    assert PointRow(g, rows, k, o, true, j, o) && ClusterRow(g, rows, k, o, true, j, j);
    PointEdgesSnoc(rows, k, o, j);
    ClusterEdgesSnoc(rows, k, j, o);
    forall q: nat | q < n
      ensures PointRow(h, rows, k, o, true, j', q)
    {
      assert PointRow(g, rows, k, o, true, j, q);
    }
    forall c: nat | c < k
      ensures ClusterRow(h, rows, k, o, true, j', c)
    {
      assert ClusterRow(g, rows, k, o, true, j, c);
    }
  }

  lemma {:induction false} FinishPoint(g: Graph, rows: Rows, k: nat, o: nat)
    requires Rectangular(rows, k) && PointStage(g, rows, k, o, true, k)
    ensures PointStage(g, rows, k, o + 1, false, 0)
  {
    var o' := o + 1;
    forall q: nat | q < |rows|
      ensures PointRow(g, rows, k, o', false, 0, q)
    {
      assert PointRow(g, rows, k, o, true, k, q);
    }
    forall c: nat | c < k
      ensures ClusterRow(g, rows, k, o', false, 0, c)
    {
      assert ClusterRow(g, rows, k, o, true, k, c);
    }
  }

  // ----- Arcs to the sink -----

  ghost predicate Bounds(k: nat, lower: seq<nat>, upper: seq<nat>) {
    |lower| == |upper| == k && forall c: nat :: c < k ==> lower[c] <= upper[c]
  }

  /** Cluster `c` has its mandatory and optional arcs to the sink; empty ones are left out. */
  ghost predicate SinkArcs(g: Graph, rows: Rows, k: nat, lower: seq<nat>, upper: seq<nat>, c: nat)
    requires Rectangular(rows, k) && |g| == SinkNode(|rows|, k) + 1 && Bounds(k, lower, upper) && c < k
  {
    var n := |rows|;
    var es := g[ClusterNode(n, c)];
    var m := if lower[c] > 0 then 1 else 0;
    && |es| == n + m + (if upper[c] > lower[c] then 1 else 0)
    && es[..n] == ClusterEdges(rows, k, c, n)
    && (lower[c] > 0 ==> es[n].to == SinkNode(n, k) && es[n].capacity == lower[c] && es[n].cost == 0.0)
    && (upper[c] > lower[c] ==>
          es[n + m].to == SinkNode(n, k) && es[n + m].capacity == upper[c] - lower[c]
            && es[n + m].cost == OPTIONAL_CAPACITY_PENALTY)
  }

  /** The points are wired, and so are the clusters before `d`. */
  ghost predicate SinkStage(g: Graph, rows: Rows, k: nat, lower: seq<nat>, upper: seq<nat>, d: nat)
    requires Rectangular(rows, k)
  {
    var n := |rows|;
    && |g| == SinkNode(n, k) + 1 && WellFormed(g) && Bounds(k, lower, upper) && d <= k
    && g[0] == SourceEdges(n)
    && (forall q: nat :: q < n ==> g[PointNode(q)] == PointEdges(rows, k, q, k))
    && (forall c: nat :: c < d ==> SinkArcs(g, rows, k, lower, upper, c))
    && (forall c: nat :: d <= c < k ==> g[ClusterNode(n, c)] == ClusterEdges(rows, k, c, n))
    && forall i: nat :: i < |g[SinkNode(n, k)]| ==> g[SinkNode(n, k)][i].capacity == 0
  }

  lemma {:induction false} PointsWired(g: Graph, rows: Rows, k: nat, lower: seq<nat>, upper: seq<nat>)
    requires Rectangular(rows, k) && PointStage(g, rows, k, |rows|, false, 0) && Bounds(k, lower, upper)
    ensures SinkStage(g, rows, k, lower, upper, 0)
  {
    forall q: nat | q < |rows|
      ensures g[PointNode(q)] == PointEdges(rows, k, q, k)
    {
      assert PointRow(g, rows, k, |rows|, false, 0, q);
    }
    forall c: nat | c < k
      ensures g[ClusterNode(|rows|, c)] == ClusterEdges(rows, k, c, |rows|)
    {
      assert ClusterRow(g, rows, k, |rows|, false, 0, c);
    }
  }

  function WithSinkArcs(g: Graph, n: nat, k: nat, lower: nat, upper: nat, c: nat): Graph
    requires c < k && |g| == SinkNode(n, k) + 1 && lower <= upper
  {
    var g1 := if lower > 0 then WithEdge(g, ClusterNode(n, c), SinkNode(n, k), lower, 0.0) else g;
    if upper > lower then WithEdge(g1, ClusterNode(n, c), SinkNode(n, k), upper - lower,
                                   OPTIONAL_CAPACITY_PENALTY) else g1
  }

  lemma {:induction false} LinkSink(g: Graph, rows: Rows, k: nat, lower: seq<nat>, upper: seq<nat>, d: nat)
    requires Rectangular(rows, k) && SinkStage(g, rows, k, lower, upper, d) && d < k
    ensures SinkStage(WithSinkArcs(g, |rows|, k, lower[d], upper[d], d), rows, k, lower, upper, d + 1)
  {
    var n := |rows|;
    var g1 := if lower[d] > 0 then WithEdge(g, ClusterNode(n, d), SinkNode(n, k), lower[d], 0.0) else g;
    var h := WithSinkArcs(g, n, k, lower[d], upper[d], d);
    if lower[d] > 0 {
      WithEdgeWellFormed(g, ClusterNode(n, d), SinkNode(n, k), lower[d], 0.0);
    }
    if upper[d] > lower[d] {
      WithEdgeWellFormed(g1, ClusterNode(n, d), SinkNode(n, k), upper[d] - lower[d], OPTIONAL_CAPACITY_PENALTY);
    }
    assert g[ClusterNode(n, d)] == ClusterEdges(rows, k, d, n);
    assert h[ClusterNode(n, d)][..n] == g[ClusterNode(n, d)];
    assert SinkArcs(h, rows, k, lower, upper, d);
    forall c: nat | c < d
      ensures SinkArcs(h, rows, k, lower, upper, c)
    {
      assert SinkArcs(g, rows, k, lower, upper, c);
      assert h[ClusterNode(n, c)] == g[ClusterNode(n, c)];
    }
    forall c: nat | d + 1 <= c < k
      ensures h[ClusterNode(n, c)] == ClusterEdges(rows, k, c, n)
    {
      assert g[ClusterNode(n, c)] == ClusterEdges(rows, k, c, n);
    }
  }

  /** The finished network. */
  ghost predicate Network(g: Graph, rows: Rows, k: nat, lower: seq<nat>, upper: seq<nat>) {
    Rectangular(rows, k) && SinkStage(g, rows, k, lower, upper, k)
  }

  /** Distances are never negative, so the fresh network has a potential. */
  lemma {:induction false} NetworkHasPotential(g: Graph, rows: Rows, k: nat, lower: seq<nat>, upper: seq<nat>)
    requires Network(g, rows, k, lower, upper) && RowsInRange(rows, k)
    ensures HasPotential(g)
  {
    var n := |rows|;
    var pi := seq(|g|, _ => 0.0);
    forall u: nat, i: nat | IsEdge(g, u, i) && g[u][i].capacity > 0
      ensures Slack(g, pi, u, i)
    {
      assert Paired(g, u, i);
      if 1 <= u <= n {
        assert g[PointNode(u - 1)] == PointEdges(rows, k, u - 1, k);
      } else if n < u <= n + k {
        var c := u - n - 1;
        assert SinkArcs(g, rows, k, lower, upper, c);
        assert forall q: nat :: q < n ==> g[u][..n][q] == ClusterEdges(rows, k, c, n)[q];
      }
    }
    assert Potential(g, pi);
  }

  // ----- Reading an assignment off a flow -----

  /** `h` is the network after `v` units have been sent. */
  ghost predicate Flowed(g: Graph, h: Graph, rows: Rows, k: nat, lower: seq<nat>, upper: seq<nat>, v: nat) {
    && Network(g, rows, k, lower, upper)
    && WellFormed(h) && SameNetwork(g, h)
    && Moved(g, h, 0, SinkNode(|rows|, k), v)
  }

  /** One unit runs from point `q` to cluster `c`: the partner of their edge has capacity one. */
  predicate Assigned(h: Graph, n: nat, q: nat, c: nat) {
    IsEdge(h, ClusterNode(n, c), q) && h[ClusterNode(n, c)][q].capacity == 1
  }

  lemma {:induction false} OutZero(es: seq<Edge>)
    requires OutCapacity(es) == 0
    ensures forall i :: 0 <= i < |es| ==> es[i].capacity == 0
  {
    if es != [] {
      OutZero(es[..|es| - 1]);
      assert es == es[..|es| - 1] + [es[|es| - 1]];
    }
  }

  lemma {:induction false} OutConstant(es: seq<Edge>, cap: nat)
    requires cap <= 1 && forall i :: 0 <= i < |es| ==> es[i].capacity == cap
    ensures OutCapacity(es) == cap * |es|
  {
    if es != [] {
      OutConstant(es[..|es| - 1], cap);
    }
  }

  lemma {:induction false} OutAtMost(es: seq<Edge>)
    requires forall i :: 0 <= i < |es| ==> es[i].capacity <= 1
    ensures OutCapacity(es) <= |es|
    ensures OutCapacity(es) == |es| ==> forall i :: 0 <= i < |es| ==> es[i].capacity == 1
  {
    if es != [] {
      OutAtMost(es[..|es| - 1]);
      assert es == es[..|es| - 1] + [es[|es| - 1]];
    }
  }

  lemma {:induction false} OutOneMissing(es: seq<Edge>) returns (j: nat)
    requires (forall i :: 0 <= i < |es| ==> es[i].capacity <= 1) && OutCapacity(es) + 1 == |es|
    ensures j < |es| && es[j].capacity == 0 && forall i :: 0 <= i < |es| && i != j ==> es[i].capacity == 1
  {
    var n := |es| - 1;
    assert es == es[..n] + [es[n]];
    if es[n].capacity == 0 {
      j := n;
      OutAtMost(es[..n]);
    } else {
      j := OutOneMissing(es[..n]);
    }
  }

  lemma {:induction false} OutSplit(es: seq<Edge>, m: nat)
    requires m <= |es|
    ensures OutCapacity(es) == OutCapacity(es[..m]) + OutCapacity(es[m..])
  {
    if m < |es| {
      var n := |es| - 1;
      OutSplit(es[..n], m);
      assert es[..n][..m] == es[..m] && es[..n][m..] == es[m..][..n - m];
    } else {
      assert es[..m] == es;
    }
  }

  /** Capacities around one point. */
  lemma {:induction false} PointCapacities(g: Graph, h: Graph, rows: Rows, k: nat, lower: seq<nat>, upper: seq<nat>,
                                           v: nat, q: nat)
    requires Flowed(g, h, rows, k, lower, upper, v) && q < |rows|
    ensures q < |h[0]| && |h[PointNode(q)]| == 1 + k
    ensures h[0][q].capacity + h[PointNode(q)][0].capacity == 1
    ensures h[PointNode(q)][0].to == 0
    ensures OutCapacity(h[PointNode(q)]) == k
  {
    assert g[PointNode(q)] == PointEdges(rows, k, q, k);
    assert SameEdge(g, h, 0, q) && SameEdge(g, h, PointNode(q), 0);
    assert MovedAt(g, h, 0, SinkNode(|rows|, k), v, PointNode(q));
    var es := g[PointNode(q)];
    OutSplit(es, 1);
    OutConstant(es[1..], 1);
    assert es[..1] == [es[0]];
    assert es[..1][..0] == [];
  }

  lemma {:induction false} ArcCapacities(g: Graph, h: Graph, rows: Rows, k: nat, lower: seq<nat>, upper: seq<nat>,
                                         v: nat, q: nat, c: nat)
    requires Flowed(g, h, rows, k, lower, upper, v) && q < |rows| && c < k
    ensures IsEdge(h, PointNode(q), 1 + c) && IsEdge(h, ClusterNode(|rows|, c), q)
    ensures
      var e := h[PointNode(q)][1 + c];
      var b := h[ClusterNode(|rows|, c)][q];
      && e.to == ClusterNode(|rows|, c) && e.rev == q && e.cost == rows[q][c]
      && b.to == PointNode(q) && b.rev == 1 + c && b.cost == -rows[q][c]
      && e.capacity + b.capacity == 1
  {
    assert g[PointNode(q)] == PointEdges(rows, k, q, k);
    assert SameEdge(g, h, PointNode(q), 1 + c) && Paired(h, PointNode(q), 1 + c);
    assert SinkArcs(g, rows, k, lower, upper, c);
    assert g[ClusterNode(|rows|, c)][q] == g[ClusterNode(|rows|, c)][..|rows|][q];
  }

  /** A point whose source arc is unused has no unit; a point whose source arc is used has exactly one. */
  lemma {:induction false} PointChoice(g: Graph, h: Graph, rows: Rows, k: nat, lower: seq<nat>, upper: seq<nat>,
                                       v: nat, q: nat)
    returns (c: nat)
    requires Flowed(g, h, rows, k, lower, upper, v) && q < |rows|
    ensures q < |h[0]| && h[0][q].capacity <= 1
    ensures h[0][q].capacity == 1 ==> forall d: nat :: d < k ==> !Assigned(h, |rows|, q, d)
    ensures h[0][q].capacity == 0 ==> c < k && forall d: nat :: d < k ==> (Assigned(h, |rows|, q, d) <==> d == c)
  {
    PointCapacities(g, h, rows, k, lower, upper, v, q);
    forall d: nat | d < k
      ensures IsEdge(h, PointNode(q), 1 + d) && IsEdge(h, ClusterNode(|rows|, d), q)
      ensures h[PointNode(q)][1 + d].capacity + h[ClusterNode(|rows|, d)][q].capacity == 1
    {
      ArcCapacities(g, h, rows, k, lower, upper, v, q, d);
    }
    var es := h[PointNode(q)];
    forall i | 0 <= i < |es|
      ensures es[i].capacity <= 1
    {
      if i > 0 {
        var d: nat := i - 1;
        assert h[PointNode(q)][1 + d].capacity + h[ClusterNode(|rows|, d)][q].capacity == 1;
      }
    }
    c := 0;
    var j := OutOneMissing(es);
    if h[0][q].capacity == 0 {
      c := j - 1;
      forall d: nat | d < k
        ensures Assigned(h, |rows|, q, d) <==> d == c
      {
        assert es[1 + d].capacity == if 1 + d == j then 0 else 1;
      }
    } else {
      assert j == 0;
    }
  }

  /** The clusters chosen by the first `m` points that carry a unit, with their sizes. */
  lemma {:induction false} Choices(g: Graph, h: Graph, rows: Rows, k: nat, lower: seq<nat>, upper: seq<nat>, v: nat,
                                   m: nat)
    returns (w: seq<nat>)
    requires Flowed(g, h, rows, k, lower, upper, v) && m <= |rows|
    ensures |h[0]| == |rows| && forall c: nat :: c < k ==> |rows| <= |h[ClusterNode(|rows|, c)]|
    ensures |w| + OutCapacity(h[0][..m]) == m
    ensures forall i :: 0 <= i < |w| ==> w[i] < k
    ensures forall c: nat :: c < k ==> Count(w, c) == OutCapacity(h[ClusterNode(|rows|, c)][..m])
    ensures OutCapacity(h[0][..m]) == 0 ==> forall q: nat :: q < m ==> Assigned(h, |rows|, q, w[q])
  {
    var n := |rows|;
    assert |h[0]| == n;
    forall c: nat | c < k
      ensures n <= |h[ClusterNode(n, c)]|
    {
      assert SinkArcs(g, rows, k, lower, upper, c);
    }
    if m == 0 {
      w := [];
    } else {
      var q := m - 1;
      var y := Choices(g, h, rows, k, lower, upper, v, q);
      var c := PointChoice(g, h, rows, k, lower, upper, v, q);
      assert h[0][..m][..q] == h[0][..q];
      w := if h[0][q].capacity == 0 then y + [c] else y;
      forall d: nat | d < k
        ensures Count(w, d) == OutCapacity(h[ClusterNode(n, d)][..m])
      {
        ArcCapacities(g, h, rows, k, lower, upper, v, q, d);
        var es := h[ClusterNode(n, d)];
        assert es[..m][..q] == es[..q];
        assert w != y ==> w[..|w| - 1] == y;
        assert Assigned(h, n, q, d) <==> es[q].capacity == 1;
      }
    }
  }

  lemma {:induction false} SourceOut(g: Graph, h: Graph, rows: Rows, k: nat, lower: seq<nat>, upper: seq<nat>, v: nat)
    requires Flowed(g, h, rows, k, lower, upper, v)
    ensures OutCapacity(h[0]) + v == |rows|
  {
    OutConstant(g[0], 1);
    assert MovedAt(g, h, 0, SinkNode(|rows|, k), v, 0);
  }

  /** What free and used slots say about the price difference between the sink and a cluster. */
  ghost predicate FreePrices(mandatory: nat, optional: nat, lower: nat, upper: nat, gain: real) {
    && (mandatory > 0 ==> gain <= 0.0)
    && (mandatory < lower ==> gain >= 0.0)
    && (optional > 0 ==> gain <= OPTIONAL_CAPACITY_PENALTY)
    && (optional + lower < upper ==> gain >= OPTIONAL_CAPACITY_PENALTY)
  }

  lemma TailOut(es: seq<Edge>, n: nat, first: bool, second: bool)
    requires |es| == n + (if first then 1 else 0) + (if second then 1 else 0)
    ensures OutCapacity(es[n..])
         == (if first then es[n].capacity else 0) + (if second then es[|es| - 1].capacity else 0)
  {
    var t := es[n..];
    if |t| == 1 {
      assert t[..0] == [];
    } else if |t| == 2 {
      assert t[..1] == [t[0]];
      assert [t[0]][..0] == [];
      assert OutCapacity([t[0]]) == t[0].capacity;
    }
  }

  /** An arc into the sink: its free part and its used part. */
  lemma {:induction false} SinkArc(g: Graph, h: Graph, rows: Rows, k: nat, lower: seq<nat>, upper: seq<nat>, v: nat,
                                   u: nat, i: nat)
    requires Flowed(g, h, rows, k, lower, upper, v) && IsEdge(g, u, i) && g[u][i].to == SinkNode(|rows|, k)
    ensures IsEdge(h, u, i) && h[u][i].capacity <= g[u][i].capacity && h[u][i].to == SinkNode(|rows|, k)
    ensures forall pi :: Potential(h, pi) ==>
      && (h[u][i].capacity > 0 ==> pi[SinkNode(|rows|, k)] - pi[u] <= g[u][i].cost)
      && (h[u][i].capacity < g[u][i].capacity ==> pi[SinkNode(|rows|, k)] - pi[u] >= g[u][i].cost)
  {
    assert Paired(g, u, i) && SameEdge(g, h, u, i) && Paired(h, u, i);
    var t, j := g[u][i].to, g[u][i].rev;
    assert g[t][j].capacity == 0;
    forall pi | Potential(h, pi)
      ensures h[u][i].capacity > 0 ==> pi[t] - pi[u] <= g[u][i].cost
      ensures h[u][i].capacity < g[u][i].capacity ==> pi[t] - pi[u] >= g[u][i].cost
    {
      assert h[u][i].capacity > 0 ==> Slack(h, pi, u, i);
      assert h[t][j].capacity > 0 ==> Slack(h, pi, t, j);
    }
  }

  /** The slots of cluster `c` that are still free, mandatory and optional ones. */
  lemma {:induction false} ClusterFree(g: Graph, h: Graph, rows: Rows, k: nat, lower: seq<nat>, upper: seq<nat>,
                                       v: nat, c: nat)
    returns (mandatory: nat, optional: nat)
    requires Flowed(g, h, rows, k, lower, upper, v) && c < k
    ensures |rows| <= |h[ClusterNode(|rows|, c)]|
    ensures OutCapacity(h[ClusterNode(|rows|, c)][..|rows|]) + mandatory + optional == upper[c]
    ensures mandatory <= lower[c] && optional <= upper[c] - lower[c]
    ensures forall pi :: Potential(h, pi) ==>
      FreePrices(mandatory, optional, lower[c], upper[c], pi[SinkNode(|rows|, k)] - pi[ClusterNode(|rows|, c)])
    ensures mandatory + optional > 0 ==> HasFreeSink(h, ClusterNode(|rows|, c), SinkNode(|rows|, k))
  {
    var n, u, t := |rows|, ClusterNode(|rows|, c), SinkNode(|rows|, k);
    assert SinkArcs(g, rows, k, lower, upper, c);
    assert MovedAt(g, h, 0, t, v, u);
    var es, fs := g[u], h[u];
    OutSplit(es, n);
    OutSplit(fs, n);
    OutConstant(es[..n], 0);
    var first, second := lower[c] > 0, upper[c] > lower[c];
    TailOut(es, n, first, second);
    TailOut(fs, n, first, second);
    mandatory := if first then fs[n].capacity else 0;
    optional := if second then fs[|fs| - 1].capacity else 0;
    if first {
      SinkArc(g, h, rows, k, lower, upper, v, u, n);
    }
    if second {
      SinkArc(g, h, rows, k, lower, upper, v, u, |fs| - 1);
    }
  }

  ghost predicate HasFreeSink(h: Graph, u: nat, t: nat) {
    exists i: nat :: IsEdge(h, u, i) && h[u][i].capacity > 0 && h[u][i].to == t
  }

  /** While enough slots exist, a flow that is not full leaves a path to the sink. */
  lemma {:induction false} NoCutBeforeFull(g: Graph, h: Graph, rows: Rows, k: nat, lower: seq<nat>, upper: seq<nat>,
                                           v: nat, side: set<nat>)
    requires Flowed(g, h, rows, k, lower, upper, v) && v < |rows| <= Sum(upper)
    ensures !Cut(h, 0, SinkNode(|rows|, k), side)
  {
    var n := |rows|;
    SourceOut(g, h, rows, k, lower, upper, v);
    var w := Choices(g, h, rows, k, lower, upper, v, n);
    assert h[0][..n] == h[0];
    var q := FreePoint(g, h, rows, k, lower, upper, v);
    if Cut(h, 0, SinkNode(n, k), side) {
      forall c: nat | c < k
        ensures Count(w, c) == upper[c]
      {
        var d := PointChoice(g, h, rows, k, lower, upper, v, q);
        ArcCapacities(g, h, rows, k, lower, upper, v, q, c);
        assert SameEdge(g, h, 0, q);
        assert PointNode(q) in side;
        assert !Assigned(h, n, q, c);
        assert ClusterNode(n, c) in side;
        var a, b := ClusterFree(g, h, rows, k, lower, upper, v, c);
      }
      assert Sizes(w, k) == upper;
      SizesSum(w, k);
    }
  }

  lemma {:induction false} FreePoint(g: Graph, h: Graph, rows: Rows, k: nat, lower: seq<nat>, upper: seq<nat>, v: nat)
    returns (q: nat)
    requires Flowed(g, h, rows, k, lower, upper, v) && v < |rows|
    ensures q < |rows| == |h[0]| && h[0][q].capacity == 1
  {
    SourceOut(g, h, rows, k, lower, upper, v);
    assert |h[0]| == |rows|;
    if forall p: nat :: p < |rows| ==> h[0][p].capacity == 0 {
      OutConstant(h[0], 0);
      assert false;
    }
    q :| q < |rows| && h[0][q].capacity != 0;
    var c := PointChoice(g, h, rows, k, lower, upper, v, q);
  }

  /** `z` names, for every point, a cluster its unit runs to. */
  ghost predicate ReadsOff(h: Graph, rows: Rows, k: nat, z: seq<nat>) {
    |z| == |rows| && forall q: nat :: q < |z| ==> z[q] < k && Assigned(h, |rows|, q, z[q])
  }

  /** A full flow assigns every point. */
  lemma {:induction false} FullFlowAssigns(g: Graph, h: Graph, rows: Rows, k: nat, lower: seq<nat>, upper: seq<nat>,
                                           q: nat)
    requires Flowed(g, h, rows, k, lower, upper, |rows|) && q < |rows|
    ensures exists c: nat :: c < k && Assigned(h, |rows|, q, c)
  {
    SourceOut(g, h, rows, k, lower, upper, |rows|);
    OutZero(h[0]);
    var c := PointChoice(g, h, rows, k, lower, upper, |rows|, q);
    assert Assigned(h, |rows|, q, c);
  }

  /** The assignment read off a full flow, with its sizes. */
  lemma {:induction false} ReadSizes(g: Graph, h: Graph, rows: Rows, k: nat, lower: seq<nat>, upper: seq<nat>,
                                     z: seq<nat>)
    requires Flowed(g, h, rows, k, lower, upper, |rows|) && ReadsOff(h, rows, k, z)
    ensures forall c: nat :: c < k ==>
              && |rows| <= |h[ClusterNode(|rows|, c)]|
              && Count(z, c) == OutCapacity(h[ClusterNode(|rows|, c)][..|rows|])
  {
    var n := |rows|;
    SourceOut(g, h, rows, k, lower, upper, n);
    assert |h[0]| == n;
    assert h[0][..n] == h[0];
    OutZero(h[0]);
    var w := Choices(g, h, rows, k, lower, upper, n, n);
    forall q: nat | q < n
      ensures w[q] == z[q]
    {
      var c := PointChoice(g, h, rows, k, lower, upper, n, q);
      assert Assigned(h, n, q, w[q]) && Assigned(h, n, q, z[q]);
    }
    assert w == z;
  }

  /** The assignment read off a full flow without negative residual cycles is a cheapest fitting one. */
  lemma {:induction false} ReadIsCheapest(g: Graph, h: Graph, rows: Rows, k: nat, lower: seq<nat>, upper: seq<nat>,
                                          z: seq<nat>)
    requires Flowed(g, h, rows, k, lower, upper, |rows|) && ReadsOff(h, rows, k, z) && HasPotential(h)
    ensures Fitting(rows, k, upper, z)
    ensures forall y :: Fitting(rows, k, upper, y) ==> PenalizedCost(rows, lower, z) <= PenalizedCost(rows, lower, y)
  {
    var n := |rows|;
    var pi :| Potential(h, pi);
    var price := seq(k, c requires 0 <= c < k => pi[ClusterNode(n, c)]);
    var top := pi[SinkNode(n, k)];
    ReadSizes(g, h, rows, k, lower, upper, z);
    forall c: nat | c < k
      ensures Count(z, c) <= upper[c]
      ensures ClusterContent(Count(z, c), lower[c], upper[c], top - price[c])
    {
      var a, b := ClusterFree(g, h, rows, k, lower, upper, n, c);
      assert FreePrices(a, b, lower[c], upper[c], pi[SinkNode(n, k)] - pi[ClusterNode(n, c)]);
    }
    forall q, c: nat | 0 <= q < n && c < k
      ensures rows[q][c] - rows[q][z[q]] >= price[c] - price[z[q]]
    {
      PointPrices(g, h, rows, k, lower, upper, z, pi, q, c);
    }
    forall y | Fitting(rows, k, upper, y)
      ensures PenalizedCost(rows, lower, z) <= PenalizedCost(rows, lower, y)
    {
      PricesProveCheapest(rows, k, lower, upper, price, top, z, y);
    }
  }

  lemma {:induction false} PointPrices(g: Graph, h: Graph, rows: Rows, k: nat, lower: seq<nat>, upper: seq<nat>,
                                       z: seq<nat>, pi: seq<real>, q: nat, c: nat)
    requires Flowed(g, h, rows, k, lower, upper, |rows|) && ReadsOff(h, rows, k, z) && Potential(h, pi)
    requires q < |rows| && c < k
    ensures |rows[q]| == k && z[q] < k
    ensures rows[q][c] - rows[q][z[q]] >= pi[ClusterNode(|rows|, c)] - pi[ClusterNode(|rows|, z[q])]
  {
    var n := |rows|;
    if c != z[q] {
      SourceOut(g, h, rows, k, lower, upper, n);
      var d := PointChoice(g, h, rows, k, lower, upper, n, q);
      OutZero(h[0]);
      assert Assigned(h, n, q, z[q]);
      assert !Assigned(h, n, q, c);
      ArcCapacities(g, h, rows, k, lower, upper, n, q, c);
      ArcCapacities(g, h, rows, k, lower, upper, n, q, z[q]);
      assert Slack(h, pi, PointNode(q), 1 + c);
      assert Slack(h, pi, ClusterNode(n, z[q]), q);
    }
  }
}
