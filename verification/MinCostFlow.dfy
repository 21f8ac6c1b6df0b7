/** The residual network of the assignment solver and its successive-shortest-path loop. */
module MinCostFlow {
  // Costs are exact reals, so every comparison the program makes with a tolerance is a strict comparison here.

  import opened Wrappers

  /** A residual edge; `rev` is the position of its partner in the target's edge list. */
  datatype Edge = Edge(to: nat, rev: nat, capacity: nat, cost: real)

  type Graph = seq<seq<Edge>>

  predicate IsEdge(g: Graph, u: nat, i: nat) {
    u < |g| && i < |g[u]|
  }

  /** Edge `e` at `(u, i)` and its partner point at each other and have opposite costs. */
  predicate Paired(g: Graph, u: nat, i: nat)
    requires IsEdge(g, u, i)
  {
    var e := g[u][i];
    && e.to != u
    && IsEdge(g, e.to, e.rev)
    && g[e.to][e.rev].to == u
    && g[e.to][e.rev].rev == i
    && g[e.to][e.rev].cost == -e.cost
  }

  ghost predicate WellFormed(g: Graph) {
    forall u: nat, i: nat :: IsEdge(g, u, i) ==> Paired(g, u, i)
  }

  lemma EdgeInside(g: Graph, u: nat, i: nat)
    requires WellFormed(g) && IsEdge(g, u, i)
    ensures g[u][i].to < |g| && g[u][i].to != u
  {
    assert Paired(g, u, i);
  }

  /** The two graphs have the same edges, and each edge and its partner share the same total capacity. */
  ghost predicate SameNetwork(g: Graph, h: Graph)
    requires WellFormed(g)
  {
    && |g| == |h|
    && (forall u: nat :: u < |g| ==> |g[u]| == |h[u]|)
    && forall u: nat, i: nat :: IsEdge(g, u, i) ==> SameEdge(g, h, u, i)
  }

  ghost predicate SameEdge(g: Graph, h: Graph, u: nat, i: nat)
    requires IsEdge(g, u, i) && Paired(g, u, i)
  {
    && IsEdge(h, u, i)
    && h[u][i].to == g[u][i].to
    && h[u][i].rev == g[u][i].rev
    && h[u][i].cost == g[u][i].cost
    && IsEdge(h, g[u][i].to, g[u][i].rev)
    && h[u][i].capacity + h[g[u][i].to][g[u][i].rev].capacity
       == g[u][i].capacity + g[g[u][i].to][g[u][i].rev].capacity
  }

  /** Total residual capacity leaving a node: what flow conservation keeps constant. */
  function OutCapacity(edges: seq<Edge>): nat {
    if edges == [] then 0 else OutCapacity(edges[..|edges| - 1]) + edges[|edges| - 1].capacity
  }

  /** Potentials under which no edge with spare capacity goes down by more than its cost. */
  ghost predicate Potential(g: Graph, pi: seq<real>) {
    && |pi| == |g|
    && forall u: nat, i: nat :: IsEdge(g, u, i) && g[u][i].capacity > 0 ==> Slack(g, pi, u, i)
  }

  ghost predicate Slack(g: Graph, pi: seq<real>, u: nat, i: nat)
    requires IsEdge(g, u, i) && |pi| == |g|
  {
    g[u][i].to < |g| && pi[u] + g[u][i].cost >= pi[g[u][i].to]
  }

  ghost predicate HasPotential(g: Graph) {
    exists pi :: Potential(g, pi)
  }

  // ----- Walks in the residual graph -----

  datatype Walk = Start | Step(prev: Walk, node: nat, edge: nat)

  ghost function Len(w: Walk): nat {
    match w
    case Start => 0
    case Step(p, _, _) => Len(p) + 1
  }

  ghost function End(g: Graph, s: nat, w: Walk): nat {
    match w
    case Start => s
    case Step(_, u, i) => if IsEdge(g, u, i) then g[u][i].to else 0
  }

  ghost function Weight(g: Graph, w: Walk): real {
    match w
    case Start => 0.0
    case Step(p, u, i) => Weight(g, p) + if IsEdge(g, u, i) then g[u][i].cost else 0.0
  }

  ghost predicate Usable(g: Graph, s: nat, u: nat, i: nat) {
    IsEdge(g, u, i) && g[u][i].capacity > 0 && g[u][i].to != s
  }

  /** Any walk from `s` over edges with spare capacity. */
  ghost predicate ResidualWalk(g: Graph, s: nat, w: Walk) {
    match w
    case Start => true
    case Step(p, u, i) => ResidualWalk(g, s, p) && End(g, s, p) == u && IsEdge(g, u, i) && g[u][i].capacity > 0
  }

  /** No walk that comes back to where it started gains anything. */
  ghost predicate NoNegativeCycle(g: Graph) {
    forall s: nat, w: Walk :: s < |g| && ResidualWalk(g, s, w) && End(g, s, w) == s ==> Weight(g, w) >= 0.0
  }

  lemma {:induction false} ResidualWalkAbovePotential(g: Graph, s: nat, w: Walk, pi: seq<real>)
    requires s < |g| && ResidualWalk(g, s, w) && Potential(g, pi)
    ensures End(g, s, w) < |g| && Weight(g, w) >= pi[End(g, s, w)] - pi[s]
  {
    if w.Step? {
      ResidualWalkAbovePotential(g, s, w.prev, pi);
      assert Slack(g, pi, w.node, w.edge);
    }
  }

  /** A potential rules out every negative cycle. */
  lemma PotentialExcludesNegativeCycles(g: Graph)
    requires HasPotential(g)
    ensures NoNegativeCycle(g)
  {
    var pi :| Potential(g, pi);
    forall s: nat, w: Walk | s < |g| && ResidualWalk(g, s, w) && End(g, s, w) == s
      ensures Weight(g, w) >= 0.0
    {
      ResidualWalkAbovePotential(g, s, w, pi);
    }
  }

  /** A walk from `s` over edges with spare capacity that never re-enters `s`. */
  ghost predicate ValidWalk(g: Graph, s: nat, w: Walk) {
    match w
    case Start => true
    case Step(p, u, i) => ValidWalk(g, s, p) && End(g, s, p) == u && Usable(g, s, u, i)
  }

  lemma {:induction false} EndInGraph(g: Graph, s: nat, w: Walk)
    requires WellFormed(g) && s < |g| && ValidWalk(g, s, w)
    ensures End(g, s, w) < |g|
  {
    if w.Step? {
      assert Paired(g, w.node, w.edge);
    }
  }

  lemma {:induction false} WeightAbovePotential(g: Graph, s: nat, w: Walk, pi: seq<real>)
    requires WellFormed(g) && s < |g| && ValidWalk(g, s, w) && Potential(g, pi)
    ensures End(g, s, w) < |g|
    ensures Weight(g, w) >= pi[End(g, s, w)] - pi[s]
  {
    EndInGraph(g, s, w);
    if w.Step? {
      WeightAbovePotential(g, s, w.prev, pi);
      assert Slack(g, pi, w.node, w.edge);
    }
  }

  // ----- Cutting cycles out of walks -----

  ghost function Prefix(w: Walk, n: nat): Walk
    requires n <= Len(w)
  {
    if n == Len(w) then w else Prefix(w.prev, n)
  }

  lemma {:induction false} PrefixValid(g: Graph, s: nat, w: Walk, n: nat)
    requires n <= Len(w) && ValidWalk(g, s, w)
    ensures ValidWalk(g, s, Prefix(w, n)) && Len(Prefix(w, n)) == n
  {
    if n < Len(w) {
      PrefixValid(g, s, w.prev, n);
    }
  }

  /** Replace the first `b` steps of `w` by the walk `p`. */
  ghost function Graft(w: Walk, b: nat, p: Walk): Walk
    requires b <= Len(w)
  {
    if b == Len(w) then p else Step(Graft(w.prev, b, p), w.node, w.edge)
  }

  lemma {:induction false} GraftProperties(g: Graph, s: nat, w: Walk, b: nat, p: Walk)
    requires b <= Len(w) && ValidWalk(g, s, w) && ValidWalk(g, s, p)
    requires End(g, s, Prefix(w, b)) == End(g, s, p)
    ensures ValidWalk(g, s, Graft(w, b, p))
    ensures End(g, s, Graft(w, b, p)) == End(g, s, w)
    ensures Len(Graft(w, b, p)) == Len(w) - b + Len(p)
    ensures Weight(g, Graft(w, b, p)) == Weight(g, w) - Weight(g, Prefix(w, b)) + Weight(g, p)
  {
    if b < Len(w) {
      GraftProperties(g, s, w.prev, b, p);
    }
  }

  /** The closed part of a walk weighs at least nothing when a potential exists. */
  lemma {:induction false} SegmentAbovePotential(g: Graph, s: nat, w: Walk, a: nat, pi: seq<real>)
    requires WellFormed(g) && s < |g| && a <= Len(w) && ValidWalk(g, s, w) && Potential(g, pi)
    ensures End(g, s, w) < |g| && End(g, s, Prefix(w, a)) < |g|
    ensures Weight(g, w) - Weight(g, Prefix(w, a)) >= pi[End(g, s, w)] - pi[End(g, s, Prefix(w, a))]
  {
    EndInGraph(g, s, w);
    PrefixValid(g, s, w, a);
    EndInGraph(g, s, Prefix(w, a));
    if a < Len(w) {
      SegmentAbovePotential(g, s, w.prev, a, pi);
      assert Slack(g, pi, w.node, w.edge);
    }
  }

  /** The numbers below `n`. */
  ghost function Below(n: nat): (r: set<nat>)
    ensures forall x: nat :: x in r <==> x < n
    ensures |r| == n
  {
    if n == 0 then {} else Below(n - 1) + {n - 1}
  }

  lemma SubsetCard<T>(a: set<T>, b: set<T>)
    requires a <= b
    ensures |a| <= |b|
  {
    if a != {} {
      var x :| x in a;
      SubsetCard(a - {x}, b - {x});
    }
  }

  /** Among more than `n` numbers below `n` two are equal. */
  lemma {:induction false} Pigeonhole(xs: seq<nat>, n: nat) returns (a: nat, b: nat)
    requires |xs| > n && forall i :: 0 <= i < |xs| ==> xs[i] < n
    ensures a < b < |xs| && xs[a] == xs[b]
  {
    ghost var seen: set<nat> := {};
    b := 0;
    while true
      invariant b <= |xs| && seen == set i | 0 <= i < b :: xs[i]
      invariant |seen| == b
      invariant seen <= Below(n)
      decreases |xs| - b
    {
      SubsetCard(seen, Below(n));
      if xs[b] in seen {
        a :| 0 <= a < b && xs[a] == xs[b];
        return;
      }
      seen := seen + {xs[b]};
      b := b + 1;
    }
  }

  /** Without negative cycles every walk is matched by one of at most `|g| - 1` steps that is no heavier. */
  lemma {:induction false} ShortWalk(g: Graph, s: nat, w: Walk, pi: seq<real>) returns (r: Walk)
    requires WellFormed(g) && s < |g| && ValidWalk(g, s, w) && Potential(g, pi)
    ensures ValidWalk(g, s, r) && End(g, s, r) == End(g, s, w)
    ensures Len(r) <= |g| - 1 && Weight(g, r) <= Weight(g, w)
    decreases Len(w)
  {
    if Len(w) <= |g| - 1 {
      return w;
    }
    forall i: nat | i <= Len(w)
      ensures ValidWalk(g, s, Prefix(w, i)) && End(g, s, Prefix(w, i)) < |g|
    {
      PrefixValid(g, s, w, i);
      EndInGraph(g, s, Prefix(w, i));
    }
    var ends: seq<nat> := seq(Len(w) + 1, i requires 0 <= i <= Len(w) => End(g, s, Prefix(w, i)));
    var a, b := Pigeonhole(ends, |g|);
    assert ends[a] == End(g, s, Prefix(w, a)) && ends[b] == End(g, s, Prefix(w, b));
    var pb := Prefix(w, b);
    PrefixValid(g, s, w, b);
    PrefixOfPrefix(w, a, b);
    SegmentAbovePotential(g, s, pb, a, pi);
    PrefixValid(g, s, w, a);
    GraftProperties(g, s, w, b, Prefix(w, a));
    r := ShortWalk(g, s, Graft(w, b, Prefix(w, a)), pi);
  }

  lemma {:induction false} PrefixOfPrefix(w: Walk, a: nat, b: nat)
    requires a <= b <= Len(w)
    ensures Len(Prefix(w, b)) == b
    ensures Prefix(Prefix(w, b), a) == Prefix(w, a)
  {
    if b < Len(w) {
      PrefixOfPrefix(w.prev, a, b);
    }
  }

  // ----- Bellman-Ford -----

  datatype Dist = Inf | Fin(v: real)

  predicate Improves(candidate: real, d: Dist) {
    d.Inf? || candidate < d.v
  }

  ghost predicate AtMost(d: Dist, x: real) {
    d.Fin? && d.v <= x
  }

  ghost predicate Lowered(now: seq<Dist>, before: seq<Dist>) {
    && |now| == |before|
    && forall v: nat :: v < |now| && before[v].Fin? ==> AtMost(now[v], before[v].v)
  }

  /** The distances are no larger than the weight of any walk of at most `k` steps. */
  ghost predicate Bounded(g: Graph, s: nat, dist: seq<Dist>, k: nat) {
    forall w: Walk :: ValidWalk(g, s, w) && Len(w) <= k && End(g, s, w) < |dist|
      ==> AtMost(dist[End(g, s, w)], Weight(g, w))
  }

  /** Edge `(u, i)` has been offered the best distance of `k` steps. */
  ghost predicate Offered(g: Graph, s: nat, dist: seq<Dist>, k: nat, u: nat, i: nat)
    requires IsEdge(g, u, i)
  {
    forall w: Walk :: ValidWalk(g, s, w) && Len(w) <= k && End(g, s, w) == u && g[u][i].to < |dist|
      ==> AtMost(dist[g[u][i].to], Weight(g, w) + g[u][i].cost)
  }

  ghost predicate OfferedBelow(g: Graph, s: nat, dist: seq<Dist>, k: nat, node: nat) {
    forall u: nat, i: nat :: u < node && Usable(g, s, u, i) ==> Offered(g, s, dist, k, u, i)
  }

  /** No usable edge leaving a node below `node` can still improve a distance. */
  ghost predicate Quiet(g: Graph, s: nat, dist: seq<Dist>, node: nat)
    requires |dist| == |g|
  {
    forall u: nat, i: nat :: u < node && Usable(g, s, u, i) && dist[u].Fin? ==> !Relaxable(g, dist, u, i)
  }

  predicate Relaxable(g: Graph, dist: seq<Dist>, u: nat, i: nat)
    requires IsEdge(g, u, i) && |dist| == |g|
  {
    dist[u].Fin? && g[u][i].to < |g| && Improves(dist[u].v + g[u][i].cost, dist[g[u][i].to])
  }

  /** The final check of the program: no edge with spare capacity can improve a distance. */
  ghost predicate Settled(g: Graph, dist: seq<Dist>)
    requires |dist| == |g|
  {
    forall u: nat, i: nat :: IsEdge(g, u, i) && g[u][i].capacity > 0 ==> !Relaxable(g, dist, u, i)
  }

  /** Every finite distance is the weight of some walk. */
  ghost predicate Attained(g: Graph, s: nat, dist: seq<Dist>) {
    forall v: nat :: v < |dist| && dist[v].Fin? ==> IsWalkWeight(g, s, v, dist[v].v)
  }

  ghost predicate IsWalkWeight(g: Graph, s: nat, v: nat, x: real) {
    exists w: Walk :: ValidWalk(g, s, w) && End(g, s, w) == v && Weight(g, w) == x
  }

  type Pred = Option<(nat, nat)>

  /**
   What the predecessor links mean while distances still move. `hops[v]` counts the steps of
   the walk that gave `v` its distance; it is in step with the parent's count exactly when
   the parent has not been improved since.
   */
  ghost predicate PredLinks(g: Graph, s: nat, dist: seq<Dist>, pred: seq<Pred>, hops: seq<nat>) {
    && |dist| == |pred| == |hops| == |g|
    && s < |g| && dist[s] == Fin(0.0) && pred[s].None?
    && (forall v: nat :: v < |g| && dist[v].Inf? ==> pred[v].None?)
    && forall v: nat :: v < |g| && v != s && dist[v].Fin? ==> PredLink(g, s, dist, pred, hops, v)
  }

  ghost predicate PredLink(g: Graph, s: nat, dist: seq<Dist>, pred: seq<Pred>, hops: seq<nat>, v: nat)
    requires |dist| == |pred| == |hops| == |g| && v < |g| && dist[v].Fin?
  {
    && pred[v].Some?
    && var (u, i) := pred[v].value;
    && IsEdge(g, u, i) && g[u][i].to == v && g[u][i].capacity > 0
    && dist[u].Fin? && dist[u].v + g[u][i].cost <= dist[v].v
    && (dist[u].v + g[u][i].cost == dist[v].v ==> hops[v] == hops[u] + 1)
  }

  /** One relaxation keeps everything the search relies on. */
  lemma {:induction false} RelaxKeeps(g: Graph, s: nat, dist: seq<Dist>, pred: seq<Pred>, hops: seq<nat>, u: nat,
                                      i: nat)
    requires WellFormed(g) && PredLinks(g, s, dist, pred, hops) && Attained(g, s, dist)
    requires Usable(g, s, u, i) && Relaxable(g, dist, u, i)
    ensures
      var v := g[u][i].to;
      var dist' := dist[v := Fin(dist[u].v + g[u][i].cost)];
      && PredLinks(g, s, dist', pred[v := Some((u, i))], hops[v := hops[u] + 1])
      && Attained(g, s, dist')
      && Lowered(dist', dist)
  {
    assert Paired(g, u, i);
    var v := g[u][i].to;
    var dist' := dist[v := Fin(dist[u].v + g[u][i].cost)];
    var pred' := pred[v := Some((u, i))];
    var hops' := hops[v := hops[u] + 1];
    forall x: nat | x < |g| && x != s && dist'[x].Fin?
      ensures PredLink(g, s, dist', pred', hops', x)
    {
      if x != v {
        assert PredLink(g, s, dist, pred, hops, x);
        assert pred'[x] == pred[x] && hops'[x] == hops[x];
        var (p, j) := pred[x].value;
        assert dist'[p].Fin? && (p != v ==> dist'[p] == dist[p] && hops'[p] == hops[p]);
      } else {
        assert dist'[u] == dist[u] && hops'[u] == hops[u] && pred'[v] == Some((u, i));
      }
    }
    forall x: nat | x < |g| && dist'[x].Fin?
      ensures IsWalkWeight(g, s, x, dist'[x].v)
    {
      if x != v {
        assert IsWalkWeight(g, s, x, dist[x].v);
      } else {
        assert IsWalkWeight(g, s, u, dist[u].v);
        StepWeight(g, s, u, i, dist[u].v);
      }
    }
  }

  lemma StepWeight(g: Graph, s: nat, u: nat, i: nat, x: real)
    requires Usable(g, s, u, i) && IsWalkWeight(g, s, u, x)
    ensures IsWalkWeight(g, s, g[u][i].to, x + g[u][i].cost)
  {
    var w :| ValidWalk(g, s, w) && End(g, s, w) == u && Weight(g, w) == x;
    var w' := Step(w, u, i);
    assert ValidWalk(g, s, w') && End(g, s, w') == g[u][i].to && Weight(g, w') == x + g[u][i].cost;
  }

  /** The best distance of `k` steps to `u` has just been offered along `(u, i)`. */
  lemma {:induction false} OfferMade(g: Graph, s: nat, dist: seq<Dist>, k: nat, u: nat, i: nat)
    requires |dist| == |g| && Bounded(g, s, dist, k) && u < |g| && Usable(g, s, u, i) && g[u][i].to < |g|
    requires dist[u].Fin? && AtMost(dist[g[u][i].to], dist[u].v + g[u][i].cost)
    ensures Offered(g, s, dist, k, u, i)
  {
  }

  lemma {:induction false} LoweredKeeps(g: Graph, s: nat, now: seq<Dist>, before: seq<Dist>, k: nat, node: nat)
    requires Lowered(now, before)
    ensures Bounded(g, s, before, k) ==> Bounded(g, s, now, k)
    ensures OfferedBelow(g, s, before, k, node) ==> OfferedBelow(g, s, now, k, node)
    ensures forall u: nat, i: nat :: IsEdge(g, u, i) && Offered(g, s, before, k, u, i) ==> Offered(g, s, now, k, u, i)
  {
    forall u: nat, i: nat | IsEdge(g, u, i) && Offered(g, s, before, k, u, i)
      ensures Offered(g, s, now, k, u, i)
    {
    }
  }

  /** Once every edge has been offered the best distance of `k` steps, `k + 1` steps are covered. */
  lemma {:induction false} RoundBounds(g: Graph, s: nat, dist: seq<Dist>, k: nat)
    requires WellFormed(g) && s < |g| == |dist| && Bounded(g, s, dist, k) && OfferedBelow(g, s, dist, k, |g|)
    ensures Bounded(g, s, dist, k + 1)
  {
    forall w: Walk | ValidWalk(g, s, w) && Len(w) <= k + 1 && End(g, s, w) < |dist|
      ensures AtMost(dist[End(g, s, w)], Weight(g, w))
    {
      if Len(w) == k + 1 {
        assert Offered(g, s, dist, k, w.node, w.edge);
      }
    }
  }

  /** Where a Bellman-Ford round stands: all edges before `(node, i)` have been handled. */
  ghost predicate RoundState(g: Graph, s: nat, dist: seq<Dist>, pred: seq<Pred>, hops: seq<nat>, k: nat, node: nat,
                             i: nat, updated: bool) {
    && WellFormed(g)
    && PredLinks(g, s, dist, pred, hops) && Attained(g, s, dist)
    && Bounded(g, s, dist, k) && OfferedBelow(g, s, dist, k, node)
    && OfferedFrom(g, s, dist, k, node, i)
    && (!updated ==> Quiet(g, s, dist, node) && QuietFrom(g, s, dist, node, i))
  }

  ghost predicate OfferedFrom(g: Graph, s: nat, dist: seq<Dist>, k: nat, node: nat, i: nat) {
    forall j: nat :: j < i && Usable(g, s, node, j) ==> Offered(g, s, dist, k, node, j)
  }

  ghost predicate QuietFrom(g: Graph, s: nat, dist: seq<Dist>, node: nat, i: nat)
    requires |dist| == |g|
  {
    forall j: nat :: j < i && Usable(g, s, node, j) ==> !Relaxable(g, dist, node, j)
  }

  lemma {:induction false} FirstRound(g: Graph, s: nat, dist: seq<Dist>, pred: seq<Pred>, hops: seq<nat>)
    requires WellFormed(g) && s < |g| && |dist| == |pred| == |hops| == |g|
    requires dist[s] == Fin(0.0) && forall v: nat :: v < |g| && v != s ==> dist[v].Inf?
    requires forall v: nat :: v < |g| ==> pred[v].None?
    ensures RoundState(g, s, dist, pred, hops, 0, 0, 0, true)
  {
    assert ValidWalk(g, s, Start) && End(g, s, Start) == s && Weight(g, Start) == 0.0;
    assert IsWalkWeight(g, s, s, 0.0);
  }

  lemma {:induction false} NextRound(g: Graph, s: nat, dist: seq<Dist>, pred: seq<Pred>, hops: seq<nat>, k: nat,
                                     updated: bool)
    requires RoundState(g, s, dist, pred, hops, k, |g|, 0, updated)
    ensures RoundState(g, s, dist, pred, hops, k + 1, 0, 0, true)
    ensures !updated ==> Quiet(g, s, dist, |g|)
  {
    RoundBounds(g, s, dist, k);
  }

  lemma {:induction false} RelaxStep(g: Graph, s: nat, dist: seq<Dist>, pred: seq<Pred>, hops: seq<nat>, k: nat,
                                     node: nat, i: nat, updated: bool)
    requires RoundState(g, s, dist, pred, hops, k, node, i, updated)
    requires Usable(g, s, node, i) && Relaxable(g, dist, node, i)
    ensures
      var v := g[node][i].to;
      RoundState(g, s, dist[v := Fin(dist[node].v + g[node][i].cost)], pred[v := Some((node, i))],
                 hops[v := hops[node] + 1], k, node, i + 1, true)
  {
    RelaxKeeps(g, s, dist, pred, hops, node, i);
    assert Paired(g, node, i);
    var v := g[node][i].to;
    var dist' := dist[v := Fin(dist[node].v + g[node][i].cost)];
    LoweredKeeps(g, s, dist', dist, k, node);
    OfferMade(g, s, dist', k, node, i);
  }

  lemma {:induction false} SkipStep(g: Graph, s: nat, dist: seq<Dist>, pred: seq<Pred>, hops: seq<nat>, k: nat,
                                    node: nat, i: nat, updated: bool)
    requires RoundState(g, s, dist, pred, hops, k, node, i, updated)
    requires IsEdge(g, node, i) && dist[node].Fin?
    requires Usable(g, s, node, i) ==> !Relaxable(g, dist, node, i)
    ensures RoundState(g, s, dist, pred, hops, k, node, i + 1, updated)
  {
    if Usable(g, s, node, i) {
      assert Paired(g, node, i);
      OfferMade(g, s, dist, k, node, i);
    }
  }

  lemma {:induction false} NodeDone(g: Graph, s: nat, dist: seq<Dist>, pred: seq<Pred>, hops: seq<nat>, k: nat,
                                    node: nat, i: nat, updated: bool)
    requires RoundState(g, s, dist, pred, hops, k, node, i, updated) && node < |g|
    requires i == |g[node]| || dist[node].Inf?
    ensures RoundState(g, s, dist, pred, hops, k, node + 1, 0, updated)
  {
    forall u: nat, j: nat | u < node + 1 && Usable(g, s, u, j)
      ensures Offered(g, s, dist, k, u, j)
    {
      if u == node && dist[u].Inf? {
        assert forall w: Walk ::
          ValidWalk(g, s, w) && Len(w) <= k && End(g, s, w) < |dist| ==> AtMost(dist[End(g, s, w)], Weight(g, w));
      }
    }
  }

  /** Covering `|g| - 1` steps settles all distances, because cycles never help. */
  lemma {:induction false} BoundedSettles(g: Graph, s: nat, dist: seq<Dist>, pi: seq<real>)
    requires WellFormed(g) && s < |g| == |dist| && Potential(g, pi) && Attained(g, s, dist)
    requires dist[s] == Fin(0.0)
    requires Bounded(g, s, dist, |g| - 1) || Quiet(g, s, dist, |g|)
    ensures Settled(g, dist)
  {
    forall u: nat, i: nat | IsEdge(g, u, i) && g[u][i].capacity > 0 && dist[u].Fin?
      ensures !Relaxable(g, dist, u, i)
    {
      assert Paired(g, u, i);
      assert IsWalkWeight(g, s, u, dist[u].v);
      var w :| ValidWalk(g, s, w) && End(g, s, w) == u && Weight(g, w) == dist[u].v;
      if g[u][i].to == s {
        WeightAbovePotential(g, s, w, pi);
        assert Slack(g, pi, u, i);
      } else if !Quiet(g, s, dist, |g|) {
        var r := ShortWalk(g, s, Step(w, u, i), pi);
        assert AtMost(dist[End(g, s, r)], Weight(g, r));
      }
    }
  }

  // ----- Augmentation -----

  /** A settled search: every predecessor edge is tight and hop counts fall by one along it. */
  ghost predicate TightTree(g: Graph, s: nat, dist: seq<Dist>, pred: seq<Pred>, hops: seq<nat>) {
    && |dist| == |pred| == |hops| == |g| && s < |g|
    && forall v: nat :: v < |g| && v != s && dist[v].Fin? ==> TightLink(g, dist, pred, hops, v)
  }

  ghost predicate TightLink(g: Graph, dist: seq<Dist>, pred: seq<Pred>, hops: seq<nat>, v: nat)
    requires |dist| == |pred| == |hops| == |g| && v < |g|
  {
    && pred[v].Some?
    && var (u, i) := pred[v].value;
    && IsEdge(g, u, i) && g[u][i].to == v && g[u][i].capacity > 0
    && hops[v] == hops[u] + 1
    && Tight(g, dist, u, i)
  }

  ghost predicate Tight(g: Graph, dist: seq<Dist>, u: nat, i: nat)
    requires |dist| == |g| && IsEdge(g, u, i)
  {
    && g[u][i].to < |g| && dist[u].Fin? && dist[g[u][i].to].Fin?
    && dist[u].v + g[u][i].cost == dist[g[u][i].to].v
  }

  /** The predecessor chain can neither be cyclic nor broken once the distances are settled. */
  lemma {:induction false} SettledTree(g: Graph, s: nat, dist: seq<Dist>, pred: seq<Pred>, hops: seq<nat>)
    requires WellFormed(g) && PredLinks(g, s, dist, pred, hops) && Settled(g, dist)
    ensures TightTree(g, s, dist, pred, hops)
  {
    forall v: nat | v < |g| && v != s && dist[v].Fin?
      ensures TightLink(g, dist, pred, hops, v)
    {
      assert PredLink(g, s, dist, pred, hops, v);
      var (u, i) := pred[v].value;
      assert !Relaxable(g, dist, u, i);
    }
  }

  /** Every edge of the predecessor chain from `s` to `v` has at least capacity `a`. */
  ghost predicate Fits(g: Graph, s: nat, dist: seq<Dist>, pred: seq<Pred>, hops: seq<nat>, a: nat, v: nat)
    requires TightTree(g, s, dist, pred, hops) && v < |g| && dist[v].Fin?
    decreases hops[v]
  {
    v != s ==>
      assert TightLink(g, dist, pred, hops, v);
      var (u, i) := pred[v].value;
      a <= g[u][i].capacity && Fits(g, s, dist, pred, hops, a, u)
  }

  /** For amounts up to `limit`, what fits up to `v` fits up to `t`. */
  ghost predicate FitsBeyond(g: Graph, s: nat, dist: seq<Dist>, pred: seq<Pred>, hops: seq<nat>, limit: nat, v: nat,
                             t: nat)
    requires TightTree(g, s, dist, pred, hops) && v < |g| && dist[v].Fin? && t < |g| && dist[t].Fin?
  {
    forall a: nat :: a <= limit && Fits(g, s, dist, pred, hops, a, v) ==> Fits(g, s, dist, pred, hops, a, t)
  }

  lemma {:induction false} FitsBeyondStep(g: Graph, s: nat, dist: seq<Dist>, pred: seq<Pred>, hops: seq<nat>,
                                          limit: nat, v: nat, t: nat)
    requires TightTree(g, s, dist, pred, hops) && v < |g| && dist[v].Fin? && t < |g| && dist[t].Fin? && v != s
    requires FitsBeyond(g, s, dist, pred, hops, limit, v, t) && TightLink(g, dist, pred, hops, v)
    ensures
      var (u, i) := pred[v].value;
      FitsBeyond(g, s, dist, pred, hops, if g[u][i].capacity < limit then g[u][i].capacity else limit, u, t)
  {
    var (u, i) := pred[v].value;
    forall a: nat | a <= limit && a <= g[u][i].capacity && Fits(g, s, dist, pred, hops, a, u)
      ensures Fits(g, s, dist, pred, hops, a, t)
    {
      assert Fits(g, s, dist, pred, hops, a, v);
    }
  }

  /** Pushing `a` units along edge `(u, i)`. */
  function Pushed(g: Graph, u: nat, i: nat, a: nat): Graph
    requires IsEdge(g, u, i) && Paired(g, u, i) && a <= g[u][i].capacity
  {
    var e := g[u][i];
    var g1 := g[u := g[u][i := e.(capacity := e.capacity - a)]];
    g1[e.to := g1[e.to][e.rev := g1[e.to][e.rev].(capacity := g1[e.to][e.rev].capacity + a)]]
  }

  lemma {:induction false} OutCapacityUpdate(es: seq<Edge>, i: nat, e: Edge)
    requires i < |es|
    ensures OutCapacity(es[i := e]) == OutCapacity(es) - es[i].capacity + e.capacity
  {
    var n := |es| - 1;
    if i < n {
      OutCapacityUpdate(es[..n], i, e);
      assert es[i := e][..n] == es[..n][i := e];
    } else {
      assert es[i := e][..n] == es[..n];
    }
  }

  lemma {:induction false} PushedNetwork(g: Graph, h: Graph, u: nat, i: nat, a: nat)
    requires WellFormed(g) && SameNetwork(g, h) && WellFormed(h) && IsEdge(h, u, i) && a <= h[u][i].capacity
    ensures Paired(h, u, i)
    ensures WellFormed(Pushed(h, u, i, a)) && SameNetwork(g, Pushed(h, u, i, a))
  {
    assert Paired(h, u, i);
    var k := Pushed(h, u, i, a);
    assert SameEdge(g, h, u, i);
    forall x: nat, y: nat | IsEdge(k, x, y)
      ensures Paired(k, x, y) && SameEdge(g, k, x, y)
    {
      assert IsEdge(g, x, y) && Paired(h, x, y) && SameEdge(g, h, x, y) && Paired(g, x, y);
    }
  }

  lemma PushedOut(h: Graph, u: nat, i: nat, a: nat, x: nat)
    requires IsEdge(h, u, i) && Paired(h, u, i) && a <= h[u][i].capacity && x < |h|
    ensures x < |Pushed(h, u, i, a)|
    ensures OutCapacity(Pushed(h, u, i, a)[x]) + (if x == u then a else 0)
         == OutCapacity(h[x]) + (if x == h[u][i].to then a else 0)
  {
    var e := h[u][i];
    OutCapacityUpdate(h[u], i, e.(capacity := e.capacity - a));
    var b := h[e.to][e.rev];
    OutCapacityUpdate(h[e.to], e.rev, b.(capacity := b.capacity + a));
  }

  /** New spare capacity only appears on reversed tight edges. */
  ghost predicate OnlyTightGrew(g: Graph, h: Graph, dist: seq<Dist>)
    requires |dist| == |g| == |h|
  {
    forall u: nat, i: nat :: IsEdge(h, u, i) && h[u][i].capacity > 0
      ==> Tight(h, dist, u, i) || (IsEdge(g, u, i) && g[u][i].capacity > 0)
  }

  /** The predecessor edges of nodes at most `limit` hops away have not been touched. */
  ghost predicate Untouched(g: Graph, h: Graph, s: nat, dist: seq<Dist>, pred: seq<Pred>, hops: seq<nat>, limit: nat)
    requires TightTree(g, s, dist, pred, hops) && SameLengths(g, h)
  {
    forall v: nat :: v < |g| && v != s && dist[v].Fin? && hops[v] <= limit ==>
      assert TightLink(g, dist, pred, hops, v);
      var (u, i) := pred[v].value;
      h[u][i].capacity == g[u][i].capacity
  }

  ghost predicate SameLengths(g: Graph, h: Graph) {
    |g| == |h| && forall u: nat :: u < |g| ==> |g[u]| == |h[u]|
  }

  /** Where the second walk along the predecessor chain stands after handling everything beyond `v`. */
  ghost predicate PushState(g: Graph, h: Graph, s: nat, t: nat, dist: seq<Dist>, pred: seq<Pred>, hops: seq<nat>,
                            a: nat, v: nat) {
    && WellFormed(g) && TightTree(g, s, dist, pred, hops)
    && WellFormed(h) && SameNetwork(g, h)
    && v < |g| && dist[v].Fin? && t < |g|
    && Fits(g, s, dist, pred, hops, a, v)
    && Untouched(g, h, s, dist, pred, hops, hops[v])
    && OnlyTightGrew(g, h, dist)
    && Moved(g, h, v, t, a)
  }

  /** Compared with `g`, `h` carries `a` more units from `v` to `t`. */
  ghost predicate Moved(g: Graph, h: Graph, v: nat, t: nat, a: nat) {
    && |g| == |h|
    && forall x: nat :: x < |g| ==> MovedAt(g, h, v, t, a, x)
  }

  ghost predicate MovedAt(g: Graph, h: Graph, v: nat, t: nat, a: nat, x: nat)
    requires x < |g| == |h|
  {
    OutCapacity(h[x]) + (if x == v then a else 0) == OutCapacity(g[x]) + (if x == t then a else 0)
  }

  lemma {:induction false} PushStart(g: Graph, s: nat, t: nat, dist: seq<Dist>, pred: seq<Pred>, hops: seq<nat>, a: nat)
    requires WellFormed(g) && TightTree(g, s, dist, pred, hops) && t < |g| && dist[t].Fin?
    requires Fits(g, s, dist, pred, hops, a, t)
    ensures PushState(g, g, s, t, dist, pred, hops, a, t)
  {
  }

  lemma {:induction false} PushStep(g: Graph, h: Graph, s: nat, t: nat, dist: seq<Dist>, pred: seq<Pred>,
                                    hops: seq<nat>, a: nat, v: nat)
    requires PushState(g, h, s, t, dist, pred, hops, a, v) && v != s && pred[v].Some?
    ensures
      var (u, i) := pred[v].value;
      && IsEdge(h, u, i) && Paired(h, u, i) && a <= h[u][i].capacity && h[u][i].to == v
      && dist[u].Fin? && hops[u] + 1 == hops[v]
      && PushState(g, Pushed(h, u, i, a), s, t, dist, pred, hops, a, u)
  {
    assert TightLink(g, dist, pred, hops, v);
    var (u, i) := pred[v].value;
    assert SameEdge(g, h, u, i);
    PushedNetwork(g, h, u, i, a);
    var k := Pushed(h, u, i, a);
    forall x: nat | x < |g|
      ensures MovedAt(g, k, u, t, a, x)
    {
      assert MovedAt(g, h, v, t, a, x);
      PushedOut(h, u, i, a, x);
    }
    PushGrew(g, h, dist, u, i, a);
    forall x: nat | x < |g| && x != s && dist[x].Fin? && hops[x] <= hops[u]
      ensures TightLink(g, dist, pred, hops, x)
      ensures var (p, j) := pred[x].value; k[p][j].capacity == g[p][j].capacity
    {
      assert TightLink(g, dist, pred, hops, x);
      var (p, j) := pred[x].value;
      assert SameEdge(g, h, p, j);
      assert h[p][j].capacity == g[p][j].capacity;
      assert (p, j) != (u, i);
      assert (p, j) != (v, h[u][i].rev);
    }
  }

  lemma {:induction false} PushGrew(g: Graph, h: Graph, dist: seq<Dist>, u: nat, i: nat, a: nat)
    requires |dist| == |g| && WellFormed(g) && WellFormed(h) && SameNetwork(g, h) && OnlyTightGrew(g, h, dist)
    requires IsEdge(h, u, i) && a <= h[u][i].capacity && Tight(h, dist, u, i)
    ensures Paired(h, u, i) && OnlyTightGrew(g, Pushed(h, u, i, a), dist)
  {
    assert Paired(h, u, i);
    var k := Pushed(h, u, i, a);
    forall x: nat, y: nat | IsEdge(k, x, y) && k[x][y].capacity > 0
      ensures Tight(k, dist, x, y) || (IsEdge(g, x, y) && g[x][y].capacity > 0)
    {
      assert IsEdge(h, x, y);
      if (x, y) == (h[u][i].to, h[u][i].rev) {
        assert Tight(k, dist, x, y);
      } else {
        assert h[x][y].capacity > 0;
        assert Tight(h, dist, x, y) ==> Tight(k, dist, x, y);
      }
    }
  }

  // ----- Potentials survive an augmentation -----

  /** Raising an unreached node's potential by `m` keeps edge `(u, i)` slack. */
  ghost predicate Covers(g: Graph, pi: seq<real>, dist: seq<Dist>, m: real, u: nat, i: nat)
    requires |pi| == |dist| == |g| && IsEdge(g, u, i)
  {
    var v := g[u][i].to;
    v < |g| && dist[v].Fin? ==> dist[v].v - g[u][i].cost - pi[u] <= m
  }

  lemma EdgeBound(g: Graph, pi: seq<real>, dist: seq<Dist>) returns (m: real)
    requires |pi| == |dist| == |g|
    ensures forall u: nat, i: nat :: IsEdge(g, u, i) ==> Covers(g, pi, dist, m, u, i)
  {
    m := 0.0;
    for u := 0 to |g|
      invariant forall x: nat, i: nat :: x < u && IsEdge(g, x, i) ==> Covers(g, pi, dist, m, x, i)
    {
      for i := 0 to |g[u]|
        invariant forall x: nat, j: nat ::
          (x < u || (x == u && j < i)) && IsEdge(g, x, j) ==> Covers(g, pi, dist, m, x, j)
      {
        var v := g[u][i].to;
        if v < |g| && dist[v].Fin? && dist[v].v - g[u][i].cost - pi[u] > m {
          m := dist[v].v - g[u][i].cost - pi[u];
        }
      }
    }
  }

  lemma {:induction false} AugmentedPotential(g: Graph, h: Graph, s: nat, dist: seq<Dist>)
    requires WellFormed(g) && WellFormed(h) && SameNetwork(g, h) && |dist| == |g|
    requires HasPotential(g) && Settled(g, dist) && OnlyTightGrew(g, h, dist)
    ensures HasPotential(h)
  {
    var pi :| Potential(g, pi);
    var m := EdgeBound(g, pi, dist);
    var rho := seq(|g|, v requires 0 <= v < |g| => if dist[v].Fin? then dist[v].v else pi[v] + m);
    forall u: nat, i: nat | IsEdge(h, u, i) && h[u][i].capacity > 0
      ensures Slack(h, rho, u, i)
    {
      assert SameEdge(g, h, u, i) && Paired(g, u, i);
      if !Tight(h, dist, u, i) {
        assert !Relaxable(g, dist, u, i) && Slack(g, pi, u, i) && Covers(g, pi, dist, m, u, i);
      }
    }
    assert Potential(h, rho);
  }

  // ----- What a whole run of send_flow achieves -----

  ghost predicate Cut(g: Graph, s: nat, t: nat, side: set<nat>) {
    && s in side && t !in side
    && forall u: nat, i: nat :: u in side && IsEdge(g, u, i) && g[u][i].capacity > 0 ==> g[u][i].to in side
  }

  datatype FlowError = NegativeCycle

  class MinCostFlow {
    var graph: Graph

    constructor (nodeCount: nat)
      ensures |graph| == nodeCount && (forall u: nat :: u < nodeCount ==> graph[u] == [])
      ensures WellFormed(graph)
    {
      graph := seq(nodeCount, _ => []);
    }

    /** Appends an edge and its zero-capacity partner. */
    method AddEdge(from: nat, to: nat, capacity: nat, cost: real)
      requires from < |graph| && to < |graph| && from != to
      modifies this
      ensures graph == WithEdge(old(graph), from, to, capacity, cost)
      ensures old(WellFormed(graph)) ==> WellFormed(graph)
    {
      var forwardRev := |graph[to]|;
      var backwardRev := |graph[from]|;
      graph := graph[from := graph[from] + [Edge(to, forwardRev, capacity, cost)]];
      graph := graph[to := graph[to] + [Edge(from, backwardRev, 0, -cost)]];
      WithEdgeWellFormed(old(graph), from, to, capacity, cost);
    }

    /** Offers the distance of one node along one of its edges. */
    method RelaxEdge(source: nat, node: nat, i: nat, ghost round: nat, dist0: seq<Dist>, pred0: seq<Pred>,
                     ghost hops0: seq<nat>, updated0: bool)
      returns (dist: seq<Dist>, pred: seq<Pred>, ghost hops: seq<nat>, updated: bool)
      requires RoundState(graph, source, dist0, pred0, hops0, round, node, i, updated0)
      requires IsEdge(graph, node, i) && dist0[node].Fin?
      ensures RoundState(graph, source, dist, pred, hops, round, node, i + 1, updated)
      ensures dist[node].Fin?
    {
      var edge := graph[node][i];
      EdgeInside(graph, node, i);
      if edge.capacity > 0 && edge.to != source && Improves(dist0[node].v + edge.cost, dist0[edge.to]) {
        RelaxStep(graph, source, dist0, pred0, hops0, round, node, i, updated0);
        dist := dist0[edge.to := Fin(dist0[node].v + edge.cost)];
        pred := pred0[edge.to := Some((node, i))];
        hops := hops0[edge.to := hops0[node] + 1];
        updated := true;
      } else {
        SkipStep(graph, source, dist0, pred0, hops0, round, node, i, updated0);
        dist, pred, hops, updated := dist0, pred0, hops0, updated0;
      }
    }

    /** Offers the distance of one node along all its edges. */
    method RelaxNode(source: nat, node: nat, ghost round: nat, dist0: seq<Dist>, pred0: seq<Pred>,
                     ghost hops0: seq<nat>, updated0: bool)
      returns (dist: seq<Dist>, pred: seq<Pred>, ghost hops: seq<nat>, updated: bool)
      requires RoundState(graph, source, dist0, pred0, hops0, round, node, 0, updated0)
      requires node < |graph| && dist0[node].Fin?
      ensures RoundState(graph, source, dist, pred, hops, round, node + 1, 0, updated)
    {
      dist, pred, hops, updated := dist0, pred0, hops0, updated0;
      var i := 0;
      while i < |graph[node]|
        invariant i <= |graph[node]|
        invariant RoundState(graph, source, dist, pred, hops, round, node, i, updated)
        invariant dist[node].Fin?
      {
        dist, pred, hops, updated := RelaxEdge(source, node, i, round, dist, pred, hops, updated);
        i := i + 1;
      }
      NodeDone(graph, source, dist, pred, hops, round, node, i, updated);
    }

    /** The Bellman-Ford rounds of one augmentation. */
    method ShortestPaths(source: nat) returns (dist: seq<Dist>, pred: seq<Pred>, ghost hops: seq<nat>)
      requires WellFormed(graph) && source < |graph|
      ensures PredLinks(graph, source, dist, pred, hops)
      ensures HasPotential(graph) ==> Settled(graph, dist)
    {
      var n := |graph|;
      dist := seq(n, v => if v == source then Fin(0.0) else Inf);
      pred := seq(n, _ => None);
      hops := seq(n, _ => 0);
      FirstRound(graph, source, dist, pred, hops);
      var round := 0;
      var quiet := false;
      while round < n - 1 && !quiet
        invariant round <= n - 1
        invariant RoundState(graph, source, dist, pred, hops, round, 0, 0, true)
        invariant quiet ==> Quiet(graph, source, dist, n)
      {
        var updated := false;
        for node := 0 to n
          invariant RoundState(graph, source, dist, pred, hops, round, node, 0, updated)
        {
          if dist[node].Fin? {
            dist, pred, hops, updated := RelaxNode(source, node, round, dist, pred, hops, updated);
          } else {
            NodeDone(graph, source, dist, pred, hops, round, node, 0, updated);
          }
        }
        NextRound(graph, source, dist, pred, hops, round, updated);
        quiet := !updated;
        round := round + 1;
      }
      if HasPotential(graph) {
        var pi :| Potential(graph, pi);
        BoundedSettles(graph, source, dist, pi);
      }
    }

    /** The program's scan for an edge that could still improve a distance. */
    method FindRelaxable(dist: seq<Dist>) returns (found: bool)
      requires WellFormed(graph) && |dist| == |graph|
      ensures found <==> !Settled(graph, dist)
    {
      for node := 0 to |graph|
        invariant forall u: nat, i: nat ::
          u < node && IsEdge(graph, u, i) && graph[u][i].capacity > 0 ==> !Relaxable(graph, dist, u, i)
      {
        if dist[node].Fin? {
          for i := 0 to |graph[node]|
            invariant forall j: nat :: j < i && graph[node][j].capacity > 0 ==> !Relaxable(graph, dist, node, j)
          {
            var edge := graph[node][i];
            assert Paired(graph, node, i);
            if edge.capacity > 0 && Improves(dist[node].v + edge.cost, dist[edge.to]) {
              assert Relaxable(graph, dist, node, i);
              return true;
            }
          }
        }
      }
      return false;
    }

    /** First walk along the predecessor chain: how much fits. The step count never reaches its limit. */
    method Bottleneck(source: nat, sink: nat, dist: seq<Dist>, pred: seq<Pred>, ghost hops: seq<nat>, wanted: nat)
      returns (augment: nat)
      requires TightTree(graph, source, dist, pred, hops) && sink < |graph| && dist[sink].Fin? && wanted > 0
      ensures 0 < augment <= wanted && Fits(graph, source, dist, pred, hops, augment, sink)
    {
      augment := wanted;
      var node: nat, steps: nat := sink, 0;
      ghost var passed: set<nat> := {};
      while node != source
        invariant 0 <= node < |graph| == |dist| == |hops| && 0 < augment <= wanted
        invariant dist[node].Fin?
        invariant FitsBeyond(graph, source, dist, pred, hops, augment, node, sink)
        invariant |passed| == steps && passed <= Below(|graph|)
        invariant forall x :: x in passed ==> hops[x] > hops[node]
        decreases hops[node]
      {
        assert TightLink(graph, dist, pred, hops, node);
        passed := passed + {node};
        steps := steps + 1;
        SubsetCard(passed, Below(|graph|));
        if steps > |graph| {
          assert false;
        }
        var (parent, edgeIndex) := pred[node].value;
        FitsBeyondStep(graph, source, dist, pred, hops, augment, node, sink);
        if graph[parent][edgeIndex].capacity < augment {
          augment := graph[parent][edgeIndex].capacity;
        }
        node := parent;
      }
    }

    /** Second walk along the predecessor chain: moves the capacity. */
    method Augment(source: nat, sink: nat, dist: seq<Dist>, pred: seq<Pred>, ghost hops: seq<nat>, augment: nat)
      requires WellFormed(graph) && TightTree(graph, source, dist, pred, hops) && sink < |graph| && dist[sink].Fin?
      requires Fits(graph, source, dist, pred, hops, augment, sink)
      modifies this
      ensures WellFormed(graph) && old(WellFormed(graph)) && SameNetwork(old(graph), graph)
      ensures OnlyTightGrew(old(graph), graph, dist)
      ensures Moved(old(graph), graph, source, sink, augment)
    {
      ghost var before := graph;
      var node := sink;
      PushStart(graph, source, sink, dist, pred, hops, augment);
      while node != source
        invariant PushState(before, graph, source, sink, dist, pred, hops, augment, node)
        decreases hops[node]
      {
        assert TightLink(before, dist, pred, hops, node);
        var (parent, edgeIndex) := pred[node].value;
        PushStep(before, graph, source, sink, dist, pred, hops, augment, node);
        graph := Pushed(graph, parent, edgeIndex, augment);
        node := parent;
      }
    }

    /**
     Sends up to `target` units from `source` to `sink` along successive cheapest paths.
     The "cyclic predecessor chain" error of the program has no counterpart: it cannot happen.
     */
    method SendFlow(source: nat, sink: nat, target: nat) returns (r: Result<nat, FlowError>)
      requires WellFormed(graph) && source < |graph| && sink < |graph|
      modifies this
      ensures WellFormed(graph) && old(WellFormed(graph)) && SameNetwork(old(graph), graph)
      ensures old(HasPotential(graph)) ==> r.Ok? && HasPotential(graph) && NoNegativeCycle(graph)
      ensures r.Ok? ==> r.value <= target && Moved(old(graph), graph, source, sink, r.value)
      ensures old(HasPotential(graph)) && r.value < target && source != sink
        ==> exists side: set<nat> :: Cut(graph, source, sink, side)
    {
      ghost var first := graph;
      var sent := 0;
      while sent < target
        invariant sent <= target
        invariant WellFormed(graph) && SameNetwork(first, graph) && Moved(first, graph, source, sink, sent)
        invariant HasPotential(first) ==> HasPotential(graph)
      {
        var dist, pred, hops := ShortestPaths(source);
        if pred[sink].None? {
          if HasPotential(first) {
            PotentialExcludesNegativeCycles(graph);
            if source != sink {
              NoPathCut(graph, source, sink, dist, pred, hops);
            }
          }
          return Ok(sent);
        }
        var relaxable := FindRelaxable(dist);
        if relaxable {
          return Err(NegativeCycle);
        }
        SettledTree(graph, source, dist, pred, hops);
        var augment := Bottleneck(source, sink, dist, pred, hops, target - sent);
        ghost var before := graph;
        Augment(source, sink, dist, pred, hops, augment);
        SameNetworkTransitive(first, before, graph);
        MovedAdds(first, before, graph, source, sink, sent, augment);
        if HasPotential(first) {
          AugmentedPotential(before, graph, source, dist);
        }
        sent := sent + augment;
      }
      if HasPotential(first) {
        PotentialExcludesNegativeCycles(graph);
      }
      return Ok(sent);
    }
  }

  lemma {:induction false} NoPathCut(g: Graph, s: nat, t: nat, dist: seq<Dist>, pred: seq<Pred>, hops: seq<nat>)
    requires WellFormed(g) && PredLinks(g, s, dist, pred, hops) && Settled(g, dist)
    requires s < |g| && t < |g| && s != t && pred[t].None?
    ensures exists side: set<nat> :: Cut(g, s, t, side)
  {
    var side := set v: nat | v in Below(|g|) && dist[v].Fin?;
    assert dist[t].Fin? ==> PredLink(g, s, dist, pred, hops, t);
    forall u: nat, i: nat | u in side && IsEdge(g, u, i) && g[u][i].capacity > 0
      ensures g[u][i].to in side
    {
      assert Paired(g, u, i);
      assert !Relaxable(g, dist, u, i);
    }
    assert Cut(g, s, t, side);
  }

  lemma {:induction false} SameNetworkTransitive(f: Graph, g: Graph, h: Graph)
    requires WellFormed(f) && WellFormed(g) && SameNetwork(f, g) && SameNetwork(g, h)
    ensures SameNetwork(f, h)
  {
    forall u: nat, i: nat | IsEdge(f, u, i)
      ensures SameEdge(f, h, u, i)
    {
      assert Paired(f, u, i) && SameEdge(f, g, u, i) && Paired(g, u, i) && SameEdge(g, h, u, i);
    }
  }

  lemma {:induction false} MovedAdds(f: Graph, g: Graph, h: Graph, s: nat, t: nat, a: nat, b: nat)
    requires Moved(f, g, s, t, a) && Moved(g, h, s, t, b)
    ensures Moved(f, h, s, t, a + b)
  {
    forall x: nat {:trigger MovedAt(f, h, s, t, a + b, x)} | x < |f|
      ensures MovedAt(f, h, s, t, a + b, x)
    {
      assert MovedAt(f, g, s, t, a, x) && MovedAt(g, h, s, t, b, x);
    }
  }

  function WithEdge(g: Graph, from: nat, to: nat, capacity: nat, cost: real): Graph
    requires from < |g| && to < |g| && from != to
  {
    g[from := g[from] + [Edge(to, |g[to]|, capacity, cost)]]
     [to := g[to] + [Edge(from, |g[from]|, 0, -cost)]]
  }

  lemma WithEdgeWellFormed(g: Graph, from: nat, to: nat, capacity: nat, cost: real)
    requires from < |g| && to < |g| && from != to
    ensures WellFormed(g) ==> WellFormed(WithEdge(g, from, to, capacity, cost))
  {
    var h := WithEdge(g, from, to, capacity, cost);
    if WellFormed(g) {
      forall u: nat, i: nat | IsEdge(h, u, i)
        ensures Paired(h, u, i)
      {
        if IsEdge(g, u, i) {
          assert Paired(g, u, i);
        }
      }
    }
  }
}
