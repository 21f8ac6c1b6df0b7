/** A flow that leaves no negative residual cycle is the cheapest of all flows that move the same amount. */
module FlowOptimality {
  import opened Flow = MinCostFlow

  type EdgeId = (nat, nat)

  // ----- Sums over finite sets of edges -----

  ghost function SumOver(ids: set<EdgeId>, f: EdgeId -> real): real {
    if ids == {} then 0.0
    else
      var e :| e in ids;
      f(e) + SumOver(ids - {e}, f)
  }

  /** The order of summation does not matter. */
  lemma {:induction false} SumWithout(ids: set<EdgeId>, f: EdgeId -> real, e: EdgeId)
    requires e in ids
    ensures SumOver(ids, f) == f(e) + SumOver(ids - {e}, f)
  {
    var d :| d in ids && SumOver(ids, f) == f(d) + SumOver(ids - {d}, f);
    if d != e {
      SumWithout(ids - {d}, f, e);
      SumWithout(ids - {e}, f, d);
      assert ids - {d} - {e} == ids - {e} - {d};
    }
  }

  lemma {:induction false} SumPlus(ids: set<EdgeId>, f: EdgeId -> real, g: EdgeId -> real, h: EdgeId -> real)
    requires forall e :: e in ids ==> h(e) == f(e) + g(e)
    ensures SumOver(ids, h) == SumOver(ids, f) + SumOver(ids, g)
  {
    if ids != {} {
      var e :| e in ids;
      SumWithout(ids, f, e);
      SumWithout(ids, g, e);
      SumWithout(ids, h, e);
      SumPlus(ids - {e}, f, g, h);
    }
  }

  // ----- Edges and their partners -----

  ghost predicate AllEdges(g: Graph, ids: set<EdgeId>) {
    forall u: nat, i: nat :: (u, i) in ids <==> IsEdge(g, u, i)
  }

  ghost function Partner(g: Graph, e: EdgeId): EdgeId {
    if IsEdge(g, e.0, e.1) then (g[e.0][e.1].to, g[e.0][e.1].rev) else e
  }

  ghost predicate ClosedUnderPartner(g: Graph, ids: set<EdgeId>) {
    forall u: nat, i: nat :: (u, i) in ids ==> IsEdge(g, u, i) && Partner(g, (u, i)) in ids
  }

  /** If every value is the negated value of the partner under the other function, so are the sums. */
  lemma {:induction false} SumOverPartners(g: Graph, ids: set<EdgeId>, f: EdgeId -> real, h: EdgeId -> real)
    requires WellFormed(g) && ClosedUnderPartner(g, ids)
    requires forall u: nat, i: nat :: (u, i) in ids ==> f((u, i)) == -h(Partner(g, (u, i)))
    ensures SumOver(ids, f) == -SumOver(ids, h)
  {
    if ids != {} {
      var e :| e in ids;
      var (u, i) := e;
      var p := Partner(g, e);
      assert Paired(g, u, i) && Paired(g, p.0, p.1);
      assert p != e && Partner(g, p) == e;
      var rest := ids - {e} - {p};
      SumWithout(ids, f, e);
      SumWithout(ids - {e}, f, p);
      SumWithout(ids, h, e);
      SumWithout(ids - {e}, h, p);
      assert f((u, i)) == -h(p) && f((p.0, p.1)) == -h(e);
      forall v: nat, j: nat | (v, j) in rest
        ensures IsEdge(g, v, j) && Partner(g, (v, j)) in rest
      {
        assert IsEdge(g, v, j) && Paired(g, v, j) && Partner(g, (v, j)) in ids;
        assert Partner(g, Partner(g, (v, j))) == (v, j);
      }
      SumOverPartners(g, rest, f, h);
    }
  }

  // ----- Changes between two flows -----

  /** How much capacity `h` has on an edge beyond `g`. */
  ghost function Gain(g: Graph, h: Graph, e: EdgeId): real {
    if IsEdge(g, e.0, e.1) && IsEdge(h, e.0, e.1)
      then h[e.0][e.1].capacity as real - g[e.0][e.1].capacity as real else 0.0
  }

  ghost function CostOf(g: Graph, e: EdgeId): real {
    if IsEdge(g, e.0, e.1) then g[e.0][e.1].cost else 0.0
  }

  ghost function At(pi: seq<real>, u: nat): real {
    if u < |pi| then pi[u] else 0.0
  }

  /**
   What it costs to get from the capacities of `g` to those of `h`. Every unit moved along an edge
   takes one from it and gives one to its partner, whose cost is opposite, so all edges together
   count it twice.
   */
  ghost function MoveCost(g: Graph, h: Graph, ids: set<EdgeId>): real {
    -SumOver(ids, CostTerm(g, h)) / 2.0
  }

  ghost function CostTerm(g: Graph, h: Graph): EdgeId -> real {
    e => Gain(g, h, e) * CostOf(g, e)
  }

  ghost function TailTerm(g: Graph, h: Graph, pi: seq<real>): EdgeId -> real {
    e => Gain(g, h, e) * At(pi, e.0)
  }

  ghost function HeadTerm(g: Graph, h: Graph, pi: seq<real>): EdgeId -> real {
    e => Gain(g, h, e) * At(pi, Partner(g, e).0)
  }

  ghost function ReducedTerm(g: Graph, h: Graph, pi: seq<real>): EdgeId -> real {
    e => Gain(g, h, e) * (CostOf(g, e) + At(pi, e.0) - At(pi, Partner(g, e).0))
  }

  lemma GainOfPartner(g: Graph, h: Graph, u: nat, i: nat)
    requires WellFormed(g) && SameNetwork(g, h) && IsEdge(g, u, i)
    ensures Gain(g, h, Partner(g, (u, i))) == -Gain(g, h, (u, i))
    ensures CostOf(g, Partner(g, (u, i))) == -CostOf(g, (u, i))
  {
    assert Paired(g, u, i) && SameEdge(g, h, u, i);
  }

  ghost predicate EdgesBefore(g: Graph, ids: set<EdgeId>, n: nat, m: nat) {
    forall u: nat, i: nat :: (u, i) in ids <==> IsEdge(g, u, i) && (u < n || (u == n && i < m))
  }

  /** The net gain of the first `m` edges of node `n`. */
  ghost function NodeGain(g: Graph, h: Graph, n: nat, m: nat): real {
    if n < |g| && n < |h| && m <= |g[n]| && m <= |h[n]|
    then OutCapacity(h[n][..m]) as real - OutCapacity(g[n][..m]) as real else 0.0
  }

  ghost function NodeTerm(g: Graph, h: Graph, pi: seq<real>, n: nat, m: nat): real {
    NodeGain(g, h, n, m) * At(pi, n)
  }

  lemma NodeGainStep(g: Graph, h: Graph, pi: seq<real>, n: nat, m: nat)
    requires WellFormed(g) && SameNetwork(g, h) && n < |g| && m < |g[n]|
    ensures NodeTerm(g, h, pi, n, m + 1) == NodeTerm(g, h, pi, n, m) + TailTerm(g, h, pi)((n, m))
  {
    assert g[n][..m + 1][..m] == g[n][..m] && h[n][..m + 1][..m] == h[n][..m];
    assert NodeGain(g, h, n, m + 1) == NodeGain(g, h, n, m) + Gain(g, h, (n, m));
    Distribute(NodeGain(g, h, n, m), Gain(g, h, (n, m)), At(pi, n));
  }

  lemma NodeGainWhole(g: Graph, h: Graph, pi: seq<real>, n: nat)
    requires WellFormed(g) && SameNetwork(g, h) && n < |g| && OutCapacity(g[n]) == OutCapacity(h[n])
    ensures NodeTerm(g, h, pi, n, |g[n]|) == 0.0
  {
    assert g[n][..|g[n]|] == g[n] && h[n][..|g[n]|] == h[n];
  }

  lemma NodeGainNone(g: Graph, h: Graph, pi: seq<real>, n: nat)
    ensures NodeTerm(g, h, pi, n, 0) == 0.0
  {
  }

  lemma LastEdge(g: Graph, ids: set<EdgeId>, n: nat, m: nat)
    requires n < |g| && m < |g[n]| && EdgesBefore(g, ids, n, m + 1)
    ensures (n, m) in ids && EdgesBefore(g, ids - {(n, m)}, n, m)
  {
  }

  lemma PreviousNode(g: Graph, ids: set<EdgeId>, n: nat)
    requires n < |g| && EdgesBefore(g, ids, n + 1, 0)
    ensures EdgesBefore(g, ids, n, |g[n]|)
  {
  }

  lemma NoEdgesYet(g: Graph, ids: set<EdgeId>)
    requires EdgesBefore(g, ids, 0, 0)
    ensures ids == {}
  {
    forall e: EdgeId
      ensures e !in ids
    {
      var (u, i) := e;
      assert (u, i) !in ids;
    }
  }

  /** Weighted by the potential of their tail, the gains of a node's edges cancel. */
  lemma {:induction false} TailSum(g: Graph, h: Graph, pi: seq<real>, ids: set<EdgeId>, n: nat, m: nat)
    requires WellFormed(g) && SameNetwork(g, h) && EdgesBefore(g, ids, n, m)
    requires n <= |g| && (if n < |g| then m <= |g[n]| else m == 0)
    requires forall u: nat :: u < |g| ==> OutCapacity(g[u]) == OutCapacity(h[u])
    ensures SumOver(ids, TailTerm(g, h, pi)) == NodeTerm(g, h, pi, n, m)
    decreases n, m
  {
    if m > 0 {
      LastEdge(g, ids, n, m - 1);
      TailSum(g, h, pi, ids - {(n, m - 1)}, n, m - 1);
      SumWithout(ids, TailTerm(g, h, pi), (n, m - 1));
      NodeGainStep(g, h, pi, n, m - 1);
    } else {
      NodeGainNone(g, h, pi, n);
      if n > 0 {
        PreviousNode(g, ids, n - 1);
        TailSum(g, h, pi, ids, n - 1, |g[n - 1]|);
        NodeGainWhole(g, h, pi, n - 1);
      } else {
        NoEdgesYet(g, ids);
      }
    }
  }

  lemma Distribute(a: real, b: real, p: real)
    ensures (a + b) * p == a * p + b * p
  {
  }

  /** Cost plus tail equals reduced cost plus head, edge by edge. */
  lemma {:induction false} TermsBalance(g: Graph, h: Graph, pi: seq<real>, ids: set<EdgeId>)
    ensures SumOver(ids, CostTerm(g, h)) + SumOver(ids, TailTerm(g, h, pi))
         == SumOver(ids, ReducedTerm(g, h, pi)) + SumOver(ids, HeadTerm(g, h, pi))
  {
    var both := (e: EdgeId) => CostTerm(g, h)(e) + TailTerm(g, h, pi)(e);
    forall e | e in ids
      ensures both(e) == ReducedTerm(g, h, pi)(e) + HeadTerm(g, h, pi)(e)
    {
      EdgeTermsBalance(g, h, pi, e);
    }
    SumPlus(ids, CostTerm(g, h), TailTerm(g, h, pi), both);
    SumPlus(ids, ReducedTerm(g, h, pi), HeadTerm(g, h, pi), both);
  }

  lemma EdgeTermsBalance(g: Graph, h: Graph, pi: seq<real>, e: EdgeId)
    ensures CostTerm(g, h)(e) + TailTerm(g, h, pi)(e) == ReducedTerm(g, h, pi)(e) + HeadTerm(g, h, pi)(e)
  {
    var gain, c, t, d := Gain(g, h, e), CostOf(g, e), At(pi, e.0), At(pi, Partner(g, e).0);
    Balance(gain, c, t, d);
  }

  lemma Balance(gain: real, c: real, t: real, d: real)
    ensures gain * c + gain * t == gain * (c + t - d) + gain * d
  {
  }

  /** No other flow of the same value is cheaper than one with a potential. */
  lemma {:induction false} NoCheaperMove(g: Graph, h: Graph, ids: set<EdgeId>)
    requires WellFormed(g) && SameNetwork(g, h) && AllEdges(g, ids) && HasPotential(g)
    requires forall u: nat :: u < |g| ==> OutCapacity(g[u]) == OutCapacity(h[u])
    ensures MoveCost(g, h, ids) >= 0.0
  {
    var pi :| Potential(g, pi);
    TailSum(g, h, pi, ids, |g|, 0);
    NodeGainNone(g, h, pi, |g|);
    forall u: nat, i: nat | (u, i) in ids
      ensures IsEdge(g, u, i) && Partner(g, (u, i)) in ids
    {
      assert Paired(g, u, i);
    }
    forall u: nat, i: nat | (u, i) in ids
      ensures HeadTerm(g, h, pi)((u, i)) == -TailTerm(g, h, pi)(Partner(g, (u, i)))
    {
      HeadIsPartnerTail(g, h, pi, u, i);
    }
    SumOverPartners(g, ids, HeadTerm(g, h, pi), TailTerm(g, h, pi));
    forall u: nat, i: nat | (u, i) in ids
      ensures ReducedTerm(g, h, pi)((u, i)) <= 0.0
    {
      ReducedGain(g, h, pi, u, i);
    }
    SumZeroBound(ids, ReducedTerm(g, h, pi));
    TermsBalance(g, h, pi, ids);
  }

  lemma {:induction false} HeadIsPartnerTail(g: Graph, h: Graph, pi: seq<real>, u: nat, i: nat)
    requires WellFormed(g) && SameNetwork(g, h) && IsEdge(g, u, i)
    ensures HeadTerm(g, h, pi)((u, i)) == -TailTerm(g, h, pi)(Partner(g, (u, i)))
  {
    GainOfPartner(g, h, u, i);
    var gain, d := Gain(g, h, (u, i)), At(pi, Partner(g, (u, i)).0);
    assert gain * d == -((-gain) * d);
  }

  lemma {:induction false} SumZeroBound(ids: set<EdgeId>, f: EdgeId -> real)
    requires forall u: nat, i: nat :: (u, i) in ids ==> f((u, i)) <= 0.0
    ensures SumOver(ids, f) <= 0.0
  {
    if ids != {} {
      var e :| e in ids;
      assert (e.0, e.1) in ids;
      SumWithout(ids, f, e);
      SumZeroBound(ids - {e}, f);
    }
  }

  lemma ProductSign(a: real, b: real)
    requires (a >= 0.0 && b <= 0.0) || (a <= 0.0 && b >= 0.0)
    ensures a * b <= 0.0
  {
  }

  /** Capacity can only be gained against, and lost along, the direction the potential allows. */
  lemma {:induction false} ReducedGain(g: Graph, h: Graph, pi: seq<real>, u: nat, i: nat)
    requires WellFormed(g) && SameNetwork(g, h) && Potential(g, pi) && IsEdge(g, u, i)
    ensures ReducedTerm(g, h, pi)((u, i)) <= 0.0
  {
    assert Paired(g, u, i) && SameEdge(g, h, u, i);
    var p := Partner(g, (u, i));
    var gain := Gain(g, h, (u, i));
    var slack := CostOf(g, (u, i)) + At(pi, u) - At(pi, p.0);
    if gain < 0.0 {
      assert Slack(g, pi, u, i);
    } else if gain > 0.0 {
      assert g[p.0][p.1].capacity > 0;
      assert Slack(g, pi, p.0, p.1);
    }
    ProductSign(gain, slack);
  }

  /** Moving from `g0` to `h` costs as much as moving to `g` first and on to `h` from there. */
  lemma {:induction false} MoveCostAdds(g0: Graph, g: Graph, h: Graph, ids: set<EdgeId>)
    requires WellFormed(g0) && WellFormed(g) && SameNetwork(g0, g) && SameNetwork(g0, h) && AllEdges(g0, ids)
    ensures AllEdges(g, ids) && MoveCost(g0, h, ids) == MoveCost(g0, g, ids) + MoveCost(g, h, ids)
  {
    forall e | e in ids
      ensures Gain(g0, h, e) * CostOf(g0, e) == Gain(g0, g, e) * CostOf(g0, e) + Gain(g, h, e) * CostOf(g, e)
    {
      var (u, i) := e;
      assert IsEdge(g0, u, i) && SameEdge(g0, g, u, i) && SameEdge(g0, h, u, i);
      Distribute(Gain(g0, g, e), Gain(g, h, e), CostOf(g0, e));
    }
    SumPlus(ids, CostTerm(g0, g), CostTerm(g, h), CostTerm(g0, h));
  }

  lemma {:induction false} SameNetworkFrom(g0: Graph, g: Graph, h: Graph)
    requires WellFormed(g0) && WellFormed(g) && SameNetwork(g0, g) && SameNetwork(g0, h)
    ensures SameNetwork(g, h)
  {
    forall u: nat, i: nat | IsEdge(g, u, i)
      ensures SameEdge(g, h, u, i)
    {
      assert Paired(g0, u, i) && SameEdge(g0, g, u, i) && SameEdge(g0, h, u, i) && Paired(g, u, i);
    }
  }

  /**
   The flow that `SendFlow` leaves behind is the cheapest one of its value: any other way `h` of
   moving the same number of units from `s` to `t` through the network `g0` costs at least as much.
   */
  lemma {:induction false} SentFlowIsCheapest(g0: Graph, g: Graph, h: Graph, s: nat, t: nat, sent: nat,
                                              ids: set<EdgeId>)
    requires WellFormed(g0) && WellFormed(g) && SameNetwork(g0, g) && SameNetwork(g0, h) && AllEdges(g0, ids)
    requires Moved(g0, g, s, t, sent) && Moved(g0, h, s, t, sent) && HasPotential(g)
    ensures MoveCost(g0, g, ids) <= MoveCost(g0, h, ids)
  {
    SameNetworkFrom(g0, g, h);
    forall u: nat | u < |g|
      ensures OutCapacity(g[u]) == OutCapacity(h[u])
    {
      assert MovedAt(g0, g, s, t, sent, u) && MovedAt(g0, h, s, t, sent, u);
    }
    MoveCostAdds(g0, g, h, ids);
    NoCheaperMove(g, h, ids);
  }
}
