/** The one-pass quantile summary of an axis planner: insertion, compression, and the choice of a cut. */
module QuantileSummary {
  // Coordinates are compared in the total order of their bit patterns, so they are plain integers here.

  import opened Wrappers
  import Boundaries

  const GK_QUANTILE_RANK_ERROR_DENOMINATOR: nat := 1024

  type Coordinate = int

  /** A retained value, the ranks since its predecessor, and the slack of its own rank. */
  datatype Entry = Entry(value: Coordinate, gap: nat, delta: nat)

  function Gaps(s: seq<Entry>): nat {
    if s == [] then 0 else Gaps(s[..|s| - 1]) + s[|s| - 1].gap
  }

  /** The smallest rank entry `i` can have. */
  function MinRank(s: seq<Entry>, i: nat): nat
    requires i < |s|
  {
    Gaps(s[..i + 1])
  }

  predicate Sorted(xs: seq<Coordinate>) {
    forall i, j :: 0 <= i < j < |xs| ==> xs[i] <= xs[j]
  }

  /** `v` is the value of some rank between `lo` and `hi`; ranks count from one. */
  ghost predicate HasRank(sorted: seq<Coordinate>, v: Coordinate, lo: int, hi: int) {
    exists r: nat :: IsRank(sorted, v, r) && lo <= r <= hi
  }

  predicate IsRank(sorted: seq<Coordinate>, v: Coordinate, r: nat) {
    1 <= r <= |sorted| && sorted[r - 1] == v
  }

  function Threshold(n: nat, denominator: nat): nat
    requires denominator > 0
  {
    var t := n * 2 / denominator;
    if t < 1 then 1 else t
  }

  function RankError(n: nat, denominator: nat): nat
    requires denominator > 0
  {
    (n + denominator - 1) / denominator
  }

  lemma CancelLess(x: int, y: int, d: nat)
    requires d > 0 && d * x < d * y
    ensures x < y
  {
  }

  lemma DivMonotone(a: nat, b: nat, d: nat)
    requires a <= b && d > 0
    ensures a / d <= b / d
  {
    var q, r := a / d, b / d;
    assert d * q <= a && b < d * (r + 1);
    CancelLess(q, r + 1, d);
  }

  lemma ThresholdGrows(n: nat, d: nat)
    requires d > 0
    ensures Threshold(n, d) <= Threshold(n + 1, d)
  {
    DivMonotone(n * 2, (n + 1) * 2, d);
  }

  lemma ThresholdBelowErrors(n: nat, d: nat)
    requires d > 0 && n > 0
    ensures 1 <= RankError(n, d) && Threshold(n, d) <= 2 * RankError(n, d)
    ensures n < d ==> Threshold(n, d) == 1
  {
    var e := RankError(n, d);
    DivMonotone(d, n + d - 1, d);
    assert d / d == 1;
    assert (n + d - 1) < d * (e + 1);
    assert n <= d * e;
    assert d * (n * 2 / d) <= n * 2;
    assert d * (2 * e + 1) == 2 * (d * e) + d;
    CancelLess(n * 2 / d, 2 * e + 1, d);
    if n < d {
      CancelLess(n * 2 / d, 2, d);
    }
  }

  /** Everything the summary promises about the observed values in sorted order. */
  ghost predicate Summarizes(s: seq<Entry>, sorted: seq<Coordinate>, threshold: nat) {
    && Sorted(sorted)
    && Gaps(s) == |sorted|
    && (|s| == 0 <==> |sorted| == 0)
    && (|s| > 0 ==> s[0].gap == 1 && s[0].delta == 0 && s[|s| - 1].delta == 0)
    && (forall i: nat, j: nat :: i < j < |s| ==> s[i].value <= s[j].value)
    && forall i: nat :: i < |s| ==> EntryOk(s, sorted, threshold, i)
  }

  ghost predicate EntryOk(s: seq<Entry>, sorted: seq<Coordinate>, threshold: nat, i: nat)
    requires i < |s|
  {
    && s[i].gap >= 1
    && s[i].gap + s[i].delta <= threshold
    && HasRank(sorted, s[i].value, MinRank(s, i), MinRank(s, i) + s[i].delta)
  }

  // ----- Insertion -----

  /** How many values are at most `v`: where `v` goes in sorted order. */
  function AtMost(sorted: seq<Coordinate>, v: Coordinate): (r: nat)
    requires Sorted(sorted)
    ensures r <= |sorted|
    ensures forall i :: 0 <= i < |sorted| ==> (i < r <==> sorted[i] <= v)
  {
    if sorted == [] then 0
    else if sorted[|sorted| - 1] <= v then |sorted|
    else AtMost(sorted[..|sorted| - 1], v)
  }

  function InsertSorted(sorted: seq<Coordinate>, v: Coordinate): (r: seq<Coordinate>)
    requires Sorted(sorted)
    ensures Sorted(r) && |r| == |sorted| + 1 && multiset(r) == multiset(sorted) + multiset{v}
  {
    var u := AtMost(sorted, v);
    assert sorted == sorted[..u] + sorted[u..];
    sorted[..u] + [v] + sorted[u..]
  }

  lemma {:induction false} GapsConcat(a: seq<Entry>, b: seq<Entry>)
    ensures Gaps(a + b) == Gaps(a) + Gaps(b)
  {
    if b == [] {
      assert a + b == a;
    } else {
      GapsConcat(a, b[..|b| - 1]);
      assert (a + b)[..|a + b| - 1] == a + b[..|b| - 1];
    }
  }

  lemma GapsSingle(e: Entry)
    ensures Gaps([e]) == e.gap
  {
    assert [e][..0] == [];
  }

  lemma RankShifts(sorted: seq<Coordinate>, v: Coordinate, w: Coordinate, lo: int, hi: int)
    requires Sorted(sorted) && HasRank(sorted, w, lo, hi)
    ensures w <= v ==> HasRank(InsertSorted(sorted, v), w, lo, hi)
    ensures w > v ==> HasRank(InsertSorted(sorted, v), w, lo + 1, hi + 1)
  {
    var r: nat :| IsRank(sorted, w, r) && lo <= r <= hi;
    var t := InsertSorted(sorted, v);
    if w <= v {
      assert IsRank(t, w, r);
    } else {
      assert IsRank(t, w, r + 1);
    }
  }

  function Insert(s: seq<Entry>, p: nat, e: Entry): seq<Entry>
    requires p <= |s|
  {
    s[..p] + [e] + s[p..]
  }

  lemma InsertMinRank(s: seq<Entry>, p: nat, e: Entry, i: nat)
    requires p <= |s| && i <= |s|
    ensures i < p ==> MinRank(Insert(s, p, e), i) == MinRank(s, i)
    ensures i == p ==> MinRank(Insert(s, p, e), i) == Gaps(s[..p]) + e.gap
    ensures i > p ==> MinRank(Insert(s, p, e), i) == MinRank(s, i - 1) + e.gap
  {
    var t := Insert(s, p, e);
    if i < p {
      assert t[..i + 1] == s[..i + 1];
    } else {
      GapsSingle(e);
      GapsConcat(s[..p], [e]);
      if i == p {
        assert t[..i + 1] == s[..p] + [e];
      } else {
        assert t[..i + 1] == s[..p] + [e] + s[p..i];
        GapsConcat(s[..p] + [e], s[p..i]);
        GapsConcat(s[..p], s[p..i]);
        assert s[..i] == s[..p] + s[p..i];
      }
    }
  }

  lemma GapsInsert(s: seq<Entry>, p: nat, e: Entry)
    requires p <= |s|
    ensures Gaps(Insert(s, p, e)) == Gaps(s) + e.gap
  {
    GapsSingle(e);
    GapsConcat(s[..p], [e]);
    GapsConcat(s[..p] + [e], s[p..]);
    GapsConcat(s[..p], s[p..]);
    assert s == s[..p] + s[p..];
  }

  /** Between two retained entries the rank of a new value is known up to the threshold. */
  lemma {:induction false} NewRank(s: seq<Entry>, sorted: seq<Coordinate>, threshold: nat, p: nat, v: Coordinate)
    requires Summarizes(s, sorted, threshold) && p <= |s|
    requires forall i: nat :: i < |s| ==> (i < p <==> s[i].value <= v)
    ensures Gaps(s[..p]) <= AtMost(sorted, v)
    ensures p == 0 || p == |s| ==> AtMost(sorted, v) == Gaps(s[..p])
    ensures 0 < p < |s| ==> AtMost(sorted, v) < Gaps(s[..p]) + threshold
  {
    var u := AtMost(sorted, v);
    if p > 0 {
      assert EntryOk(s, sorted, threshold, p - 1);
      var r: nat :| IsRank(sorted, s[p - 1].value, r) && MinRank(s, p - 1) <= r;
    } else if p < |s| {
      assert s[..0] == [] && s[..1] == [s[0]];
      GapsSingle(s[0]);
      assert EntryOk(s, sorted, threshold, 0);
      assert HasRank(sorted, s[0].value, 1, 1);
    }
    if p == |s| && p > 0 {
      assert s[..p] == s;
    } else if p < |s| {
      assert EntryOk(s, sorted, threshold, p);
      var r: nat :| IsRank(sorted, s[p].value, r) && r <= MinRank(s, p) + s[p].delta;
      assert s[..p + 1] == s[..p] + [s[p]];
      GapsConcat(s[..p], [s[p]]);
      GapsSingle(s[p]);
    }
  }

  lemma {:induction false} InsertEntryOk(s: seq<Entry>, sorted: seq<Coordinate>, earlier: nat, threshold: nat,
                                         p: nat, e: Entry, i: nat)
    requires Summarizes(s, sorted, earlier) && 1 <= earlier <= threshold && p <= |s| && i <= |s|
    requires forall j: nat :: j < |s| ==> (j < p <==> s[j].value <= e.value)
    requires e.gap == 1 && e.delta == if p == 0 || p == |s| then 0 else threshold - 1
    ensures EntryOk(Insert(s, p, e), InsertSorted(sorted, e.value), threshold, i)
  {
    var v, sorted' := e.value, InsertSorted(sorted, e.value);
    InsertMinRank(s, p, e, i);
    if i == p {
      NewRank(s, sorted, earlier, p, v);
      assert IsRank(sorted', v, AtMost(sorted, v) + 1);
    } else {
      var j := if i < p then i else i - 1;
      assert EntryOk(s, sorted, earlier, j);
      RankShifts(sorted, v, s[j].value, MinRank(s, j), MinRank(s, j) + s[j].delta);
    }
  }

  lemma {:induction false} InsertKeeps(s: seq<Entry>, sorted: seq<Coordinate>, earlier: nat, threshold: nat,
                                       p: nat, e: Entry)
    requires Summarizes(s, sorted, earlier) && 1 <= earlier <= threshold && p <= |s|
    requires forall i: nat :: i < |s| ==> (i < p <==> s[i].value <= e.value)
    requires e.gap == 1 && e.delta == if p == 0 || p == |s| then 0 else threshold - 1
    ensures Summarizes(Insert(s, p, e), InsertSorted(sorted, e.value), threshold)
  {
    GapsInsert(s, p, e);
    forall i: nat | i < |Insert(s, p, e)|
      ensures EntryOk(Insert(s, p, e), InsertSorted(sorted, e.value), threshold, i)
    {
      InsertEntryOk(s, sorted, earlier, threshold, p, e, i);
    }
  }

  // ----- Compression -----

  /** Compression of `s[..index + 1]` followed by the pending entry `right`. */
  function Compact(s: seq<Entry>, index: nat, right: Entry, threshold: nat): seq<Entry>
    requires index < |s|
  {
    if index == 0 then [s[0], right]
    else if s[index].gap + right.gap + right.delta <= threshold then
      Compact(s, index - 1, right.(gap := right.gap + s[index].gap), threshold)
    else
      Compact(s, index - 1, s[index], threshold) + [right]
  }

  function Compress(s: seq<Entry>, threshold: nat): seq<Entry> {
    if |s| < 3 then s else Compact(s, |s| - 2, s[|s| - 1], threshold)
  }

  /** `a` is `b` with the entry before position `n` folded into the one at `n`. */
  ghost predicate Merged(a: seq<Entry>, b: seq<Entry>, n: nat) {
    && 1 <= n < |b| && |a| == |b| + 1
    && b == a[..n] + [a[n + 1].(gap := a[n + 1].gap + a[n].gap)] + a[n + 2..]
  }

  lemma {:induction false} MergedMinRank(a: seq<Entry>, b: seq<Entry>, n: nat, i: nat)
    requires Merged(a, b, n) && i < |b|
    ensures MinRank(b, i) == MinRank(a, if i < n then i else i + 1)
  {
    if i < n {
      assert a[..i + 1] == b[..i + 1];
    } else if i == n {
      assert b[..n + 1] == a[..n] + [b[n]] && a[..n + 2] == a[..n] + [a[n]] + [a[n + 1]];
      GapsConcat(a[..n], [b[n]]);
      GapsConcat(a[..n] + [a[n]], [a[n + 1]]);
      GapsConcat(a[..n], [a[n]]);
      GapsSingle(a[n]);
      GapsSingle(a[n + 1]);
      GapsSingle(b[n]);
    } else {
      MergedMinRank(a, b, n, i - 1);
      assert b[..i + 1][..i] == b[..i] && a[..i + 2][..i + 1] == a[..i + 1];
    }
  }

  /** What merging does entry by entry: the merged entry has more ranks to itself, the others only move. */
  lemma MergedAt(a: seq<Entry>, b: seq<Entry>, n: nat, i: nat)
    requires Merged(a, b, n) && i < |b|
    ensures var j := if i < n then i else i + 1;
      b[i].value == a[j].value && b[i].delta == a[j].delta && b[i].gap == a[j].gap + if i == n then a[n].gap else 0
  {}

  lemma {:induction false} MergedEntryOk(a: seq<Entry>, b: seq<Entry>, n: nat, sorted: seq<Coordinate>,
                                         threshold: nat, i: nat)
    requires Merged(a, b, n) && b[n].gap + b[n].delta <= threshold && i < |b|
    requires EntryOk(a, sorted, threshold, if i < n then i else i + 1)
    ensures EntryOk(b, sorted, threshold, i)
  {
    MergedMinRank(a, b, n, i);
    MergedAt(a, b, n, i);
  }

  lemma MergedInOrder(a: seq<Entry>, b: seq<Entry>, n: nat)
    requires Merged(a, b, n) && forall i: nat, j: nat :: i < j < |a| ==> a[i].value <= a[j].value
    ensures forall i: nat, j: nat :: i < j < |b| ==> b[i].value <= b[j].value
  {
    forall i: nat, j: nat | i < j < |b|
      ensures b[i].value <= b[j].value
    {
      MergedAt(a, b, n, i);
      MergedAt(a, b, n, j);
    }
  }

  /** A single merge of an inner entry into its right neighbour keeps the summary's promise. */
  lemma {:induction false} MergeKeeps(a: seq<Entry>, b: seq<Entry>, n: nat, sorted: seq<Coordinate>, threshold: nat)
    requires Merged(a, b, n) && Summarizes(a, sorted, threshold) && b[n].gap + b[n].delta <= threshold
    ensures Summarizes(b, sorted, threshold)
  {
    assert a[..|a|] == a && b[..|b|] == b;
    MergedMinRank(a, b, n, |b| - 1);
    MergedAt(a, b, n, 0);
    MergedAt(a, b, n, |b| - 1);
    MergedInOrder(a, b, n);
    forall i: nat | i < |b|
      ensures EntryOk(b, sorted, threshold, i)
    {
      MergedEntryOk(a, b, n, sorted, threshold, i);
    }
  }

  lemma {:induction false} FoldStep(s: seq<Entry>, index: nat, right: Entry, t: seq<Entry>, sorted: seq<Coordinate>,
                                    threshold: nat)
    requires 0 < index < |s| && Summarizes(s[..index + 1] + [right] + t, sorted, threshold)
    requires s[index].gap + right.gap + right.delta <= threshold
    ensures Summarizes(s[..index] + [right.(gap := right.gap + s[index].gap)] + t, sorted, threshold)
  {
    var a, b := s[..index + 1] + [right] + t, s[..index] + [right.(gap := right.gap + s[index].gap)] + t;
    assert a[..index] == s[..index] && a[index + 2..] == t && a[index] == s[index] && a[index + 1] == right;
    MergeKeeps(a, b, index, sorted, threshold);
  }

  lemma {:induction false} CompactKeeps(s: seq<Entry>, index: nat, right: Entry, t: seq<Entry>,
                                        sorted: seq<Coordinate>, threshold: nat)
    requires index < |s| && Summarizes(s[..index + 1] + [right] + t, sorted, threshold)
    ensures Summarizes(Compact(s, index, right, threshold) + t, sorted, threshold)
  {
    if index == 0 {
      assert s[..1] + [right] == [s[0], right];
    } else if s[index].gap + right.gap + right.delta <= threshold {
      FoldStep(s, index, right, t, sorted, threshold);
      CompactKeeps(s, index - 1, right.(gap := right.gap + s[index].gap), t, sorted, threshold);
    } else {
      KeepStep(s, index, right, t);
      CompactKeeps(s, index - 1, s[index], [right] + t, sorted, threshold);
      assert Compact(s, index - 1, s[index], threshold) + ([right] + t)
        == Compact(s, index - 1, s[index], threshold) + [right] + t;
    }
  }

  lemma KeepStep(s: seq<Entry>, index: nat, right: Entry, t: seq<Entry>)
    requires 0 < index < |s|
    ensures s[..index + 1] + [right] + t == s[..index] + [s[index]] + ([right] + t)
  {
  }

  /** Compression keeps the promise. */
  lemma {:induction false} CompressKeeps(s: seq<Entry>, sorted: seq<Coordinate>, threshold: nat)
    requires Summarizes(s, sorted, threshold)
    ensures Summarizes(Compress(s, threshold), sorted, threshold)
  {
    if |s| >= 3 {
      var n := |s| - 2;
      assert s[..n + 1] + [s[n + 1]] + [] == s;
      CompactKeeps(s, n, s[n + 1], [], sorted, threshold);
      assert Compact(s, n, s[n + 1], threshold) + [] == Compact(s, n, s[n + 1], threshold);
    }
  }

  /** Two neighbours that compression could not fold into one. */
  predicate Apart(a: Entry, b: Entry, threshold: nat) {
    a.gap + b.gap + b.delta > threshold
  }

  ghost predicate AllApart(s: seq<Entry>, threshold: nat) {
    forall k: nat :: k + 1 < |s| ==> Apart(s[k], s[k + 1], threshold)
  }

  /** Nothing is left to fold; the first entry is never folded. */
  ghost predicate Compressed(s: seq<Entry>, threshold: nat) {
    s == [] || AllApart(s[1..], threshold)
  }

  lemma {:induction false} CompactSpreads(s: seq<Entry>, index: nat, right: Entry, t: seq<Entry>, threshold: nat)
    requires index < |s| && AllApart([right] + t, threshold)
    ensures Compressed(Compact(s, index, right, threshold) + t, threshold)
  {
    if index == 0 {
      assert ([s[0], right] + t)[1..] == [right] + t;
    } else if s[index].gap + right.gap + right.delta <= threshold {
      GrowFirst(right, s[index].gap, t, threshold);
      CompactSpreads(s, index - 1, right.(gap := right.gap + s[index].gap), t, threshold);
    } else {
      OneMoreApart(s[index], [right] + t, threshold);
      CompactSpreads(s, index - 1, s[index], [right] + t, threshold);
      assert Compact(s, index - 1, s[index], threshold) + ([right] + t)
        == Compact(s, index - 1, s[index], threshold) + [right] + t;
    }
  }

  lemma GrowFirst(right: Entry, more: nat, t: seq<Entry>, threshold: nat)
    requires AllApart([right] + t, threshold)
    ensures AllApart([right.(gap := right.gap + more)] + t, threshold)
  {
    var old', new' := [right] + t, [right.(gap := right.gap + more)] + t;
    forall k: nat | k + 1 < |new'|
      ensures Apart(new'[k], new'[k + 1], threshold)
    {
      assert Apart(old'[k], old'[k + 1], threshold);
    }
  }

  lemma OneMoreApart(first: Entry, rest: seq<Entry>, threshold: nat)
    requires rest != [] && Apart(first, rest[0], threshold) && AllApart(rest, threshold)
    ensures AllApart([first] + rest, threshold)
  {
    forall k: nat | k + 1 < |[first] + rest|
      ensures Apart(([first] + rest)[k], ([first] + rest)[k + 1], threshold)
    {
      if k > 0 {
        var j: nat := k - 1;
        assert Apart(rest[j], rest[j + 1], threshold);
      }
    }
  }

  lemma CompressSpreads(s: seq<Entry>, threshold: nat)
    ensures Compressed(Compress(s, threshold), threshold)
  {
    if |s| >= 3 {
      var n: nat := |s| - 2;
      var right, rest := s[n + 1], s[n + 2..];
      assert |[right] + rest| == 1;
      CompactSpreads(s, n, right, rest, threshold);
      assert Compact(s, n, right, threshold) + rest == Compact(s, n, right, threshold);
    }
  }

  // ----- Choosing a cut -----

  function Distance(a: int, b: int): nat {
    if a < b then b - a else a - b
  }

  function Center(s: seq<Entry>, i: nat): nat
    requires i < |s|
  {
    MinRank(s, i) + s[i].delta / 2
  }

  predicate Overlaps(s: seq<Entry>, i: nat, lo: nat, hi: nat)
    requires i < |s|
  {
    MinRank(s, i) <= hi && lo <= MinRank(s, i) + s[i].delta
  }

  function LowestRank(target: nat, error: nat): nat {
    if target <= error + 1 then 1 else target - error
  }

  function HighestRank(target: nat, error: nat, n: nat): nat {
    var top := if n < 1 then 1 else n;
    if target + error < top then target + error else top
  }

  lemma {:induction false} MinRankStep(s: seq<Entry>, i: nat)
    requires 0 < i < |s|
    ensures MinRank(s, i) == MinRank(s, i - 1) + s[i].gap
  {
    assert s[..i + 1][..i] == s[..i];
  }

  /** The first entry whose smallest rank reaches the target. */
  lemma {:induction false} Straddle(s: seq<Entry>, sorted: seq<Coordinate>, threshold: nat, target: nat, m: nat)
    returns (i: nat)
    requires Summarizes(s, sorted, threshold) && m < |s| && 1 <= target <= MinRank(s, m)
    ensures i <= m && target <= MinRank(s, i) && (i > 0 ==> MinRank(s, i - 1) < target)
    ensures i == 0 ==> target == 1
  {
    i := m;
    if m == 0 {
      assert s[..1] == [s[0]];
      GapsSingle(s[0]);
    } else if target <= MinRank(s, m - 1) {
      i := Straddle(s, sorted, threshold, target, m - 1);
    }
  }

  lemma {:induction false} TotalRank(s: seq<Entry>, sorted: seq<Coordinate>, threshold: nat)
    requires Summarizes(s, sorted, threshold) && |s| > 0
    ensures MinRank(s, |s| - 1) == |sorted|
  {
    assert s[..|s|] == s;
  }

  lemma {:induction false} MinRankBelowTotal(s: seq<Entry>, i: nat)
    requires i < |s|
    ensures MinRank(s, i) <= Gaps(s)
  {
    GapsConcat(s[..i + 1], s[i + 1..]);
    assert s == s[..i + 1] + s[i + 1..];
  }

  /** Some entry is centered within the rank error of the target, and such entries always overlap. */
  lemma {:induction false} NearEntry(s: seq<Entry>, sorted: seq<Coordinate>, threshold: nat, target: nat, error: nat)
    returns (i: nat)
    requires Summarizes(s, sorted, threshold) && 1 <= target <= |sorted| && threshold <= 2 * error && error > 0
    ensures i < |s| && Distance(Center(s, i), target) <= error
    ensures threshold == 1 ==> Distance(Center(s, i), target) == 0
  {
    TotalRank(s, sorted, threshold);
    i := Straddle(s, sorted, threshold, target, |s| - 1);
    assert EntryOk(s, sorted, threshold, i);
    if i > 0 {
      assert EntryOk(s, sorted, threshold, i - 1);
      MinRankStep(s, i);
      if Distance(Center(s, i), target) > error {
        i := i - 1;
      }
    } else {
      assert s[..1] == [s[0]];
      GapsSingle(s[0]);
    }
  }

  lemma {:induction false} NearOverlaps(s: seq<Entry>, sorted: seq<Coordinate>, threshold: nat, target: nat,
                                        error: nat, i: nat)
    requires Summarizes(s, sorted, threshold) && 1 <= target <= |sorted| && i < |s|
      && Distance(Center(s, i), target) <= error
    ensures Overlaps(s, i, LowestRank(target, error), HighestRank(target, error, |sorted|))
  {
    MinRankBelowTotal(s, i);
    assert EntryOk(s, sorted, threshold, i);
    if i == 0 {
      assert s[..1] == [s[0]];
      GapsSingle(s[0]);
    } else {
      GapsConcat(s[..i], [s[i]]);
      GapsSingle(s[i]);
      assert s[..i + 1] == s[..i] + [s[i]];
    }
  }

  /** A value whose entry is centered within `error` of the target has a true rank within twice that. */
  lemma {:induction false} NearRank(s: seq<Entry>, sorted: seq<Coordinate>, threshold: nat, target: nat, error: nat,
                                    i: nat)
    requires Summarizes(s, sorted, threshold) && threshold <= 2 * error && i < |s|
    requires Distance(Center(s, i), target) <= error
    ensures HasRank(sorted, s[i].value, target - 2 * error, target + 2 * error)
    ensures threshold == 1 && Distance(Center(s, i), target) == 0 ==> HasRank(sorted, s[i].value, target, target)
  {
    assert EntryOk(s, sorted, threshold, i);
    var r: nat :| IsRank(sorted, s[i].value, r) && MinRank(s, i) <= r <= MinRank(s, i) + s[i].delta;
  }

  // ----- Target ranks -----

  function CeilDiv(a: nat, b: nat): nat
    requires b > 0
  {
    (a + b - 1) / b
  }

  /** One target rank per cut, spread evenly over `total` values. */
  function QuantileTargets(binCount: nat, total: nat): (r: seq<nat>)
    ensures |r| == if binCount <= 1 then 0 else binCount - 1
  {
    if binCount <= 1 then [] else seq(binCount - 1, b requires b >= 0 => CeilDiv((b + 1) * total, binCount))
  }

  lemma CeilDivBounds(a: nat, b: nat)
    requires b > 0
    ensures a <= CeilDiv(a, b) * b < a + b
  {
  }

  lemma CancelRight(x: nat, y: nat, b: nat)
    requires x * b < y * b
    ensures x < y
  {
  }

  lemma CeilDivAtMost(a: nat, b: nat, t: nat)
    requires b > 0 && a <= t * b
    ensures CeilDiv(a, b) <= t
  {
    CeilDivBounds(a, b);
    assert (t + 1) * b == t * b + b;
    CancelRight(CeilDiv(a, b), t + 1, b);
  }

  lemma CeilDivMonotone(a: nat, b: nat, k: nat)
    requires k > 0 && a <= b
    ensures CeilDiv(a, k) <= CeilDiv(b, k)
  {
    DivMonotone(a + k - 1, b + k - 1, k);
  }

  lemma MultiplesGrow(a: nat, b: nat, total: nat)
    requires a <= b
    ensures a * total <= b * total
  {}

  lemma CeilDivIsRank(x: nat, binCount: nat, total: nat)
    requires binCount > 0 && 0 < x <= total * binCount
    ensures 1 <= CeilDiv(x, binCount) <= total
  {
    CeilDivBounds(x, binCount);
    CeilDivAtMost(x, binCount, total);
  }

  /** Targets are ranks, in order. */
  lemma TargetsAreRanks(binCount: nat, total: nat, b: nat)
    requires binCount > 1 && total > 0 && b < binCount - 1
    ensures 1 <= QuantileTargets(binCount, total)[b] <= total
    ensures b + 1 < binCount - 1 ==> QuantileTargets(binCount, total)[b] <= QuantileTargets(binCount, total)[b + 1]
  {
    MultiplesGrow(1, b + 1, total);
    MultiplesGrow(b + 1, binCount, total);
    CeilDivIsRank((b + 1) * total, binCount, total);
    MultiplesGrow(b + 1, b + 2, total);
    CeilDivMonotone((b + 1) * total, (b + 2) * total, binCount);
  }

  /** The rank before bin `b`, and the one it ends with. */
  function RankBefore(targets: seq<nat>, b: nat): nat
    requires b <= |targets|
  {
    if b == 0 then 0 else targets[b - 1]
  }

  function RankBehind(targets: seq<nat>, total: nat, b: nat): nat
    requires b <= |targets|
  {
    if b == |targets| then total else targets[b]
  }

  /** How many points an even bin receives. */
  predicate IsEvenShare(count: int, total: nat, binCount: nat)
    requires binCount > 0
  {
    count in {total / binCount, total / binCount + 1}
  }

  /** The targets cut the ranks into bins whose sizes differ by at most one. */
  ghost predicate EvenRanks(targets: seq<nat>, binCount: nat, total: nat) {
    && binCount > 0 && |targets| == binCount - 1
    && forall b: nat :: b < binCount ==>
         IsEvenShare(RankBehind(targets, total, b) - RankBefore(targets, b), total, binCount)
  }

  lemma CeilDivOf(x: nat, q: nat, k: nat)
    requires k > 0
    ensures CeilDiv(x + q * k, k) == CeilDiv(x, k) + q
  {
    CeilDivBounds(x, k);
    CeilDivBounds(x + q * k, k);
    var c, d := CeilDiv(x, k), CeilDiv(x + q * k, k);
    assert (c + q) * k == c * k + q * k && (c + q + 1) * k == c * k + q * k + k && (d + 1) * k == d * k + k;
    CancelRight(d, c + q + 1, k);
    CancelRight(c + q, d + 1, k);
  }

  /** One more share of `total` moves the rounded-up quotient by its integral part or one more. */
  lemma CeilDivStep(x: nat, total: nat, k: nat)
    requires k > 0
    ensures CeilDiv(x + total, k) - CeilDiv(x, k) in {total / k, total / k + 1}
  {
    var q, r := total / k, total % k;
    assert total == q * k + r;
    CeilDivOf(x + r, q, k);
    assert x + r + q * k == x + total;
    CeilDivMonotone(x, x + r, k);
    CeilDivMonotone(x + r, x + 1 * k, k);
    CeilDivOf(x, 1, k);
  }

  lemma CeilDivAt(binCount: nat, total: nat, b: nat)
    requires binCount > 1 && b < binCount
    ensures var targets := QuantileTargets(binCount, total);
      && RankBefore(targets, b) == CeilDiv(b * total, binCount)
      && RankBehind(targets, total, b) == CeilDiv((b + 1) * total, binCount)
  {
    CeilDivOf(0, 0, binCount);
    CeilDivOf(0, total, binCount);
    assert CeilDiv(0, binCount) == 0 by {
      CeilDivBounds(0, binCount);
      CancelRight(CeilDiv(0, binCount), 1, binCount);
    }
    assert total * binCount == binCount * total;
  }

  /** The planned targets make even bins. */
  lemma TargetsAreEven(binCount: nat, total: nat)
    requires binCount > 1
    ensures EvenRanks(QuantileTargets(binCount, total), binCount, total)
  {
    forall b: nat | b < binCount
      ensures IsEvenShare(RankBehind(QuantileTargets(binCount, total), total, b)
                          - RankBefore(QuantileTargets(binCount, total), b), total, binCount)
    {
      CeilDivAt(binCount, total, b);
      CeilDivStep(b * total, total, binCount);
      assert b * total + total == (b + 1) * total;
    }
  }

  /** How many retained entries are at most `v`: the insertion position of a new value. */
  function InsertionPoint(s: seq<Entry>, v: Coordinate): (p: nat)
    requires forall i: nat, j: nat :: i < j < |s| ==> s[i].value <= s[j].value
    ensures p <= |s| && forall i: nat :: i < |s| ==> (i < p <==> s[i].value <= v)
  {
    if s == [] then 0
    else if s[|s| - 1].value <= v then |s|
    else InsertionPoint(s[..|s| - 1], v)
  }

  class QuantileAxisPlanner {
    const targets: seq<nat>
    ghost const binCount: nat
    ghost const totalCount: nat
    const maxRankErrorDenominator: nat := GK_QUANTILE_RANK_ERROR_DENOMINATOR
    const compressInterval: nat := GK_QUANTILE_RANK_ERROR_DENOMINATOR / 2
    var observedCount: nat
    var summary: seq<Entry>
    /** The values seen so far, in arrival order and in sorted order. */
    ghost var observed: seq<Coordinate>
    ghost var sorted: seq<Coordinate>

    ghost predicate Valid()
      reads this
    {
      && binCount > 1 && targets == QuantileTargets(binCount, totalCount)
      && observedCount == |observed| == |sorted|
      && multiset(observed) == multiset(sorted)
      && Summarizes(summary, sorted, Threshold(observedCount, maxRankErrorDenominator))
    }

    /** A planner of an axis with several bins; one bin needs no cuts and no planner. */
    constructor (binCount: nat, totalCount: nat)
      requires binCount > 1
      ensures Valid() && observed == [] && this.binCount == binCount && this.totalCount == totalCount
      ensures EvenRanks(targets, binCount, totalCount)
    {
      targets := QuantileTargets(binCount, totalCount);
      this.binCount, this.totalCount := binCount, totalCount;
      observedCount, summary := 0, [];
      observed, sorted := [], [];
      TargetsAreEven(binCount, totalCount);
    }

    method Observe(value: Coordinate)
      requires Valid()
      modifies this
      ensures Valid() && observed == old(observed) + [value]
    {
      ghost var oldThreshold := Threshold(observedCount, maxRankErrorDenominator);
      ThresholdGrows(observedCount, maxRankErrorDenominator);
      observedCount := observedCount + 1;
      var threshold := Threshold(observedCount, maxRankErrorDenominator);
      var p := InsertionPoint(summary, value);
      var entry := Entry(value, 1, if p == 0 || p == |summary| then 0 else threshold - 1);
      InsertKeeps(summary, sorted, oldThreshold, threshold, p, entry);
      summary := Insert(summary, p, entry);
      observed := observed + [value];
      sorted := InsertSorted(sorted, value);
      if compressInterval > 0 && observedCount % compressInterval == 0 {
        CompressSummary();
      }
    }

    /** Folds entries into their right neighbour while the threshold allows it. */
    method CompressSummary()
      requires Valid()
      modifies this`summary
      ensures Valid()
      ensures summary == Compress(old(summary), Threshold(observedCount, maxRankErrorDenominator))
    {
      var s := summary;
      var threshold := Threshold(observedCount, maxRankErrorDenominator);
      CompressKeeps(s, sorted, threshold);
      if |s| < 3 {
        return;
      }
      var compacted: seq<Entry> := [];
      var right := s[|s| - 1];
      var index := |s| - 2;
      while index > 0
        invariant 0 <= index <= |s| - 2
        invariant Compact(s, index, right, threshold) + compacted == Compress(s, threshold)
      {
        if s[index].gap + right.gap + right.delta <= threshold {
          right := right.(gap := right.gap + s[index].gap);
        } else {
          assert Compact(s, index, right, threshold) + compacted
            == Compact(s, index - 1, s[index], threshold) + ([right] + compacted);
          compacted := [right] + compacted;
          right := s[index];
        }
        index := index - 1;
      }
      summary := [s[0], right] + compacted;
    }

    /** The retained value whose center is nearest to the target rank among those that may hold it. */
    method ApproximateQuantileValue(target: nat) returns (r: Option<Coordinate>, ghost place: nat)
      requires Valid()
      ensures r.None? <==> observedCount == 0
      ensures r.Some? ==> Placed(summary, r.value, target, observedCount, maxRankErrorDenominator, place)
      ensures r.Some? ==> CutOk(r.value, target, sorted, observedCount, maxRankErrorDenominator)
    {
      var error := RankError(observedCount, maxRankErrorDenominator);
      var lo, hi := LowestRank(target, error), HighestRank(target, error, observedCount);
      var best: Option<nat>, fallback: Option<nat> := None, None;
      var bestDistance: nat, fallbackDistance: nat := 0, 0;
      var rank: nat := 0;
      for i := 0 to |summary|
        invariant rank == Gaps(summary[..i])
        invariant NearestBefore(summary, target, lo, hi, i, best, bestDistance)
        invariant if i == 0 then fallback.None? else fallback.Some? && fallback.value < i
      {
        assert summary[..i + 1][..i] == summary[..i];
        NearestStep(summary, target, lo, hi, i, best, bestDistance);
        rank := rank + summary[i].gap;
        var distance := Distance(rank + summary[i].delta / 2, target);
        if rank <= hi && rank + summary[i].delta >= lo && (best.None? || distance < bestDistance) {
          best, bestDistance := Some(i), distance;
        }
        var outside := if rank + summary[i].delta < lo then lo - (rank + summary[i].delta)
                       else if rank > hi then rank - hi
                       else 0;
        if fallback.None? || outside < fallbackDistance {
          fallback, fallbackDistance := Some(i), outside;
        }
      }
      if 1 <= target <= observedCount {
        ChosenIsNear(summary, sorted, observedCount, maxRankErrorDenominator, target, best, bestDistance);
      }
      if best.Some? {
        return Some(summary[best.value].value), best.value;
      }
      return if fallback.Some? then Some(summary[fallback.value].value) else None, 0;
    }

    /** One cut per target, chosen from a compressed summary. */
    method ChooseCuts() returns (cuts: seq<Coordinate>)
      requires Valid() && observedCount > 0
      requires Compressed(summary, Threshold(observedCount, maxRankErrorDenominator))
      ensures NearTargets(cuts, targets, sorted, observedCount, maxRankErrorDenominator)
      ensures FollowTargets(cuts, targets, observedCount)
    {
      cuts := [];
      ghost var places: seq<nat> := [];
      for t := 0 to |targets|
        invariant |cuts| == t && NearTargets(cuts, targets, sorted, observedCount, maxRankErrorDenominator)
        invariant AllPlaced(summary, cuts, targets, observedCount, maxRankErrorDenominator, places)
      {
        var cut, place := ApproximateQuantileValue(targets[t]);
        cuts := cuts + [cut.value];
        places := places + [place];
      }
      PlacedCutsFollow(summary, sorted, cuts, targets, maxRankErrorDenominator, places);
    }

    /** Compresses once more and chooses one cut per target. */
    method FinishPass() returns (r: Option<seq<Coordinate>>)
      requires Valid()
      modifies this`summary
      ensures Valid()
      ensures r.None? <==> observedCount == 0
      ensures r.Some? ==> NearTargets(r.value, targets, sorted, observedCount, maxRankErrorDenominator)
      ensures r.Some? ==> FollowTargets(r.value, targets, observedCount)
    {
      if summary == [] {
        return None;
      }
      CompressSpreads(summary, Threshold(observedCount, maxRankErrorDenominator));
      CompressSummary();
      var cuts := ChooseCuts();
      return Some(cuts);
    }

    /**
     On fewer than 1024 different values, as many as were announced, every bin between two cuts receives its even
     share of the observed values.
     */
    lemma BinsAreEven(cuts: seq<Coordinate>, b: nat)
      requires Valid() && observedCount == totalCount && 0 < observedCount < 1024 && b < binCount
      requires forall i, j :: 0 <= i < j < |observed| ==> observed[i] != observed[j]
      requires NearTargets(cuts, targets, sorted, observedCount, maxRankErrorDenominator) && |cuts| == |targets|
      ensures IsEvenShare(Boundaries.CountIf(observed, InBin(cuts, b)), totalCount, binCount)
    {
      EvenBins(observed, sorted, cuts, binCount, maxRankErrorDenominator, b);
    }
  }

  lemma EvenBins(observed: seq<Coordinate>, sorted: seq<Coordinate>, cuts: seq<Coordinate>, binCount: nat, d: nat,
                 b: nat)
    requires binCount > 1 && multiset(observed) == multiset(sorted) && Sorted(sorted) && 0 < |sorted| < d
    requires forall i, j :: 0 <= i < j < |observed| ==> observed[i] != observed[j]
    requires |cuts| == binCount - 1 && b < binCount
    requires NearTargets(cuts, QuantileTargets(binCount, |sorted|), sorted, |sorted|, d)
    ensures IsEvenShare(Boundaries.CountIf(observed, InBin(cuts, b)), |sorted|, binCount)
  {
    var targets := QuantileTargets(binCount, |sorted|);
    TargetsAreEven(binCount, |sorted|);
    EvenIsOrdered(targets, binCount, |sorted|, b);
    StrictFromDistinct(observed, sorted);
    ExactCuts(sorted, cuts, binCount, d);
    ExactBins(sorted, targets, cuts, b);
    Boundaries.CountPermuted(observed, sorted, InBin(cuts, b));
  }

  lemma EvenIsOrdered(targets: seq<nat>, binCount: nat, total: nat, b: nat)
    requires EvenRanks(targets, binCount, total) && b < binCount
    ensures IsEvenShare(RankBehind(targets, total, b) - RankBefore(targets, b), total, binCount)
    ensures RankBefore(targets, b) <= RankBehind(targets, total, b)
  {
    assert total / binCount >= 0;
  }

  lemma ExactCuts(sorted: seq<Coordinate>, cuts: seq<Coordinate>, binCount: nat, d: nat)
    requires binCount > 1 && 0 < |sorted| < d && |cuts| == binCount - 1
    requires NearTargets(cuts, QuantileTargets(binCount, |sorted|), sorted, |sorted|, d)
    ensures forall t: nat :: t < |cuts| ==>
      1 <= QuantileTargets(binCount, |sorted|)[t] <= |sorted|
      && cuts[t] == sorted[QuantileTargets(binCount, |sorted|)[t] - 1]
  {
    var targets := QuantileTargets(binCount, |sorted|);
    forall t: nat | t < |cuts|
      ensures 1 <= targets[t] <= |sorted| && cuts[t] == sorted[targets[t] - 1]
    {
      TargetsAreRanks(binCount, |sorted|, t);
      SmallCutsExact(cuts[t], targets[t], sorted, d);
    }
  }

  /** Above the cut before bin `b`, and not above the one behind it. */
  function InBin(cuts: seq<Coordinate>, b: nat): Coordinate -> bool
    requires b <= |cuts|
  {
    x => (b > 0 ==> cuts[b - 1] < x) && (b < |cuts| ==> x <= cuts[b])
  }

  lemma StrictFromDistinct(observed: seq<Coordinate>, sorted: seq<Coordinate>)
    requires multiset(observed) == multiset(sorted) && Sorted(sorted)
    requires forall i, j :: 0 <= i < j < |observed| ==> observed[i] != observed[j]
    ensures forall i, j :: 0 <= i < j < |sorted| ==> sorted[i] < sorted[j]
  {
    forall i, j | 0 <= i < j < |sorted|
      ensures sorted[i] != sorted[j]
    {
      if sorted[i] == sorted[j] {
        TwiceInMultiset(sorted, i, j);
        OnceInMultiset(observed, sorted[i]);
      }
    }
  }

  lemma TwiceInMultiset(s: seq<Coordinate>, i: nat, j: nat)
    requires i < j < |s| && s[i] == s[j]
    ensures multiset(s)[s[i]] >= 2
  {
    assert s == s[..i] + [s[i]] + s[i + 1..j] + [s[j]] + s[j + 1..];
  }

  lemma {:induction false} OnceInMultiset(s: seq<Coordinate>, x: Coordinate)
    requires forall i, j :: 0 <= i < j < |s| ==> s[i] != s[j]
    ensures multiset(s)[x] <= 1
  {
    if s != [] {
      var n := |s| - 1;
      assert s == s[..n] + [s[n]];
      OnceInMultiset(s[..n], x);
      if s[n] == x {
        assert x !in s[..n];
      }
    }
  }

  /** Exact cuts of strictly increasing values make bins of the ranks between the targets. */
  lemma ExactBins(sorted: seq<Coordinate>, targets: seq<nat>, cuts: seq<Coordinate>, b: nat)
    requires forall i, j :: 0 <= i < j < |sorted| ==> sorted[i] < sorted[j]
    requires |cuts| == |targets| && b <= |targets|
    requires forall t: nat :: t < |cuts| ==> 1 <= targets[t] <= |sorted| && cuts[t] == sorted[targets[t] - 1]
    requires RankBefore(targets, b) <= RankBehind(targets, |sorted|, b)
    ensures Boundaries.CountIf(sorted, InBin(cuts, b)) == RankBehind(targets, |sorted|, b) - RankBefore(targets, b)
  {
    var lo, hi := RankBefore(targets, b), RankBehind(targets, |sorted|, b);
    forall j | 0 <= j < |sorted|
      ensures InBin(cuts, b)(sorted[j]) <==> lo <= j < hi
    {
      if b > 0 {
        assert cuts[b - 1] == sorted[lo - 1];
        assert sorted[lo - 1] < sorted[j] <==> lo - 1 < j;
      }
      if b < |cuts| {
        assert cuts[b] == sorted[hi - 1];
        assert sorted[j] <= sorted[hi - 1] <==> j <= hi - 1;
      }
    }
    Boundaries.CountStretch(sorted, InBin(cuts, b), lo, hi);
  }

  /** Every cut keeps its promise about the target at its place. */
  ghost predicate NearTargets(cuts: seq<Coordinate>, targets: seq<nat>, sorted: seq<Coordinate>, n: nat, d: nat)
    requires d > 0
  {
    |cuts| <= |targets| && forall t: nat :: t < |cuts| ==> CutOk(cuts[t], targets[t], sorted, n, d)
  }

  /** What one cut promises about its target. */
  ghost predicate CutOk(cut: Coordinate, target: nat, sorted: seq<Coordinate>, n: nat, d: nat)
    requires d > 0
  {
    1 <= target <= n ==>
      && HasRank(sorted, cut, target - 2 * RankError(n, d), target + 2 * RankError(n, d))
      && (n < d ==> HasRank(sorted, cut, target, target))
  }

  /** The nearest overlapping entry before position `i`, the first one on ties. */
  ghost predicate NearestBefore(s: seq<Entry>, target: nat, lo: nat, hi: nat, i: nat, best: Option<nat>,
                                bestDistance: nat)
    requires i <= |s|
  {
    && (best.Some? ==>
          && best.value < i && Overlaps(s, best.value, lo, hi)
          && bestDistance == Distance(Center(s, best.value), target)
          && forall j: nat :: j < best.value && Overlaps(s, j, lo, hi) ==>
               bestDistance < Distance(Center(s, j), target))
    && forall j: nat :: j < i && Overlaps(s, j, lo, hi) ==> best.Some? && bestDistance <= Distance(Center(s, j), target)
  }

  lemma NearestStep(s: seq<Entry>, target: nat, lo: nat, hi: nat, i: nat, best: Option<nat>, bestDistance: nat)
    requires i < |s| && NearestBefore(s, target, lo, hi, i, best, bestDistance)
    ensures
      if Overlaps(s, i, lo, hi) && (best.None? || Distance(Center(s, i), target) < bestDistance)
      then NearestBefore(s, target, lo, hi, i + 1, Some(i), Distance(Center(s, i), target))
      else NearestBefore(s, target, lo, hi, i + 1, best, bestDistance)
  {
  }

  /** The nearest overlapping entry is near enough, so the fallback is never needed. */
  lemma {:induction false} ChosenIsNear(s: seq<Entry>, sorted: seq<Coordinate>, n: nat, d: nat, target: nat,
                                        best: Option<nat>, bestDistance: nat)
    requires d > 0 && n == |sorted| && Summarizes(s, sorted, Threshold(n, d)) && 1 <= target <= n
    requires NearestBefore(s, target, LowestRank(target, RankError(n, d)), HighestRank(target, RankError(n, d), n),
                           |s|, best, bestDistance)
    ensures best.Some? && CutOk(s[best.value].value, target, sorted, n, d)
  {
    ThresholdBelowErrors(n, d);
    var i := NearEntry(s, sorted, Threshold(n, d), target, RankError(n, d));
    NearOverlaps(s, sorted, Threshold(n, d), target, RankError(n, d), i);
    NearRank(s, sorted, Threshold(n, d), target, RankError(n, d), best.value);
  }

  lemma RankErrorIsCeiling(n: nat, d: nat)
    requires d > 0
    ensures n <= RankError(n, d) * d <= n + d - 1
  {}

  /** The floor of twice the count over the denominator, and at least one. */
  lemma ThresholdIsFloor(n: nat, d: nat)
    requires d > 0
    ensures Threshold(n, d) == 1 || Threshold(n, d) * d <= 2 * n
    ensures 2 * n < (Threshold(n, d) + 1) * d && 1 <= Threshold(n, d)
  {
    var t := n * 2 / d;
    assert t * d <= n * 2 < (t + 1) * d;
    if t < 1 {
      assert t == 0;
    }
  }

  ghost predicate RankWithin(sorted: seq<Coordinate>, cut: Coordinate, target: nat, r: nat, d: nat) {
    IsRank(sorted, cut, r) && Distance(r, target) * d <= 2 * (|sorted| + d - 1)
  }

  /** A cut misses its target by no more than two parts in `d` of all values, rounded up. */
  lemma CutMissesLittle(cut: Coordinate, target: nat, sorted: seq<Coordinate>, d: nat)
    requires d > 0 && 1 <= target <= |sorted| && CutOk(cut, target, sorted, |sorted|, d)
    ensures exists r: nat :: RankWithin(sorted, cut, target, r, d)
  {
    var e := RankError(|sorted|, d);
    var r: nat :| IsRank(sorted, cut, r) && target - 2 * e <= r <= target + 2 * e;
    RankErrorIsCeiling(|sorted|, d);
    ProductBound(Distance(r, target), 2 * e, d);
    assert 2 * e * d == 2 * (e * d);
    assert RankWithin(sorted, cut, target, r, d);
  }

  lemma ProductBound(a: nat, b: nat, d: nat)
    requires a <= b
    ensures a * d <= b * d
  {}

  /** Below the summary's resolution a cut is exactly the value at its target rank. */
  lemma {:induction false} SmallCutsExact(cut: Coordinate, target: nat, sorted: seq<Coordinate>, d: nat)
    requires d > 0 && 1 <= target <= |sorted| < d && CutOk(cut, target, sorted, |sorted|, d)
    ensures cut == sorted[target - 1]
  {
    var r: nat :| IsRank(sorted, cut, r) && target <= r <= target;
  }

  // ----- Cuts come out in the order of their targets -----

  /** Entry `i` is the one chosen for the target. */
  ghost predicate Chosen(s: seq<Entry>, target: nat, n: nat, d: nat, i: nat)
    requires d > 0
  {
    i < |s| && NearestBefore(s, target, LowestRank(target, RankError(n, d)), HighestRank(target, RankError(n, d), n),
                             |s|, Some(i), Distance(Center(s, i), target))
  }

  /** After compression all bounds on the rank of an entry increase from entry to entry, and so do the centers. */
  lemma {:induction false} RanksIncrease(s: seq<Entry>, sorted: seq<Coordinate>, threshold: nat, i: nat, j: nat)
    requires Summarizes(s, sorted, threshold) && Compressed(s, threshold) && i < j < |s|
    ensures MinRank(s, i) < MinRank(s, j) && MinRank(s, i) + s[i].delta < MinRank(s, j) + s[j].delta
    ensures Center(s, i) < Center(s, j)
  {
    var k: nat := j - 1;
    if i < k {
      RanksIncrease(s, sorted, threshold, i, k);
    }
    MinRankStep(s, j);
    assert EntryOk(s, sorted, threshold, k) && EntryOk(s, sorted, threshold, j);
    if k > 0 {
      var h: nat := k - 1;
      assert Apart(s[1..][h], s[1..][h + 1], threshold);
    }
  }

  /** A greater target never chooses an earlier entry. */
  lemma {:induction false} ChoiceFollowsTarget(s: seq<Entry>, sorted: seq<Coordinate>, d: nat, target: nat,
                                               target': nat, i: nat, j: nat)
    requires d > 0 && Summarizes(s, sorted, Threshold(|sorted|, d)) && Compressed(s, Threshold(|sorted|, d))
    requires 1 <= target <= target' <= |sorted|
    requires Chosen(s, target, |sorted|, d, i) && Chosen(s, target', |sorted|, d, j)
    ensures i <= j
  {
    var n, e := |sorted|, RankError(|sorted|, d);
    if j < i {
      RanksIncrease(s, sorted, Threshold(n, d), j, i);
      assert Overlaps(s, j, LowestRank(target, e), HighestRank(target, e, n));
      assert Overlaps(s, i, LowestRank(target', e), HighestRank(target', e, n));
    }
  }

  /** Where a cut comes from, for a target that is a rank at all. */
  ghost predicate Placed(s: seq<Entry>, cut: Coordinate, target: nat, n: nat, d: nat, i: nat)
    requires d > 0
  {
    1 <= target <= n ==> Chosen(s, target, n, d, i) && cut == s[i].value
  }

  ghost predicate AllPlaced(s: seq<Entry>, cuts: seq<Coordinate>, targets: seq<nat>, n: nat, d: nat, places: seq<nat>)
    requires d > 0
  {
    |places| == |cuts| <= |targets|
    && forall t: nat :: t < |cuts| ==> Placed(s, cuts[t], targets[t], n, d, places[t])
  }

  /** Targets in order have cuts in order. */
  ghost predicate FollowTargets(cuts: seq<Coordinate>, targets: seq<nat>, n: nat) {
    |cuts| == |targets|
    && forall t: nat, u: nat :: t < |targets| && u < |targets| && 1 <= targets[t] <= targets[u] <= n ==>
         cuts[t] <= cuts[u]
  }

  lemma {:induction false} PlacedCutsFollow(s: seq<Entry>, sorted: seq<Coordinate>, cuts: seq<Coordinate>,
                                            targets: seq<nat>, d: nat, places: seq<nat>)
    requires d > 0 && Summarizes(s, sorted, Threshold(|sorted|, d)) && Compressed(s, Threshold(|sorted|, d))
    requires AllPlaced(s, cuts, targets, |sorted|, d, places) && |cuts| == |targets|
    ensures FollowTargets(cuts, targets, |sorted|)
  {
    forall t: nat, u: nat | t < |targets| && u < |targets| && 1 <= targets[t] <= targets[u] <= |sorted|
      ensures cuts[t] <= cuts[u]
    {
      assert Placed(s, cuts[t], targets[t], |sorted|, d, places[t]);
      assert Placed(s, cuts[u], targets[u], |sorted|, d, places[u]);
      ChoiceFollowsTarget(s, sorted, d, targets[t], targets[u], places[t], places[u]);
    }
  }

  /** The cuts of an axis never decrease, however narrow its bins are. */
  lemma {:induction false} PlannedCutsInOrder(cuts: seq<Coordinate>, binCount: nat, total: nat)
    requires total > 0 && FollowTargets(cuts, QuantileTargets(binCount, total), total)
    ensures forall t: nat, u: nat :: t < u < |cuts| ==> cuts[t] <= cuts[u]
  {
    forall t: nat | t + 1 < |cuts|
      ensures cuts[t] <= cuts[t + 1]
    {
      TargetsAreRanks(binCount, total, t);
      TargetsAreRanks(binCount, total, t + 1);
      NeighboursFollow(cuts, QuantileTargets(binCount, total), total, t);
    }
    NeighboursSort(cuts, |cuts|);
  }

  lemma NeighboursFollow(cuts: seq<Coordinate>, targets: seq<nat>, n: nat, t: nat)
    requires FollowTargets(cuts, targets, n) && t + 1 < |cuts| && 1 <= targets[t] <= targets[t + 1] <= n
    ensures cuts[t] <= cuts[t + 1]
  {}

  lemma {:induction false} NeighboursSort(cuts: seq<Coordinate>, n: nat)
    requires n <= |cuts| && forall t: nat :: t + 1 < n ==> cuts[t] <= cuts[t + 1]
    ensures forall t: nat, u: nat :: t < u < n ==> cuts[t] <= cuts[u]
  {
    if n > 1 {
      NeighboursSort(cuts, n - 1);
      assert cuts[n - 2] <= cuts[n - 2 + 1];
    }
  }
}
