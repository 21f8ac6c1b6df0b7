/** Cutting an axis at the deepest valleys of its histogram. */
module ValleyCuts {
  import opened Wrappers
  import opened Permutation
  import opened NatSums
  import StableSort

  datatype CutError = UnsatisfiableConstraint

  function Smoothed(counts: seq<nat>): (smoothed: seq<real>)
    ensures |smoothed| == |counts|
    ensures forall i :: 0 <= i < |counts| ==> smoothed[i] == SmoothedAt(counts, i)
  {
    seq(|counts|, i requires 0 <= i < |counts| => SmoothedAt(counts, i))
  }

  function SmoothedAt(counts: seq<nat>, i: nat): real
    requires i < |counts|
  {
    var left := if i > 0 then counts[i - 1] else counts[i];
    var right := if i + 1 < |counts| then counts[i + 1] else counts[i];
    (left + 2 * counts[i] + right) as real
  }

  method SmoothHistogram(counts: seq<nat>) returns (smoothed: seq<real>)
    ensures smoothed == Smoothed(counts)
  {
    smoothed := [];
    for index := 0 to |counts|
      invariant |smoothed| == index && forall i :: 0 <= i < index ==> smoothed[i] == SmoothedAt(counts, i)
    {
      var left := if index > 0 then counts[index - 1] else counts[index];
      var right := if index + 1 < |counts| then counts[index + 1] else counts[index];
      smoothed := smoothed + [(left + 2 * counts[index] + right) as real];
    }
  }

  /** How much one point in bucket `j` adds at bucket `i`: the border buckets stand in for their missing neighbours. */
  function Kernel(i: nat, j: nat, buckets: nat): nat {
    if i == j then 2 + (if i == 0 then 1 else 0) + (if i + 1 == buckets then 1 else 0)
    else if i == j + 1 || j == i + 1 then 1
    else 0
  }

  /** Smoothing spreads every point over its bucket and the buckets beside it, and adds up over the points. */
  lemma SmoothingSpreadsPoints(counts: seq<nat>, i: nat, j: nat)
    requires i < |counts| && j < |counts|
    ensures SmoothedAt(counts[j := counts[j] + 1], i) == SmoothedAt(counts, i) + Kernel(i, j, |counts|) as real
    ensures (forall k :: 0 <= k < |counts| ==> counts[k] == 0) ==> SmoothedAt(counts, i) == 0.0
  {}

  function SumReal(values: seq<real>): real {
    if values == [] then 0.0 else SumReal(values[..|values| - 1]) + values[|values| - 1]
  }

  /** Short of the end, the sum lacks what the last bucket passes on and has what the next one passes back. */
  lemma {:induction false} SmoothedPrefix(counts: seq<nat>, k: nat)
    requires 0 < k <= |counts|
    ensures SumReal(Smoothed(counts)[..k])
         == (4 * Sum(counts[..k]) - counts[k - 1] + if k < |counts| then counts[k] else counts[k - 1]) as real
  {
    var smoothed := Smoothed(counts);
    assert smoothed[..k][..k - 1] == smoothed[..k - 1] && counts[..k][..k - 1] == counts[..k - 1];
    if k > 1 {
      SmoothedPrefix(counts, k - 1);
    } else {
      assert smoothed[..0] == [] && counts[..0] == [];
    }
  }

  /** Smoothing loses no point and favours none: each adds four in all. */
  lemma SmoothingConserves(counts: seq<nat>)
    ensures SumReal(Smoothed(counts)) == (4 * Sum(counts)) as real
  {
    if counts != [] {
      SmoothedPrefix(counts, |counts|);
      assert Smoothed(counts)[..|counts|] == Smoothed(counts) && counts[..|counts|] == counts;
    }
  }

  // Valleys between buckets.

  function MaxReal(a: real, b: real): real {
    if a >= b then a else b
  }

  function MinReal(a: real, b: real): real {
    if a <= b then a else b
  }

  /** The highest density from `lo` up to but not including `hi`. */
  function Peak(smoothed: seq<real>, lo: nat, hi: nat): (peak: real)
    requires lo < hi <= |smoothed|
    ensures forall i :: lo <= i < hi ==> smoothed[i] <= peak
    ensures exists i :: lo <= i < hi && smoothed[i] == peak
  {
    if hi == lo + 1 then smoothed[lo] else MaxReal(Peak(smoothed, lo, hi - 1), smoothed[hi - 1])
  }

  lemma {:induction false} PeakFromLeft(smoothed: seq<real>, lo: nat, hi: nat)
    requires lo + 1 < hi <= |smoothed|
    ensures Peak(smoothed, lo, hi) == MaxReal(smoothed[lo], Peak(smoothed, lo + 1, hi))
    decreases hi
  {
    if lo + 2 < hi {
      PeakFromLeft(smoothed, lo, hi - 1);
    }
  }

  datatype Valley = Valley(bucket: nat, density: real, depth: real)

  /** The valley at the edge below `bucket`, seen from inside the segment. */
  function ValleyAt(smoothed: seq<real>, start: nat, end: nat, bucket: nat): Valley
    requires start < bucket < end <= |smoothed|
  {
    var density := (smoothed[bucket - 1] + smoothed[bucket]) / 2.0;
    Valley(bucket, density,
           MinReal(Peak(smoothed, start, bucket), Peak(smoothed, bucket, end)) - density)
  }

  /** Deeper, then lower, then further left. */
  predicate Better(a: Valley, b: Valley) {
    a.depth > b.depth
    || (a.depth == b.depth && (a.density < b.density || (a.density == b.density && a.bucket < b.bucket)))
  }

  ghost predicate BestOfSegment(smoothed: seq<real>, start: nat, end: nat, best: Valley, limit: nat)
    requires limit <= end <= |smoothed|
  {
    && start < best.bucket < limit && best == ValleyAt(smoothed, start, end, best.bucket)
    && forall bucket :: start < bucket < limit ==> !Better(ValleyAt(smoothed, start, end, bucket), best)
  }

  /** `bucket` has the highest density from `lo` up to but not including `hi`. */
  ghost predicate IsPeak(smoothed: seq<real>, lo: nat, hi: nat, bucket: nat)
    requires hi <= |smoothed|
  {
    lo <= bucket < hi && forall i :: lo <= i < hi ==> smoothed[i] <= smoothed[bucket]
  }

  /** The density is halfway between both buckets; the depth is measured from the lower of the two highest sides. */
  lemma ValleyBetweenPeaks(smoothed: seq<real>, start: nat, end: nat, bucket: nat, left: nat, right: nat)
    requires start < bucket < end <= |smoothed|
    requires IsPeak(smoothed, start, bucket, left) && IsPeak(smoothed, bucket, end, right)
    ensures var valley := ValleyAt(smoothed, start, end, bucket);
      && 2.0 * valley.density == smoothed[bucket - 1] + smoothed[bucket]
      && valley.depth + valley.density
         == if smoothed[left] <= smoothed[right] then smoothed[left] else smoothed[right]
  {}

  /** No other valley is deeper; of the deepest none has a lower density, and of those none is further left. */
  lemma BestIsDeepest(smoothed: seq<real>, start: nat, end: nat, best: Valley, bucket: nat)
    requires start < bucket < end <= |smoothed| && BestOfSegment(smoothed, start, end, best, end)
    ensures var other := ValleyAt(smoothed, start, end, bucket);
      && other.depth <= best.depth
      && (other.depth == best.depth ==> best.density <= other.density)
      && (other.depth == best.depth && other.density == best.density ==> best.bucket <= bucket)
  {
    assert !Better(ValleyAt(smoothed, start, end, bucket), best);
  }

  lemma AnotherValley(smoothed: seq<real>, start: nat, end: nat, best: Option<Valley>, valley: Valley, bucket: nat)
    requires start < bucket < end <= |smoothed| && valley == ValleyAt(smoothed, start, end, bucket)
    requires best.Some? <==> bucket > start + 1
    requires best.Some? ==> BestOfSegment(smoothed, start, end, best.value, bucket)
    ensures BestOfSegment(smoothed, start, end,
                          if best.None? || Better(valley, best.value) then valley else best.value, bucket + 1)
  {}

  /** Running peaks from both sides, then one scan over the edges inside the segment. */
  method BestBucketValley(smoothed: seq<real>, start: nat, end: nat) returns (best: Option<Valley>)
    requires start <= end <= |smoothed|
    ensures best.Some? <==> end - start > 1
    ensures best.Some? ==> BestOfSegment(smoothed, start, end, best.value, end)
  {
    if end - start <= 1 {
      return None;
    }
    var leftPeaks := LeftPeaks(smoothed, start, end);
    var rightPeaks := RightPeaks(smoothed, start, end);
    best := None;
    for bucket := start + 1 to end
      invariant best.Some? <==> bucket > start + 1
      invariant best.Some? ==> BestOfSegment(smoothed, start, end, best.value, bucket)
    {
      var relative := bucket - start;
      var density := (smoothed[bucket - 1] + smoothed[bucket]) / 2.0;
      var depth := MinReal(leftPeaks[relative - 1], rightPeaks[relative]) - density;
      var valley := Valley(bucket, density, depth);
      AnotherValley(smoothed, start, end, best, valley, bucket);
      if best.None? || Better(valley, best.value) {
        best := Some(valley);
      }
    }
  }

  method LeftPeaks(smoothed: seq<real>, start: nat, end: nat) returns (peaks: seq<real>)
    requires start < end <= |smoothed|
    ensures |peaks| == end - start
    ensures forall k :: 0 <= k < |peaks| ==> peaks[k] == Peak(smoothed, start, start + k + 1)
  {
    var running := smoothed[start];
    peaks := [running];
    for i := start + 1 to end
      invariant |peaks| == i - start && running == Peak(smoothed, start, i)
      invariant forall k :: 0 <= k < |peaks| ==> peaks[k] == Peak(smoothed, start, start + k + 1)
    {
      running := MaxReal(running, smoothed[i]);
      peaks := peaks + [running];
    }
  }

  method RightPeaks(smoothed: seq<real>, start: nat, end: nat) returns (peaks: seq<real>)
    requires start < end <= |smoothed|
    ensures |peaks| == end - start
    ensures forall k :: 0 <= k < |peaks| ==> peaks[k] == Peak(smoothed, start + k, end)
  {
    var running := smoothed[end - 1];
    peaks := [running];
    for i := end - 1 downto start
      invariant |peaks| == end - i && running == Peak(smoothed, i, end)
      invariant forall k :: 0 <= k < |peaks| ==> peaks[k] == Peak(smoothed, i + k, end)
    {
      PeakFromLeft(smoothed, i, end);
      running := MaxReal(smoothed[i], running);
      peaks := [running] + peaks;
    }
  }

  // Segments of the axis.

  datatype Segment = Segment(start: nat, end: nat)

  /** The segments cover the buckets one after the other, none empty. */
  ghost predicate Partitioned(segments: seq<Segment>, buckets: nat) {
    && segments != [] && segments[0].start == 0 && segments[|segments| - 1].end == buckets
    && (forall i :: 0 <= i < |segments| ==> segments[i].start < segments[i].end)
    && forall i, j :: 0 <= i && j == i + 1 < |segments| ==> segments[i].end == segments[j].start
  }

  function SplitAt(segments: seq<Segment>, index: nat, bucket: nat): seq<Segment>
    requires index < |segments|
  {
    segments[..index] + [Segment(segments[index].start, bucket), Segment(bucket, segments[index].end)]
    + segments[index + 1..]
  }

  lemma SplitPartitions(segments: seq<Segment>, buckets: nat, index: nat, bucket: nat)
    requires Partitioned(segments, buckets) && index < |segments|
    requires segments[index].start < bucket < segments[index].end
    ensures Partitioned(SplitAt(segments, index, bucket), buckets)
  {
    var split := SplitAt(segments, index, bucket);
    forall i, j | 0 <= i && j == i + 1 < |split|
      ensures split[i].end == split[j].start
    {
      if j < index {
        assert segments[i].end == segments[j].start;
      } else if j == index {
        assert segments[i].end == segments[j].start;
      } else if i > index {
        var i', j' := i - 1, j - 1;
        assert segments[i'].end == segments[j'].start;
      }
    }
  }

  lemma {:induction false} StartsIncrease(segments: seq<Segment>, buckets: nat, i: nat, j: nat)
    requires Partitioned(segments, buckets) && i < j < |segments|
    ensures segments[i].end <= segments[j].start
    decreases j - i
  {
    if i + 1 < j {
      StartsIncrease(segments, buckets, i, j - 1);
    }
    var k := j - 1;
    assert segments[k].end == segments[j].start;
  }

  lemma {:induction false} SegmentsAreFew(segments: seq<Segment>, buckets: nat, i: nat)
    requires Partitioned(segments, buckets) && i < |segments|
    ensures i < segments[i].end <= buckets && i <= segments[i].start
    ensures (forall k :: 0 <= k <= i ==> segments[k].end - segments[k].start <= 1) ==> segments[i].end == i + 1
    decreases i
  {
    var last := |segments| - 1;
    if i < last {
      StartsIncrease(segments, buckets, i, last);
    }
    if i > 0 {
      SegmentsAreFew(segments, buckets, i - 1);
      StartsIncrease(segments, buckets, i - 1, i);
      var k := i - 1;
      assert segments[k].end == segments[i].start;
    }
  }

  predicate SegmentLess(a: Segment, b: Segment) {
    a.start < b.start || (a.start == b.start && a.end < b.end)
  }

  function Itself(segment: Segment): Segment {
    segment
  }

  /** Removing a segment, pushing its two halves and sorting puts the halves where the segment was. */
  lemma SortedSplit(segments: seq<Segment>, buckets: nat, index: nat, bucket: nat)
    requires Partitioned(segments, buckets) && index < |segments|
    requires segments[index].start < bucket < segments[index].end
    ensures var pushed := segments[..index] + segments[index + 1..]
                          + [Segment(segments[index].start, bucket), Segment(bucket, segments[index].end)];
      StableSort.Sort(Itself, SegmentLess, pushed) == SplitAt(segments, index, bucket)
  {
    var left, right := Segment(segments[index].start, bucket), Segment(bucket, segments[index].end);
    var pushed := segments[..index] + segments[index + 1..] + [left, right];
    var split := SplitAt(segments, index, bucket);
    SplitPartitions(segments, buckets, index, bucket);
    forall i, j | 0 <= i < j < |split|
      ensures SegmentLess(split[i], split[j])
    {
      StartsIncrease(split, buckets, i, j);
    }
    SegmentLessIsStrict();
    MultisetMoves(segments[..index], [left, right], segments[index + 1..]);
    StableSort.SortIsPermutation(Itself, SegmentLess, pushed);
    StableSort.SortSorts(Itself, SegmentLess, pushed);
    StableSort.StrictIsUnique(Itself, SegmentLess, split, StableSort.Sort(Itself, SegmentLess, pushed));
  }

  lemma SegmentLessIsStrict()
    ensures StableSort.StrictOrder(SegmentLess)
  {}

  lemma MultisetMoves<T>(a: seq<T>, b: seq<T>, c: seq<T>)
    ensures multiset(a + b + c) == multiset(a + c + b)
  {}

  // Picking a valley.

  /** No edge inside any segment is a better valley. */
  ghost predicate BestOfAll(smoothed: seq<real>, segments: seq<Segment>, best: Valley, limit: nat)
    requires limit <= |segments| && forall i :: 0 <= i < limit ==> segments[i].end <= |smoothed|
  {
    forall i, bucket :: 0 <= i < limit && segments[i].start < bucket < segments[i].end ==>
      !Better(ValleyAt(smoothed, segments[i].start, segments[i].end, bucket), best)
  }

  datatype Candidate = Candidate(segment: nat, valley: Valley)

  ghost predicate IsCandidate(smoothed: seq<real>, segments: seq<Segment>, c: Candidate) {
    && c.segment < |segments| && segments[c.segment].end <= |smoothed|
    && segments[c.segment].start < c.valley.bucket < segments[c.segment].end
    && c.valley == ValleyAt(smoothed, segments[c.segment].start, segments[c.segment].end, c.valley.bucket)
  }

  /** The same over all segments. */
  lemma BestOfAllIsDeepest(smoothed: seq<real>, segments: seq<Segment>, best: Valley, i: nat, bucket: nat)
    requires i < |segments| && forall k :: 0 <= k < |segments| ==> segments[k].end <= |smoothed|
    requires BestOfAll(smoothed, segments, best, |segments|) && segments[i].start < bucket < segments[i].end
    ensures var other := ValleyAt(smoothed, segments[i].start, segments[i].end, bucket);
      && other.depth <= best.depth
      && (other.depth == best.depth ==> best.density <= other.density)
      && (other.depth == best.depth && other.density == best.density ==> best.bucket <= bucket)
  {
    assert !Better(ValleyAt(smoothed, segments[i].start, segments[i].end, bucket), best);
  }

  lemma AnotherSegment(smoothed: seq<real>, segments: seq<Segment>, best: Option<Candidate>, valley: Option<Valley>,
                       i: nat)
    requires i < |segments| && forall k :: 0 <= k < |segments| ==> segments[k].start < segments[k].end <= |smoothed|
    requires best.None? ==> forall k :: 0 <= k < i ==> segments[k].end - segments[k].start <= 1
    requires best.Some? ==> BestOfAll(smoothed, segments, best.value.valley, i)
    requires valley.Some? <==> segments[i].end - segments[i].start > 1
    requires valley.Some? ==> BestOfSegment(smoothed, segments[i].start, segments[i].end, valley.value, segments[i].end)
    ensures valley.Some? && (best.None? || Better(valley.value, best.value.valley)) ==>
      BestOfAll(smoothed, segments, valley.value, i + 1)
    ensures best.Some? && (valley.None? || !Better(valley.value, best.value.valley)) ==>
      BestOfAll(smoothed, segments, best.value.valley, i + 1)
  {}

  method FindBest(smoothed: seq<real>, segments: seq<Segment>) returns (best: Option<Candidate>)
    requires forall k :: 0 <= k < |segments| ==> segments[k].start < segments[k].end <= |smoothed|
    ensures best.None? ==> forall k :: 0 <= k < |segments| ==> segments[k].end - segments[k].start <= 1
    ensures best.Some? ==>
      IsCandidate(smoothed, segments, best.value) && BestOfAll(smoothed, segments, best.value.valley, |segments|)
  {
    best := None;
    for i := 0 to |segments|
      invariant best.None? ==> forall k :: 0 <= k < i ==> segments[k].end - segments[k].start <= 1
      invariant best.Some? ==>
        IsCandidate(smoothed, segments, best.value) && BestOfAll(smoothed, segments, best.value.valley, i)
    {
      var valley := BestBucketValley(smoothed, segments[i].start, segments[i].end);
      AnotherSegment(smoothed, segments, best, valley, i);
      if valley.Some? && (best.None? || Better(valley.value, best.value.valley)) {
        best := Some(Candidate(i, valley.value));
      }
    }
  }

  // Cut values.

  function Edge(minimum: real, maximum: real, buckets: nat): nat -> real
    requires buckets > 0
  {
    (bucket: nat) => minimum + (maximum - minimum) * (bucket as real / buckets as real)
  }

  lemma FractionGrows(a: nat, b: nat, buckets: nat)
    requires a < b && buckets > 0
    ensures a as real / buckets as real < b as real / buckets as real
  {}

  lemma ScaleGrows(width: real, a: real, b: real)
    requires width > 0.0 && a < b
    ensures width * a < width * b
  {}

  lemma EdgesGrow(minimum: real, maximum: real, buckets: nat, a: nat, b: nat)
    requires minimum < maximum && buckets > 0 && a < b
    ensures Edge(minimum, maximum, buckets)(a) < Edge(minimum, maximum, buckets)(b)
  {
    FractionGrows(a, b, buckets);
    ScaleGrows(maximum - minimum, a as real / buckets as real, b as real / buckets as real);
  }

  /** The edges divide the range evenly. */
  lemma EdgesAreEven(minimum: real, maximum: real, buckets: nat, bucket: nat)
    requires buckets > 0
    ensures Edge(minimum, maximum, buckets)(bucket + 1) - Edge(minimum, maximum, buckets)(bucket)
         == (maximum - minimum) / buckets as real
  {
    var width, b, n := maximum - minimum, bucket as real, buckets as real;
    assert (bucket + 1) as real / n == b / n + 1.0 / n;
    assert width * (b / n + 1.0 / n) == width * (b / n) + width * (1.0 / n);
    assert width * (1.0 / n) == width / n;
  }

  /** The inner boundaries of the segments. */
  function Starts(segments: seq<Segment>): (starts: seq<nat>)
    requires segments != []
    ensures |starts| == |segments| - 1
    ensures forall i :: 0 <= i < |starts| ==> starts[i] == segments[i + 1].start
  {
    seq(|segments| - 1, i requires 0 <= i < |segments| - 1 => segments[i + 1].start)
  }

  lemma StartsOfSplit(segments: seq<Segment>, index: nat, bucket: nat)
    requires index < |segments|
    ensures Starts(SplitAt(segments, index, bucket))
         == Starts(segments)[..index] + [bucket] + Starts(segments)[index..]
  {}

  function RealLess(): (real, real) -> bool {
    (a, b) => a < b
  }

  function RealItself(x: real): real {
    x
  }

  /** Sorting the cuts lists the edges of the boundaries from left to right. */
  lemma SortedCuts(cuts: seq<real>, segments: seq<Segment>, minimum: real, maximum: real, buckets: nat)
    requires minimum < maximum && buckets > 0 && Partitioned(segments, buckets)
    requires multiset(cuts) == multiset(Apply(Edge(minimum, maximum, buckets), Starts(segments)))
    ensures StableSort.Sort(RealItself, RealLess(), cuts)
         == Apply(Edge(minimum, maximum, buckets), Starts(segments))
    ensures forall i, j :: 0 <= i < j < |segments| - 1 ==>
      Apply(Edge(minimum, maximum, buckets), Starts(segments))[i]
      < Apply(Edge(minimum, maximum, buckets), Starts(segments))[j]
  {
    var edges := Apply(Edge(minimum, maximum, buckets), Starts(segments));
    forall i, j | 0 <= i < j < |edges|
      ensures edges[i] < edges[j]
    {
      StartsIncrease(segments, buckets, i + 1, j + 1);
      EdgesGrow(minimum, maximum, buckets, Starts(segments)[i], Starts(segments)[j]);
    }
    assert StableSort.StrictOrder(RealLess());
    StableSort.SortIsPermutation(RealItself, RealLess(), cuts);
    StableSort.SortSorts(RealItself, RealLess(), cuts);
    StableSort.StrictIsUnique(RealItself, RealLess(), edges, StableSort.Sort(RealItself, RealLess(), cuts));
  }

  ghost predicate Increasing(cuts: seq<real>) {
    forall i, j :: 0 <= i < j < |cuts| ==> cuts[i] < cuts[j]
  }

  function MinNat(a: nat, b: nat): nat {
    if a <= b then a else b
  }

  // The greedy cut of an axis: always at the best valley that is left.

  ghost predicate IsBestCut(smoothed: seq<real>, segments: seq<Segment>, c: Candidate) {
    && (forall i :: 0 <= i < |segments| ==> segments[i].end <= |smoothed|)
    && IsCandidate(smoothed, segments, c) && BestOfAll(smoothed, segments, c.valley, |segments|)
  }

  ghost predicate CutStep(smoothed: seq<real>, before: seq<Segment>, after: seq<Segment>) {
    exists c :: IsBestCut(smoothed, before, c) && after == SplitAt(before, c.segment, c.valley.bucket)
  }

  /** The segments after no cut, one cut, two cuts and so on. */
  ghost predicate Greedy(smoothed: seq<real>, steps: seq<seq<Segment>>) {
    && steps != [] && steps[0] == [Segment(0, |smoothed|)]
    && forall k: nat :: k + 1 < |steps| ==> CutStep(smoothed, steps[k], steps[k + 1])
  }

  lemma GreedyNext(smoothed: seq<real>, steps: seq<seq<Segment>>, after: seq<Segment>)
    requires Greedy(smoothed, steps) && CutStep(smoothed, steps[|steps| - 1], after)
    ensures Greedy(smoothed, steps + [after])
  {}

  lemma {:induction false} GreedyPartitions(smoothed: seq<real>, steps: seq<seq<Segment>>, k: nat)
    requires smoothed != [] && Greedy(smoothed, steps) && k < |steps|
    ensures Partitioned(steps[k], |smoothed|)
  {
    if k > 0 {
      var j: nat := k - 1;
      GreedyPartitions(smoothed, steps, j);
      assert CutStep(smoothed, steps[j], steps[j + 1]);
      var c :| IsBestCut(smoothed, steps[j], c) && steps[k] == SplitAt(steps[j], c.segment, c.valley.bucket);
      SplitPartitions(steps[j], |smoothed|, c.segment, c.valley.bucket);
    }
  }

  /** Different buckets are never equally good, so there is one best cut. */
  lemma BestCutIsUnique(smoothed: seq<real>, segments: seq<Segment>, c: Candidate, d: Candidate)
    requires Partitioned(segments, |smoothed|) && IsBestCut(smoothed, segments, c) && IsBestCut(smoothed, segments, d)
    ensures c == d
  {
    assert !Better(c.valley, d.valley) && !Better(d.valley, c.valley);
    if c.segment < d.segment {
      StartsIncrease(segments, |smoothed|, c.segment, d.segment);
    } else if d.segment < c.segment {
      StartsIncrease(segments, |smoothed|, d.segment, c.segment);
    }
  }

  /** The histogram and the number of cuts determine all cuts. */
  lemma {:induction false} GreedyIsUnique(smoothed: seq<real>, a: seq<seq<Segment>>, b: seq<seq<Segment>>, k: nat)
    requires smoothed != [] && Greedy(smoothed, a) && Greedy(smoothed, b) && k < |a| && k < |b|
    ensures a[k] == b[k]
  {
    if k > 0 {
      var j: nat := k - 1;
      GreedyIsUnique(smoothed, a, b, j);
      GreedyPartitions(smoothed, a, j);
      assert CutStep(smoothed, a[j], a[j + 1]) && CutStep(smoothed, b[j], b[j + 1]);
      var c :| IsBestCut(smoothed, a[j], c) && a[k] == SplitAt(a[j], c.segment, c.valley.bucket);
      var d :| IsBestCut(smoothed, b[j], d) && b[k] == SplitAt(b[j], d.segment, d.valley.bucket);
      BestCutIsUnique(smoothed, a[j], c, d);
    }
  }

  lemma EdgesEnd(minimum: real, maximum: real, buckets: nat)
    requires buckets > 0
    ensures Edge(minimum, maximum, buckets)(0) == minimum && Edge(minimum, maximum, buckets)(buckets) == maximum
  {
    var first, last := 0 as real / buckets as real, buckets as real / buckets as real;
    assert first == 0.0 && last == 1.0;
    assert (maximum - minimum) * first == 0.0 && (maximum - minimum) * last == maximum - minimum;
  }

  /** The edges below the inner buckets lie strictly inside the range. */
  lemma EdgesInside(segments: seq<Segment>, minimum: real, maximum: real, buckets: nat, i: nat)
    requires minimum < maximum && buckets > 0 && Partitioned(segments, buckets) && i < |segments| - 1
    ensures minimum < Edge(minimum, maximum, buckets)(Starts(segments)[i]) < maximum
  {
    var j: nat := i + 1;
    var start := segments[j].start;
    StartsIncrease(segments, buckets, 0, j);
    SegmentsAreFew(segments, buckets, j);
    EdgesEnd(minimum, maximum, buckets);
    EdgesGrow(minimum, maximum, buckets, 0, start);
    EdgesGrow(minimum, maximum, buckets, start, buckets);
  }

  /** The cuts are the bucket edges between the segments, from left to right. */
  ghost predicate CutsBetween(cuts: seq<real>, segments: seq<Segment>, minimum: real, maximum: real, buckets: nat) {
    && buckets > 0 && segments != [] && cuts == Apply(Edge(minimum, maximum, buckets), Starts(segments))
    && Increasing(cuts) && forall i :: 0 <= i < |cuts| ==> minimum < cuts[i] < maximum
  }

  lemma SortedBetween(cuts: seq<real>, segments: seq<Segment>, minimum: real, maximum: real, buckets: nat)
    requires minimum < maximum && buckets > 0 && Partitioned(segments, buckets)
    requires CutsAtStarts(cuts, segments, Edge(minimum, maximum, buckets))
    ensures CutsBetween(StableSort.Sort(RealItself, RealLess(), cuts), segments, minimum, maximum, buckets)
  {
    SortedCuts(cuts, segments, minimum, maximum, buckets);
    var sorted := StableSort.Sort(RealItself, RealLess(), cuts);
    forall i: nat | i < |sorted|
      ensures minimum < sorted[i] < maximum
    {
      EdgesInside(segments, minimum, maximum, buckets, i);
    }
  }

  /**
   Repeatedly cuts the segment with the deepest valley. On an axis with more than one value this gives the bucket
   edges of the greedy cut, one cut less than bins, or than buckets if there are fewer.
   */
  method SelectHistogramValleyCutValues(minimum: real, maximum: real, counts: seq<nat>, binCount: nat)
    returns (result: Result<seq<real>, CutError>, ghost steps: seq<seq<Segment>>)
    ensures minimum >= maximum || binCount <= 1 ==> result == Ok([])
    ensures minimum < maximum && binCount > 1 ==> (result.Err? <==> |counts| <= 1)
    ensures minimum < maximum && binCount > 1 && result.Ok? ==>
      |result.value| + 1 == |steps| == MinNat(binCount, |counts|) && Greedy(Smoothed(counts), steps)
      && CutsBetween(result.value, steps[|steps| - 1], minimum, maximum, |counts|)
  {
    steps := [];
    if minimum >= maximum || binCount <= 1 {
      return Ok([]), steps;
    }
    if counts == [] {
      // The only segment is empty, so no valley is found and no cut is made.
      return Err(UnsatisfiableConstraint), steps;
    }
    var smoothed := SmoothHistogram(counts);
    var cuts: seq<real>;
    cuts, steps := CutGreedily(smoothed, minimum, maximum, binCount);
    SortedBetween(cuts, steps[|steps| - 1], minimum, maximum, |counts|);
    cuts := StableSort.Sort(RealItself, RealLess(), cuts);
    if cuts == [] {
      return Err(UnsatisfiableConstraint), steps;
    }
    return Ok(cuts), steps;
  }

  /** The cutting loop: it stops at the wanted number of cuts, or when every bucket stands alone. */
  method CutGreedily(smoothed: seq<real>, minimum: real, maximum: real, binCount: nat)
    returns (cuts: seq<real>, ghost steps: seq<seq<Segment>>)
    requires smoothed != [] && binCount > 1
    ensures Greedy(smoothed, steps) && |steps| == MinNat(binCount, |smoothed|)
    ensures Partitioned(steps[|steps| - 1], |smoothed|) && |steps[|steps| - 1]| == |steps|
    ensures CutsAtStarts(cuts, steps[|steps| - 1], Edge(minimum, maximum, |smoothed|))
  {
    var segments := [Segment(0, |smoothed|)];
    cuts := [];
    steps := [segments];
    ghost var edge := Edge(minimum, maximum, |smoothed|);
    var found := true;
    while found && |cuts| < binCount - 1
      invariant Partitioned(segments, |smoothed|) && CutsAtStarts(cuts, segments, edge)
      invariant |cuts| <= binCount - 1 && (!found ==> |segments| == |smoothed|)
      invariant Greedy(smoothed, steps) && |steps| == |segments| && steps[|steps| - 1] == segments
      decreases found, binCount - |cuts|
    {
      found, segments, cuts := CutDeepest(smoothed, segments, cuts, minimum, maximum);
      if found {
        GreedyNext(smoothed, steps, segments);
        steps := steps + [segments];
      }
    }
    SegmentsAreFew(segments, |smoothed|, |segments| - 1);
  }

  /** The cuts made so far are the edges at the inner boundaries. */
  ghost predicate CutsAtStarts(cuts: seq<real>, segments: seq<Segment>, edge: nat -> real)
    requires segments != []
  {
    |cuts| == |segments| - 1 && multiset(cuts) == multiset(Apply(edge, Starts(segments)))
  }

  /** One cut at the best valley of all segments; none is left only when every bucket stands alone. */
  method CutDeepest(smoothed: seq<real>, segments: seq<Segment>, cuts: seq<real>, minimum: real, maximum: real)
    returns (found: bool, newSegments: seq<Segment>, newCuts: seq<real>)
    requires smoothed != [] && Partitioned(segments, |smoothed|)
    requires CutsAtStarts(cuts, segments, Edge(minimum, maximum, |smoothed|))
    ensures Partitioned(newSegments, |smoothed|)
    ensures CutsAtStarts(newCuts, newSegments, Edge(minimum, maximum, |smoothed|))
    ensures !found ==> newSegments == segments && newCuts == cuts && |segments| == |smoothed|
    ensures found ==> |newCuts| == |cuts| + 1 && CutStep(smoothed, segments, newSegments)
  {
    ForallEnds(segments, |smoothed|);
    var best := FindBest(smoothed, segments);
    if best.None? {
      SegmentsAreFew(segments, |smoothed|, |segments| - 1);
      return false, segments, cuts;
    }
    var index, bucket := best.value.segment, best.value.valley.bucket;
    var chosen := segments[index];
    SortedSplit(segments, |smoothed|, index, bucket);
    SplitPartitions(segments, |smoothed|, index, bucket);
    NextCut(cuts, segments, Edge(minimum, maximum, |smoothed|), index, bucket);
    var pushed := segments[..index] + segments[index + 1..]
      + [Segment(chosen.start, bucket), Segment(bucket, chosen.end)];
    newSegments := StableSort.Sort(Itself, SegmentLess, pushed);
    newCuts := cuts + [Edge(minimum, maximum, |smoothed|)(bucket)];
    assert IsBestCut(smoothed, segments, best.value);
    found := true;
  }

  lemma ForallEnds(segments: seq<Segment>, buckets: nat)
    requires Partitioned(segments, buckets)
    ensures forall k :: 0 <= k < |segments| ==> segments[k].start < segments[k].end <= buckets
  {
    forall k | 0 <= k < |segments|
      ensures segments[k].end <= buckets
    {
      SegmentsAreFew(segments, buckets, k);
    }
  }

  lemma NextCut(cuts: seq<real>, segments: seq<Segment>, edge: nat -> real, index: nat, bucket: nat)
    requires index < |segments| && multiset(cuts) == multiset(Apply(edge, Starts(segments)))
    ensures multiset(cuts + [edge(bucket)]) == multiset(Apply(edge, Starts(SplitAt(segments, index, bucket))))
  {
    StartsOfSplit(segments, index, bucket);
    var starts := Starts(segments);
    ApplyMiddle(edge, starts[..index], bucket, starts[index..]);
    assert starts[..index] + starts[index..] == starts;
  }
}
