/** What tree inspection reports about the blocks it visited, and that it is true of them. */
module TreeReport {
  import opened Wrappers
  import opened Machine
  import opened BlockBasics
  import opened StableSort
  import SortKeys

  const U64_MAX := 0xFFFF_FFFF_FFFF_FFFF
  const LARGEST_KEPT := 16

  /** `childCount` is absent for leaves. */
  datatype Visit = Visit(hash: BlockHash, level: U64, childCount: Option<nat>, serializedBytes: U64)

  function Children(v: Visit): (n: nat) {
    if v.childCount.Some? then v.childCount.value else 0
  }

  // ---------------------------------------------------------------- sums and counts over visits

  function Total(f: Visit -> nat, visits: seq<Visit>): nat {
    if visits == [] then 0 else Total(f, visits[..|visits| - 1]) + f(visits[|visits| - 1])
  }

  function Select(p: Visit -> bool, visits: seq<Visit>): (r: seq<Visit>)
    ensures forall v :: v in r <==> v in visits && p(v)
  {
    if visits == [] then []
    else
      var rest, last := visits[..|visits| - 1], visits[|visits| - 1];
      assert visits == rest + [last];
      if p(last) then Select(p, rest) + [last] else Select(p, rest)
  }

  lemma SelectLast(p: Visit -> bool, visits: seq<Visit>, v: Visit)
    ensures Select(p, visits + [v]) == if p(v) then Select(p, visits) + [v] else Select(p, visits)
  {
    assert (visits + [v])[..|visits|] == visits;
  }

  lemma TotalLast(f: Visit -> nat, visits: seq<Visit>, v: Visit)
    ensures Total(f, visits + [v]) == Total(f, visits) + f(v)
  {
    assert (visits + [v])[..|visits|] == visits;
  }

  /** The greatest value of `f`, or 0 when there is nothing to compare. */
  ghost predicate IsMax(f: Visit -> nat, visits: seq<Visit>, m: nat) {
    && (forall v :: v in visits ==> f(v) <= m)
    && (m == 0 || exists v :: v in visits && f(v) == m)
  }

  ghost predicate IsMin(f: Visit -> nat, visits: seq<Visit>, m: Option<nat>) {
    match m
    case None => visits == []
    case Some(least) => (forall v :: v in visits ==> least <= f(v)) && exists v :: v in visits && f(v) == least
  }

  function Max(a: nat, b: nat): nat {
    if a < b then b else a
  }

  lemma MaxLast(f: Visit -> nat, visits: seq<Visit>, m: nat, v: Visit)
    requires IsMax(f, visits, m)
    ensures IsMax(f, visits + [v], Max(m, f(v)))
  {
    assert v in visits + [v];
    if m >= f(v) && m != 0 {
      var w :| w in visits && f(w) == m;
      assert w in visits + [v];
    }
  }

  function MinWith(m: Option<nat>, n: nat): (r: Option<nat>) {
    match m
    case None => Some(n)
    case Some(least) => Some(if n < least then n else least)
  }

  lemma MinLast(f: Visit -> nat, visits: seq<Visit>, m: Option<nat>, v: Visit)
    requires IsMin(f, visits, m)
    ensures IsMin(f, visits + [v], MinWith(m, f(v)))
  {
    assert v in visits + [v];
    if m.Some? && m.value <= f(v) {
      var w :| w in visits && f(w) == m.value;
      assert w in visits + [v];
    }
  }

  function SaturatingAdd(a: nat, b: nat): nat {
    Saturated(a + b)
  }

  function Saturated(n: nat): nat {
    if n <= U64_MAX then n else U64_MAX
  }

  // ---------------------------------------------------------------- per level

  datatype LevelStats = LevelStats(
    blockCount: nat, branchBlockCount: nat, leafBlockCount: nat, totalChildren: nat, minChildren: Option<nat>,
    maxChildren: nat, totalSerializedBytes: nat, maxSerializedBytes: nat)
  {
    function ObserveBranch(childCount: nat, serializedBytes: nat): LevelStats {
      LevelStats(SaturatingAdd(blockCount, 1), SaturatingAdd(branchBlockCount, 1), leafBlockCount,
                 SaturatingAdd(totalChildren, childCount), MinWith(minChildren, childCount),
                 Max(maxChildren, childCount), SaturatingAdd(totalSerializedBytes, serializedBytes),
                 Max(maxSerializedBytes, serializedBytes))
    }

    function ObserveLeaf(serializedBytes: nat): LevelStats {
      this.(blockCount := SaturatingAdd(blockCount, 1), leafBlockCount := SaturatingAdd(leafBlockCount, 1),
            totalSerializedBytes := SaturatingAdd(totalSerializedBytes, serializedBytes),
            maxSerializedBytes := Max(maxSerializedBytes, serializedBytes))
    }

    function Observe(v: Visit): LevelStats {
      match v.childCount
      case Some(n) => ObserveBranch(n, v.serializedBytes)
      case None => ObserveLeaf(v.serializedBytes)
    }
  }

  const NO_STATS := LevelStats(0, 0, 0, 0, None, 0, 0, 0)

  function IsBranch(): Visit -> bool {
    (v: Visit) => v.childCount.Some?
  }

  function IsLeaf(): Visit -> bool {
    (v: Visit) => v.childCount.None?
  }

  function ChildrenOf(): Visit -> nat {
    (v: Visit) => Children(v)
  }

  function BytesOf(): Visit -> nat {
    (v: Visit) => v.serializedBytes
  }

  /** The counters of a level are what its blocks add up to, held at the top of 64 bits. */
  ghost predicate Summarizes(stats: LevelStats, visits: seq<Visit>) {
    && CountsBlocks(stats, visits)
    && SummarizesChildren(stats, visits)
    && SummarizesBytes(stats, visits)
  }

  ghost predicate CountsBlocks(stats: LevelStats, visits: seq<Visit>) {
    match stats
    case LevelStats(blocks, branches, leaves, _, _, _, _, _) =>
      && blocks == Saturated(|visits|)
      && branches == Saturated(|Select(IsBranch(), visits)|)
      && leaves == Saturated(|Select(IsLeaf(), visits)|)
  }

  ghost predicate SummarizesChildren(stats: LevelStats, visits: seq<Visit>) {
    match stats
    case LevelStats(_, _, _, children, least, most, _, _) =>
      var branching := Select(IsBranch(), visits);
      && children == Saturated(Total(ChildrenOf(), branching))
      && IsMin(ChildrenOf(), branching, least)
      && IsMax(ChildrenOf(), branching, most)
  }

  ghost predicate SummarizesBytes(stats: LevelStats, visits: seq<Visit>) {
    match stats
    case LevelStats(_, _, _, _, _, _, bytes, longest) =>
      && bytes == Saturated(Total(BytesOf(), visits))
      && IsMax(BytesOf(), visits, longest)
  }

  lemma ObserveCounts(stats: LevelStats, visits: seq<Visit>, v: Visit)
    requires CountsBlocks(stats, visits)
    ensures CountsBlocks(stats.Observe(v), visits + [v])
  {
    SelectLast(IsBranch(), visits, v);
    SelectLast(IsLeaf(), visits, v);
  }

  lemma ObserveChildren(stats: LevelStats, visits: seq<Visit>, v: Visit)
    requires SummarizesChildren(stats, visits)
    ensures SummarizesChildren(stats.Observe(v), visits + [v])
  {
    var branching := Select(IsBranch(), visits);
    SelectLast(IsBranch(), visits, v);
    TotalLast(ChildrenOf(), branching, v);
    MinLast(ChildrenOf(), branching, stats.minChildren, v);
    MaxLast(ChildrenOf(), branching, stats.maxChildren, v);
  }

  lemma ObserveBytes(stats: LevelStats, visits: seq<Visit>, v: Visit)
    requires SummarizesBytes(stats, visits)
    ensures SummarizesBytes(stats.Observe(v), visits + [v])
  {
    TotalLast(BytesOf(), visits, v);
    MaxLast(BytesOf(), visits, stats.maxSerializedBytes, v);
  }

  lemma ObserveSummarizes(stats: LevelStats, visits: seq<Visit>, v: Visit)
    requires Summarizes(stats, visits)
    ensures Summarizes(stats.Observe(v), visits + [v])
  {
    ObserveCounts(stats, visits, v);
    ObserveChildren(stats, visits, v);
    ObserveBytes(stats, visits, v);
  }

  function AtLevel(level: U64): Visit -> bool {
    (v: Visit) => v.level == level
  }

  type Levels = map<U64, LevelStats>

  /** A level is listed when it occurs, with the summary of its own blocks. */
  ghost predicate SummarizesLevel(levels: Levels, visits: seq<Visit>, level: U64) {
    var own := Select(AtLevel(level), visits);
    && (level in levels <==> |own| > 0)
    && (level in levels ==> Summarizes(levels[level], own))
  }

  ghost predicate SummarizesLevels(levels: Levels, visits: seq<Visit>) {
    forall level: U64 :: SummarizesLevel(levels, visits, level)
  }

  function StatsAt(levels: Levels, level: U64): LevelStats {
    if level in levels then levels[level] else NO_STATS
  }

  function ObserveLevel(levels: Levels, v: Visit): Levels {
    levels[v.level := StatsAt(levels, v.level).Observe(v)]
  }

  lemma NoStatsSummarize(visits: seq<Visit>)
    requires |visits| == 0
    ensures Summarizes(NO_STATS, visits)
  {}

  lemma StatsAtSummarize(levels: Levels, visits: seq<Visit>, level: U64)
    requires SummarizesLevel(levels, visits, level)
    ensures Summarizes(StatsAt(levels, level), Select(AtLevel(level), visits))
  {
    if level !in levels {
      NoStatsSummarize(Select(AtLevel(level), visits));
    }
  }

  lemma ObservedLevel(levels: Levels, visits: seq<Visit>, v: Visit)
    requires SummarizesLevel(levels, visits, v.level)
    ensures SummarizesLevel(ObserveLevel(levels, v), visits + [v], v.level)
  {
    SelectLast(AtLevel(v.level), visits, v);
    StatsAtSummarize(levels, visits, v.level);
    ObserveSummarizes(StatsAt(levels, v.level), Select(AtLevel(v.level), visits), v);
  }

  lemma OtherLevel(levels: Levels, visits: seq<Visit>, v: Visit, level: U64)
    requires SummarizesLevel(levels, visits, level) && level != v.level
    ensures SummarizesLevel(ObserveLevel(levels, v), visits + [v], level)
  {
    SelectLast(AtLevel(level), visits, v);
  }

  lemma ObserveLevelSummarizes(levels: Levels, visits: seq<Visit>, v: Visit)
    requires SummarizesLevels(levels, visits)
    ensures SummarizesLevels(ObserveLevel(levels, v), visits + [v])
  {
    forall level: U64
      ensures SummarizesLevel(ObserveLevel(levels, v), visits + [v], level)
    {
      if level == v.level {
        ObservedLevel(levels, visits, v);
      } else {
        OtherLevel(levels, visits, v, level);
      }
    }
  }

  // ---------------------------------------------------------------- the largest blocks

  datatype SizeKey = SizeKey(serializedBytes: nat, level: nat, hash: seq<int>)

  function SizeKeyOf(): Visit -> SizeKey {
    (v: Visit) => SizeKey(v.serializedBytes, v.level, v.hash)
  }

  /** More bytes first, then the higher level, then the smaller hash. */
  predicate Larger(a: SizeKey, b: SizeKey) {
    a.serializedBytes > b.serializedBytes
    || (a.serializedBytes == b.serializedBytes
        && (a.level > b.level
            || (a.level == b.level && SortKeys.CompareSlices(a.hash, b.hash) == SortKeys.Less)))
  }

  function LargerFirst(): Less<SizeKey> {
    (a, b) => Larger(a, b)
  }

  lemma LargerIsTransitive(a: SizeKey, b: SizeKey, c: SizeKey)
    requires Larger(a, b) && Larger(b, c)
    ensures Larger(a, c)
  {
    if SortKeys.CompareSlices(a.hash, b.hash) == SortKeys.Less
       && SortKeys.CompareSlices(b.hash, c.hash) == SortKeys.Less {
      SortKeys.SlicesTransitive(a.hash, b.hash, c.hash);
    }
  }

  lemma LargerFirstIsStrict()
    ensures StrictOrder(LargerFirst())
  {
    var lt := LargerFirst();
    forall a
      ensures !lt(a, a)
    {
      SortKeys.SlicesOrder(a.hash, a.hash);
    }
    forall a, b, c | lt(a, b) && lt(b, c)
      ensures lt(a, c)
    {
      LargerIsTransitive(a, b, c);
    }
    forall a, b
      ensures lt(a, b) || a == b || lt(b, a)
    {
      SortKeys.SlicesOrder(a.hash, b.hash);
      SortKeys.SlicesOrder(b.hash, a.hash);
    }
  }

  function BySize(visits: seq<Visit>): (r: seq<Visit>)
    ensures |r| == |visits|
  {
    Sort(SizeKeyOf(), LargerFirst(), visits)
  }

  function AtMost(n: nat, visits: seq<Visit>): (r: seq<Visit>) {
    if |visits| <= n then visits else visits[..n]
  }

  /** The first sixteen of all visits in order of size. */
  function Largest(visits: seq<Visit>): (r: seq<Visit>) {
    AtMost(LARGEST_KEPT, BySize(visits))
  }

  lemma {:induction false} SortedStays(s: seq<Visit>)
    requires Sorted(SizeKeyOf(), LargerFirst(), s)
    ensures BySize(s) == s
  {
    if s != [] {
      var rest, last := s[..|s| - 1], s[|s| - 1];
      SortedStays(rest);
      assert rest != [] ==> !LargerFirst()(SizeKeyOf()(last), SizeKeyOf()(s[|s| - 2]));
      assert s == rest + [last];
    }
  }

  /** Inserting into a sorted list: the first `n` places see only the first `n` elements. */
  lemma {:induction false} InsertBelow(s: seq<Visit>, n: nat, v: Visit)
    requires Sorted(SizeKeyOf(), LargerFirst(), s) && n > 0
    ensures AtMost(n, Insert(SizeKeyOf(), LargerFirst(), AtMost(n, s), v))
         == AtMost(n, Insert(SizeKeyOf(), LargerFirst(), s, v))
  {
    LargerFirstIsStrict();
    var key, lt := SizeKeyOf(), LargerFirst();
    if |s| > n {
      var rest, last := s[..|s| - 1], s[|s| - 1];
      assert AtMost(n, rest) == AtMost(n, s);
      if lt(key(v), key(last)) {
        InsertBelow(rest, n, v);
        assert Insert(key, lt, s, v) == Insert(key, lt, rest, v) + [last];
      } else {
        assert !lt(key(last), key(s[n - 1]));
        assert !lt(key(v), key(s[n - 1]));
      }
    }
  }

  /** Keeping only sixteen blocks after every visit loses none of the sixteen largest overall. */
  lemma LargestStep(visits: seq<Visit>, v: Visit)
    ensures AtMost(LARGEST_KEPT, BySize(Largest(visits) + [v])) == Largest(visits + [v])
  {
    var sorted := BySize(visits);
    LargerFirstIsStrict();
    SortSorts(SizeKeyOf(), LargerFirst(), visits);
    SortedStays(Largest(visits));
    assert (Largest(visits) + [v])[..|Largest(visits)|] == Largest(visits);
    assert (visits + [v])[..|visits|] == visits;
    InsertBelow(sorted, LARGEST_KEPT, v);
  }

  /** What the list says: sorted, drawn from the visits, and nothing left out is larger than anything listed. */
  lemma LargestMeans(visits: seq<Visit>, listed: Visit, other: Visit)
    requires listed in Largest(visits) && other in visits && other !in Largest(visits)
    ensures listed in visits && |Largest(visits)| == LARGEST_KEPT
    ensures NotSmaller(listed, other)
  {
    var sorted := BySize(visits);
    LargerFirstIsStrict();
    SortSorts(SizeKeyOf(), LargerFirst(), visits);
    SortIsPermutation(SizeKeyOf(), LargerFirst(), visits);
    assert other in multiset(visits) && other in sorted;
    assert listed in sorted && listed in multiset(sorted);
    var i :| 0 <= i < |Largest(visits)| && Largest(visits)[i] == listed;
    var j :| 0 <= j < |sorted| && sorted[j] == other;
    forall k | 0 <= k < |Largest(visits)|
      ensures Largest(visits)[k] == sorted[k]
    {}
    assert !LargerFirst()(SizeKeyOf()(sorted[j]), SizeKeyOf()(sorted[i]));
    NotLargerMeans(listed, other);
  }

  /** More bytes; or as many and a higher level; or both equal and a hash that does not come later in a dictionary. */
  ghost predicate NotSmaller(a: Visit, b: Visit) {
    || a.serializedBytes > b.serializedBytes
    || (a.serializedBytes == b.serializedBytes && a.level > b.level)
    || (a.serializedBytes == b.serializedBytes && a.level == b.level && !SortKeys.DictionaryBefore(b.hash, a.hash))
  }

  lemma NotLargerMeans(a: Visit, b: Visit)
    ensures NotSmaller(a, b) <==> !Larger(SizeKeyOf()(b), SizeKeyOf()(a))
  {
    SortKeys.SlicesByPosition(b.hash, a.hash);
  }

  /** The list itself runs from the largest block down. */
  lemma LargestInOrder(visits: seq<Visit>, i: nat, j: nat)
    requires i < j < |Largest(visits)|
    ensures NotSmaller(Largest(visits)[i], Largest(visits)[j])
  {
    var sorted := BySize(visits);
    LargerFirstIsStrict();
    SortSorts(SizeKeyOf(), LargerFirst(), visits);
    assert !LargerFirst()(SizeKeyOf()(sorted[j]), SizeKeyOf()(sorted[i]));
    NotLargerMeans(sorted[i], sorted[j]);
  }

  /** Appends the block, sorts and cuts the list back. */
  method InsertLargestBlock(largest: seq<Visit>, v: Visit, ghost visits: seq<Visit>) returns (r: seq<Visit>)
    requires largest == Largest(visits)
    ensures r == Largest(visits + [v])
  {
    LargestStep(visits, v);
    r := largest + [v];
    r := BySize(r);
    if |r| > LARGEST_KEPT {
      r := r[..LARGEST_KEPT];
    }
  }

  // ---------------------------------------------------------------- the whole report

  datatype Report = Report(
    branchBlockCount: nat, leafBlockCount: nat, rootLevel: Option<U64>, maxChildrenInBlock: nat,
    maxSerializedBytes: nat, maxChildCountBlock: Option<Visit>, childCapViolations: seq<Visit>,
    largestBlocks: seq<Visit>, levels: Levels)

  const EMPTY_REPORT := Report(0, 0, None, 0, 0, None, [], [], map[])

  function ExceedsCap(expectedMaxChildren: nat): Visit -> bool {
    (v: Visit) => v.childCount.Some? && v.childCount.value > expectedMaxChildren
  }

  /** The branch at `i` has more children than those before it, and no fewer than those after it. */
  ghost predicate FullestAt(visits: seq<Visit>, i: nat) {
    && i < |visits| && visits[i].childCount.Some?
    && (forall j :: 0 <= j < i && visits[j].childCount.Some? ==> Children(visits[j]) < Children(visits[i]))
    && (forall j :: i < j < |visits| && visits[j].childCount.Some? ==> Children(visits[j]) <= Children(visits[i]))
  }

  /** The first visited branch that no other branch has more children than. */
  ghost predicate IsFirstFullest(visits: seq<Visit>, fullest: Option<Visit>) {
    match fullest
    case None => forall j :: 0 <= j < |visits| ==> visits[j].childCount.None?
    case Some(v) => exists i: nat :: FullestAt(visits, i) && visits[i] == v
  }

  function Fuller(fullest: Option<Visit>, v: Visit): Option<Visit> {
    if v.childCount.Some? && (fullest.None? || Children(v) > Children(fullest.value)) then Some(v) else fullest
  }

  lemma FirstFullestLast(visits: seq<Visit>, fullest: Option<Visit>, v: Visit)
    requires IsFirstFullest(visits, fullest)
    ensures IsFirstFullest(visits + [v], Fuller(fullest, v))
  {
    if fullest.Some? {
      var i: nat :| FullestAt(visits, i) && visits[i] == fullest.value;
      if Fuller(fullest, v) == fullest {
        assert FullestAt(visits + [v], i);
      } else {
        assert FullestAt(visits + [v], |visits|);
      }
    } else if v.childCount.Some? {
      assert FullestAt(visits + [v], |visits|);
    }
  }

  /** What a report says about the visited blocks, in visiting order. */
  ghost predicate Reports(report: Report, cap: nat, visits: seq<Visit>) {
    match report
    case Report(_, _, _, _, _, _, violations, largest, levels) =>
      && ReportsCounts(report, visits)
      && ReportsMaxima(report, visits)
      && violations == Select(ExceedsCap(cap), visits)
      && largest == Largest(visits)
      && SummarizesLevels(levels, visits)
  }

  ghost predicate ReportsCounts(report: Report, visits: seq<Visit>) {
    match report
    case Report(branches, leaves, rootLevel, _, _, _, _, _, _) =>
      && branches == |Select(IsBranch(), visits)|
      && branches + leaves == |visits|
      && rootLevel == if visits == [] then None else Some(visits[0].level)
  }

  ghost predicate ReportsMaxima(report: Report, visits: seq<Visit>) {
    match report
    case Report(_, _, _, maxChildren, maxBytes, fullest, _, _, _) =>
      && IsMax(ChildrenOf(), visits, maxChildren)
      && IsMax(BytesOf(), visits, maxBytes)
      && IsFirstFullest(visits, fullest)
  }

  lemma Assembled(report: Report, cap: nat, visits: seq<Visit>)
    requires ReportsCounts(report, visits) && ReportsMaxima(report, visits) && SummarizesLevels(report.levels, visits)
    requires report.largestBlocks == Largest(visits) && report.childCapViolations == Select(ExceedsCap(cap), visits)
    ensures Reports(report, cap, visits)
  {}

  method NewReport(ghost cap: nat) returns (report: Report)
    ensures forall visits: seq<Visit> :: |visits| == 0 ==> Reports(report, cap, visits)
  {
    report := EMPTY_REPORT;
    forall visits: seq<Visit> | |visits| == 0
      ensures Reports(report, cap, visits)
    {
      assert |Largest(visits)| == 0;
      Assembled(EMPTY_REPORT, cap, visits);
    }
  }

  lemma CountsLast(before: Report, after: Report, visits: seq<Visit>, v: Visit)
    requires ReportsCounts(before, visits)
    requires after.branchBlockCount == before.branchBlockCount + if v.childCount.Some? then 1 else 0
    requires after.leafBlockCount == before.leafBlockCount + if v.childCount.Some? then 0 else 1
    requires after.rootLevel == if before.rootLevel.None? then Some(v.level) else before.rootLevel
    ensures ReportsCounts(after, visits + [v])
  {
    SelectLast(IsBranch(), visits, v);
  }

  lemma MaximaLast(before: Report, after: Report, visits: seq<Visit>, v: Visit)
    requires ReportsMaxima(before, visits)
    requires after.maxChildrenInBlock == Max(before.maxChildrenInBlock, Children(v))
    requires after.maxSerializedBytes == Max(before.maxSerializedBytes, v.serializedBytes)
    requires after.maxChildCountBlock == Fuller(before.maxChildCountBlock, v)
    ensures ReportsMaxima(after, visits + [v])
  {
    MaxLast(ChildrenOf(), visits, before.maxChildrenInBlock, v);
    MaxLast(BytesOf(), visits, before.maxSerializedBytes, v);
    FirstFullestLast(visits, before.maxChildCountBlock, v);
  }

  /** The counters and the violations, one branch or leaf further. */
  method CountBlock(report: Report, cap: nat, v: Visit) returns (r: Report)
    ensures r.branchBlockCount == report.branchBlockCount + if v.childCount.Some? then 1 else 0
    ensures r.leafBlockCount == report.leafBlockCount + if v.childCount.Some? then 0 else 1
    ensures r.rootLevel == if report.rootLevel.None? then Some(v.level) else report.rootLevel
    ensures r.maxChildrenInBlock == Max(report.maxChildrenInBlock, Children(v))
    ensures r.maxSerializedBytes == Max(report.maxSerializedBytes, v.serializedBytes)
    ensures r.maxChildCountBlock == Fuller(report.maxChildCountBlock, v)
    ensures r.childCapViolations == report.childCapViolations + if ExceedsCap(cap)(v) then [v] else []
    ensures r.largestBlocks == report.largestBlocks && r.levels == report.levels
  {
    r := report.(maxSerializedBytes := Max(report.maxSerializedBytes, v.serializedBytes));
    if r.rootLevel.None? {
      r := r.(rootLevel := Some(v.level));
    }
    match v.childCount {
      case Some(childCount) =>
        r := r.(branchBlockCount := r.branchBlockCount + 1,
                maxChildrenInBlock := Max(r.maxChildrenInBlock, childCount));
        if r.maxChildCountBlock.None? || childCount > Children(r.maxChildCountBlock.value) {
          r := r.(maxChildCountBlock := Some(v));
        }
        if childCount > cap {
          r := r.(childCapViolations := r.childCapViolations + [v]);
        }
      case None =>
        r := r.(leafBlockCount := r.leafBlockCount + 1);
    }
  }

  /** The part of one round of the walk that comes after a block was loaded. */
  method ObserveBlock(report: Report, cap: nat, v: Visit, ghost visits: seq<Visit>) returns (r: Report)
    requires Reports(report, cap, visits)
    ensures Reports(r, cap, visits + [v])
  {
    var largest := InsertLargestBlock(report.largestBlocks, v, visits);
    var counted := CountBlock(report, cap, v);
    ObserveLevelSummarizes(report.levels, visits, v);
    r := counted.(largestBlocks := largest, levels := ObserveLevel(report.levels, v));
    CountsLast(report, r, visits, v);
    MaximaLast(report, r, visits, v);
    SelectLast(ExceedsCap(cap), visits, v);
    Assembled(r, cap, visits + [v]);
  }
}
