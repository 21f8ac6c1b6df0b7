/** From counted cells to clusters: the ready plan that numbers clusters and fixes the share of each. */
module ReadyPlan {
  import opened Wrappers
  import SortKeys

  type Key = seq<int>

  predicate KeyLess(a: Key, b: Key) {
    SortKeys.CompareSlices(a, b) == SortKeys.Less
  }

  datatype CellSummary = CellSummary(key: Key, count: nat)

  datatype Cell = Cell(key: Key, count: nat, extraClusters: nat, clusterOffset: nat)

  datatype PlanError = UnsatisfiableConstraint

  // Counting the points of each cell, cells in key order.

  function CountKey(cells: seq<CellSummary>, key: Key): seq<CellSummary> {
    if cells == [] || KeyLess(key, cells[0].key) then [CellSummary(key, 1)] + cells
    else if cells[0].key == key then [CellSummary(key, cells[0].count + 1)] + cells[1..]
    else [cells[0]] + CountKey(cells[1..], key)
  }

  function CountCells(keys: seq<Key>): seq<CellSummary> {
    if keys == [] then [] else CountKey(CountCells(keys[..|keys| - 1]), keys[|keys| - 1])
  }

  function Occurrences(keys: seq<Key>, key: Key): nat {
    if keys == [] then 0 else Occurrences(keys[..|keys| - 1], key) + if keys[|keys| - 1] == key then 1 else 0
  }

  ghost predicate KeysIncrease(cells: seq<CellSummary>) {
    forall i, j :: 0 <= i < j < |cells| ==> KeyLess(cells[i].key, cells[j].key)
  }

  function CountOf(cells: seq<CellSummary>, key: Key): nat {
    if cells == [] then 0 else if cells[0].key == key then cells[0].count else CountOf(cells[1..], key)
  }

  lemma KeyOrder(a: Key, b: Key)
    ensures !KeyLess(a, a)
    ensures KeyLess(a, b) || a == b || KeyLess(b, a)
    ensures KeyLess(a, b) ==> !KeyLess(b, a)
  {
    SortKeys.SlicesOrder(a, a);
    SortKeys.SlicesOrder(a, b);
    SortKeys.SlicesOrder(b, a);
  }

  /** Cells stand in the order of a dictionary over their bin numbers. */
  lemma KeysByPosition(a: Key, b: Key)
    ensures KeyLess(a, b) <==> SortKeys.DictionaryBefore(a, b)
  {
    SortKeys.SlicesByPosition(a, b);
  }

  /** Cells in key order, every count positive, and every cell's key above `low`. */
  ghost predicate Above(low: Key, cells: seq<CellSummary>) {
    forall i :: 0 <= i < |cells| ==> KeyLess(low, cells[i].key)
  }

  lemma {:induction false} CountKeyKeepsAbove(cells: seq<CellSummary>, key: Key, low: Key)
    requires Above(low, cells) && KeyLess(low, key)
    ensures Above(low, CountKey(cells, key))
  {
    if cells != [] && !KeyLess(key, cells[0].key) && cells[0].key != key {
      CountKeyKeepsAbove(cells[1..], key, low);
    }
  }

  lemma AllAbove(cells: seq<CellSummary>, key: Key)
    requires KeysIncrease(cells) && cells != [] && KeyLess(key, cells[0].key)
    ensures Above(key, cells)
  {
    forall i | 0 < i < |cells|
      ensures KeyLess(key, cells[i].key)
    {
      SortKeys.SlicesTransitive(key, cells[0].key, cells[i].key);
    }
  }

  lemma PutInFront(first: CellSummary, rest: seq<CellSummary>)
    requires KeysIncrease(rest) && Above(first.key, rest)
    ensures KeysIncrease([first] + rest)
  {}

  lemma {:induction false} CountKeyKeepsOrder(cells: seq<CellSummary>, key: Key)
    requires KeysIncrease(cells)
    ensures KeysIncrease(CountKey(cells, key))
  {
    if cells == [] {
    } else if KeyLess(key, cells[0].key) {
      AllAbove(cells, key);
      PutInFront(CellSummary(key, 1), cells);
    } else if cells[0].key != key {
      KeyOrder(key, cells[0].key);
      CountKeyKeepsOrder(cells[1..], key);
      CountKeyKeepsAbove(cells[1..], key, cells[0].key);
      PutInFront(cells[0], CountKey(cells[1..], key));
    }
  }

  lemma {:induction false} CountKeyCounts(cells: seq<CellSummary>, key: Key, other: Key)
    requires KeysIncrease(cells) && forall i :: 0 <= i < |cells| ==> cells[i].count > 0
    ensures CountOf(CountKey(cells, key), other) == CountOf(cells, other) + if other == key then 1 else 0
    ensures forall i :: 0 <= i < |CountKey(cells, key)| ==> CountKey(cells, key)[i].count > 0
  {
    if cells == [] {
    } else if KeyLess(key, cells[0].key) {
      KeyAbsentBelow(cells, key);
    } else if cells[0].key != key {
      CountKeyCounts(cells[1..], key, other);
    }
  }

  lemma {:induction false} KeyAbsentBelow(cells: seq<CellSummary>, key: Key)
    requires KeysIncrease(cells) && cells != [] ==> KeyLess(key, cells[0].key)
    requires KeysIncrease(cells)
    ensures CountOf(cells, key) == 0
  {
    if cells != [] {
      KeyOrder(key, cells[0].key);
      if |cells| > 1 {
        SortKeys.SlicesTransitive(key, cells[0].key, cells[1].key);
      }
      KeyAbsentBelow(cells[1..], key);
    }
  }

  /** The counting pass: cells in strict key order, each with the number of points in it. */
  lemma {:induction false} CountsAreOccurrences(keys: seq<Key>, key: Key)
    ensures var cells := CountCells(keys);
      && KeysIncrease(cells)
      && CountOf(cells, key) == Occurrences(keys, key)
      && forall i :: 0 <= i < |cells| ==> cells[i].count > 0
  {
    if keys != [] {
      var front, last := keys[..|keys| - 1], keys[|keys| - 1];
      CountsAreOccurrences(front, key);
      CountKeyKeepsOrder(CountCells(front), last);
      CountKeyCounts(CountCells(front), last, key);
    }
  }

  lemma {:induction false} CountOfAt(cells: seq<CellSummary>, i: nat)
    requires KeysIncrease(cells) && i < |cells|
    ensures CountOf(cells, cells[i].key) == cells[i].count
  {
    if i > 0 {
      KeyOrder(cells[0].key, cells[i].key);
      CountOfAt(cells[1..], i - 1);
    }
  }

  // The plan.

  /** Clusters of the first `n` cells. */
  function Clusters(cells: seq<Cell>): nat {
    if cells == [] then 0 else Clusters(cells[..|cells| - 1]) + 1 + cells[|cells| - 1].extraClusters
  }

  /** Extra clusters that cells of equal points could give. */
  function Available(summaries: seq<CellSummary>, splits: Key -> bool): nat {
    if summaries == [] then 0
    else
      var last := summaries[|summaries| - 1];
      Available(summaries[..|summaries| - 1], splits) + if splits(last.key) && last.count > 1 then last.count - 1 else 0
  }

  function Min(a: nat, b: nat): nat {
    if a <= b then a else b
  }

  ghost predicate CellOf(cells: seq<Cell>, summaries: seq<CellSummary>, i: nat)
    requires i < |cells| && i < |summaries|
  {
    && cells[i].key == summaries[i].key && cells[i].count == summaries[i].count
    && cells[i].extraClusters < cells[i].count
    && cells[i].clusterOffset == Clusters(cells[..i])
  }

  /** Cells take over keys and counts, number their clusters contiguously, and keep a point for each cluster. */
  ghost predicate PlanOf(cells: seq<Cell>, summaries: seq<CellSummary>) {
    |cells| == |summaries| && forall i: nat :: i < |cells| ==> CellOf(cells, summaries, i)
  }

  lemma AppendCell(cells: seq<Cell>, summaries: seq<CellSummary>, cell: Cell)
    requires PlanOf(cells, summaries) && cell.extraClusters < cell.count && cell.clusterOffset == Clusters(cells)
    ensures PlanOf(cells + [cell], summaries + [CellSummary(cell.key, cell.count)])
    ensures Clusters(cells + [cell]) == Clusters(cells) + 1 + cell.extraClusters
  {
    var all, sums := cells + [cell], summaries + [CellSummary(cell.key, cell.count)];
    assert all[..|cells|] == cells;
    forall i: nat | i < |all|
      ensures CellOf(all, sums, i)
    {
      if i < |cells| {
        assert CellOf(cells, summaries, i) && all[..i] == cells[..i];
      }
    }
  }

  lemma PlanPrefix(cells: seq<Cell>, summaries: seq<CellSummary>)
    requires PlanOf(cells, summaries) && cells != []
    ensures var n := |cells| - 1;
      && PlanOf(cells[..n], summaries[..n]) && cells[n].clusterOffset == Clusters(cells[..n])
      && cells[n].extraClusters < cells[n].count
  {
    var n := |cells| - 1;
    forall i: nat | i < n
      ensures CellOf(cells[..n], summaries[..n], i)
    {
      assert CellOf(cells, summaries, i) && cells[..n][..i] == cells[..i];
    }
    assert CellOf(cells, summaries, n);
  }

  /** Cell `i` gets extra clusters only if it may be split, and all it can before a later cell gets any. */
  ghost predicate SplitInTurn(cells: seq<Cell>, splits: Key -> bool, i: nat)
    requires i < |cells|
  {
    && (cells[i].extraClusters > 0 ==> splits(cells[i].key))
    && (splits(cells[i].key) && cells[i].extraClusters + 1 < cells[i].count ==>
          forall j :: i < j < |cells| ==> cells[j].extraClusters == 0)
  }

  ghost predicate AllSplitInTurn(cells: seq<Cell>, splits: Key -> bool) {
    forall i: nat :: i < |cells| ==> SplitInTurn(cells, splits, i)
  }

  /** A cell that could be split further is left only when nothing is missing any more. */
  ghost predicate SplitUp(cells: seq<Cell>, splits: Key -> bool, remaining: nat) {
    remaining > 0 ==>
      forall i :: 0 <= i < |cells| && splits(cells[i].key) ==> cells[i].extraClusters + 1 >= cells[i].count
  }

  lemma SplitNext(cells: seq<Cell>, splits: Key -> bool, remaining: nat, summary: CellSummary, offset: nat)
    requires AllSplitInTurn(cells, splits) && SplitUp(cells, splits, remaining)
    ensures var extra := Extras(summary, splits, remaining);
      var all := cells + [Cell(summary.key, summary.count, extra, offset)];
      AllSplitInTurn(all, splits) && SplitUp(all, splits, remaining - extra)
  {
    var all := cells + [Cell(summary.key, summary.count, Extras(summary, splits, remaining), offset)];
    forall i: nat | i < |all|
      ensures SplitInTurn(all, splits, i)
    {
      if i < |cells| {
        assert SplitInTurn(cells, splits, i);
      }
    }
  }

  /** State of the planning loop: cells so far, the next free cluster, and the shortfall that is left. */
  datatype Progress = Progress(cells: seq<Cell>, offset: nat, remaining: nat)

  ghost predicate Planning(p: Progress, summaries: seq<CellSummary>, splits: Key -> bool, shortfall: nat) {
    match p
    case Progress(cells, offset, remaining) =>
      && PlanOf(cells, summaries) && offset == Clusters(cells)
      && remaining == shortfall - Min(shortfall, Available(summaries, splits))
      && offset == |cells| + (shortfall - remaining)
  }

  /** How many extra clusters a cell gets: as many as are still missing, leaving each cluster a point. */
  function Extras(summary: CellSummary, splits: Key -> bool, remaining: nat): (extra: nat)
    ensures extra <= remaining && (summary.count > 0 ==> extra < summary.count)
  {
    if remaining > 0 && splits(summary.key) && summary.count > 1 then Min(remaining, summary.count - 1) else 0
  }

  lemma AvailableStep(summaries: seq<CellSummary>, summary: CellSummary, splits: Key -> bool, shortfall: nat,
                      remaining: nat)
    requires remaining == shortfall - Min(shortfall, Available(summaries, splits))
    ensures remaining - Extras(summary, splits, remaining)
         == shortfall - Min(shortfall, Available(summaries + [summary], splits))
  {
    assert (summaries + [summary])[..|summaries|] == summaries;
  }

  lemma PlanningStep(p: Progress, summaries: seq<CellSummary>, summary: CellSummary, splits: Key -> bool,
                     shortfall: nat)
    requires Planning(p, summaries, splits, shortfall) && summary.count > 0
    ensures var extra := Extras(summary, splits, p.remaining);
      Planning(Progress(p.cells + [Cell(summary.key, summary.count, extra, p.offset)], p.offset + 1 + extra,
                        p.remaining - extra), summaries + [summary], splits, shortfall)
  {
    var extra := Extras(summary, splits, p.remaining);
    AppendCell(p.cells, summaries, Cell(summary.key, summary.count, extra, p.offset));
    AvailableStep(summaries, summary, splits, shortfall, p.remaining);
    assert CellSummary(summary.key, summary.count) == summary;
  }

  /**
   Splits cells of equal points until the requested number of clusters is reached or nothing is left to
   split; in exact mode a shortfall is an error.
   */
  method BuildReadyPartitionPlan(summaries: seq<CellSummary>, splits: Key -> bool, requested: nat, exact: bool)
    returns (result: Result<seq<Cell>, PlanError>)
    requires forall i :: 0 <= i < |summaries| ==> summaries[i].count > 0
    ensures result.Err? <==> exact && |summaries| + Available(summaries, splits) < requested
    ensures result.Ok? ==> PlanOf(result.value, summaries) && AllSplitInTurn(result.value, splits)
    ensures result.Ok? && |summaries| <= requested ==>
      && Clusters(result.value) == Min(requested, |summaries| + Available(summaries, splits))
      && (exact ==> Clusters(result.value) == requested)
  {
    var shortfall := if requested > |summaries| then requested - |summaries| else 0;
    var remaining: nat := shortfall;
    var cells: seq<Cell> := [];
    var offset: nat := 0;
    for i := 0 to |summaries|
      invariant Planning(Progress(cells, offset, remaining), summaries[..i], splits, shortfall)
      invariant AllSplitInTurn(cells, splits) && SplitUp(cells, splits, remaining)
    {
      var summary := summaries[i];
      SplitNext(cells, splits, remaining, summary, offset);
      PlanningStep(Progress(cells, offset, remaining), summaries[..i], summary, splits, shortfall);
      assert summaries[..i + 1] == summaries[..i] + [summary];
      var extra := Extras(summary, splits, remaining);
      remaining := remaining - extra;
      cells := cells + [Cell(summary.key, summary.count, extra, offset)];
      offset := offset + 1 + extra;
    }
    assert summaries[..|summaries|] == summaries;
    PlanningDone(Progress(cells, offset, remaining), summaries, splits, requested);
    if exact && remaining > 0 {
      return Err(UnsatisfiableConstraint);
    }
    return Ok(cells);
  }

  /**
   The end of the counting pass: without a cell, or with more cells than clusters, there is no plan. Any other
   plan has as many clusters as requested, or all that its cells can give.
   */
  method FinishCellCounting(summaries: seq<CellSummary>, splits: Key -> bool, requested: nat, exact: bool)
    returns (result: Result<seq<Cell>, PlanError>, realized: nat)
    requires forall i :: 0 <= i < |summaries| ==> summaries[i].count > 0
    ensures result.Ok? <==> 0 < |summaries| <= requested
                            && (exact ==> requested <= |summaries| + Available(summaries, splits))
    ensures result.Ok? ==> PlanOf(result.value, summaries) && realized == Clusters(result.value)
    ensures result.Ok? ==> AllSplitInTurn(result.value, splits)
    ensures result.Ok? ==> realized == Min(requested, |summaries| + Available(summaries, splits))
    ensures result.Ok? ==> 1 <= realized <= requested && (exact ==> realized == requested)
  {
    realized := 0;
    if |summaries| == 0 || |summaries| > requested {
      return Err(UnsatisfiableConstraint), realized;
    }
    result := BuildReadyPartitionPlan(summaries, splits, requested, exact);
    if result.Err? {
      return result, realized;
    }
    var cells := result.value;
    for i := 0 to |cells|
      invariant realized == Clusters(cells[..i])
    {
      assert cells[..i + 1][..i] == cells[..i];
      realized := realized + 1 + cells[i].extraClusters;
    }
    assert cells[..|cells|] == cells;
  }

  lemma PlanningDone(p: Progress, summaries: seq<CellSummary>, splits: Key -> bool, requested: nat)
    requires Planning(p, summaries, splits, if requested > |summaries| then requested - |summaries| else 0)
    ensures PlanOf(p.cells, summaries)
    ensures p.remaining > 0 <==> |summaries| + Available(summaries, splits) < requested
    ensures |summaries| <= requested ==>
      Clusters(p.cells) == Min(requested, |summaries| + Available(summaries, splits))
  {}

  // Clusters and their shares.

  /** Which cluster the next point of a cell goes to, after `seen` of its points. */
  function ClusterIndex(cell: Cell, seen: nat): int {
    var baseCount := cell.count - cell.extraClusters;
    if seen < baseCount then cell.clusterOffset else cell.clusterOffset + 1 + (seen - baseCount)
  }

  /**
   The points of a cell fill its first cluster and then its extra clusters in order, one point each: a later point
   never goes to an earlier cluster, and shares a cluster with a point before it only in the first one.
   */
  lemma ClustersFillInOrder(cell: Cell, seen: nat, later: nat)
    requires cell.extraClusters < cell.count && seen < later < cell.count
    ensures cell.clusterOffset <= ClusterIndex(cell, seen) <= ClusterIndex(cell, later)
            <= cell.clusterOffset + cell.extraClusters
    ensures ClusterIndex(cell, seen) == ClusterIndex(cell, later) <==> ClusterIndex(cell, later) == cell.clusterOffset
    ensures ClusterIndex(cell, cell.count - 1) == cell.clusterOffset + cell.extraClusters
  {}

  function Ones(count: nat): (ones: seq<nat>)
    ensures |ones| == count && forall i :: 0 <= i < count ==> ones[i] == 1
  {
    seq(count, _ => 1)
  }

  /** The planned share of every cluster, in cluster order. */
  function ReplayOrderChildCounts(cells: seq<Cell>): seq<int> {
    if cells == [] then []
    else
      var last := cells[|cells| - 1];
      ReplayOrderChildCounts(cells[..|cells| - 1]) + [last.count - last.extraClusters] + Ones(last.extraClusters)
  }

  function SumOf(counts: seq<int>): int {
    if counts == [] then 0 else SumOf(counts[..|counts| - 1]) + counts[|counts| - 1]
  }

  function Points(cells: seq<Cell>): nat {
    if cells == [] then 0 else Points(cells[..|cells| - 1]) + cells[|cells| - 1].count
  }

  lemma {:induction false} SumOfOnes(counts: seq<int>, count: nat)
    ensures SumOf(counts + Ones(count)) == SumOf(counts) + count
  {
    if count == 0 {
      assert counts + Ones(0) == counts;
    } else {
      SumOfOnes(counts, count - 1);
      var all := counts + Ones(count);
      assert all[..|all| - 1] == counts + Ones(count - 1);
    }
  }

  ghost predicate AllPositive(shares: seq<int>) {
    forall c :: 0 <= c < |shares| ==> shares[c] >= 1
  }

  /** The shares of one more cell. */
  lemma SharesOfLast(shares: seq<int>, cell: Cell)
    requires cell.count > cell.extraClusters
    ensures var all := shares + [cell.count - cell.extraClusters] + Ones(cell.extraClusters);
      && SumOf(all) == SumOf(shares) + cell.count
      && |all| == |shares| + 1 + cell.extraClusters
      && (AllPositive(shares) ==> AllPositive(all))
  {
    SumOfOnes(shares + [cell.count - cell.extraClusters], cell.extraClusters);
    assert (shares + [cell.count - cell.extraClusters])[..|shares|] == shares;
  }

  /** Shares are positive, one per cluster, and add up to all points. */
  lemma {:induction false} SharesAddUp(cells: seq<Cell>, summaries: seq<CellSummary>)
    requires PlanOf(cells, summaries)
    ensures |ReplayOrderChildCounts(cells)| == Clusters(cells)
    ensures SumOf(ReplayOrderChildCounts(cells)) == Points(cells)
    ensures AllPositive(ReplayOrderChildCounts(cells))
  {
    if cells != [] {
      var n := |cells| - 1;
      var front, last := cells[..n], cells[n];
      PlanPrefix(cells, summaries);
      SharesAddUp(front, summaries[..n]);
      SharesOfLast(ReplayOrderChildCounts(front), last);
    }
  }

  /** The shares of one cell: the rest goes to its first cluster, one point to each extra one. */
  ghost predicate SharesOf(shares: seq<int>, cell: Cell) {
    && cell.clusterOffset + cell.extraClusters < |shares|
    && shares[cell.clusterOffset] == cell.count - cell.extraClusters
    && forall c :: cell.clusterOffset < c <= cell.clusterOffset + cell.extraClusters ==> shares[c] == 1
  }

  lemma {:induction false} ShareAt(cells: seq<Cell>, summaries: seq<CellSummary>, i: nat)
    requires PlanOf(cells, summaries) && i < |cells|
    ensures SharesOf(ReplayOrderChildCounts(cells), cells[i])
  {
    var n := |cells| - 1;
    PlanPrefix(cells, summaries);
    SharesAddUp(cells[..n], summaries[..n]);
    if i < n {
      ShareAt(cells[..n], summaries[..n], i);
    }
  }
}
