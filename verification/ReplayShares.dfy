/** Replaying the counted data through a ready plan: training and replay agree, and every share is exact. */
module ReplayShares {
  import opened Wrappers
  import opened ReadyPlan
  import SortKeys

  ghost predicate CellsIncrease(cells: seq<Cell>) {
    forall i, j :: 0 <= i < j < |cells| ==> KeyLess(cells[i].key, cells[j].key)
  }

  ghost predicate HasKey(cells: seq<Cell>, key: Key) {
    exists i :: 0 <= i < |cells| && cells[i].key == key
  }

  /** The only cell with this key. */
  ghost function IndexOf(cells: seq<Cell>, key: Key): (i: nat)
    requires HasKey(cells, key)
    ensures i < |cells| && cells[i].key == key
  {
    var i :| 0 <= i < |cells| && cells[i].key == key;
    i
  }

  lemma IndexIsUnique(cells: seq<Cell>, i: nat)
    requires CellsIncrease(cells) && i < |cells|
    ensures HasKey(cells, cells[i].key) && IndexOf(cells, cells[i].key) == i
  {
    var j := IndexOf(cells, cells[i].key);
    KeyOrder(cells[i].key, cells[j].key);
  }

  method FindCell(cells: seq<Cell>, key: Key) returns (found: Option<nat>)
    requires CellsIncrease(cells)
    ensures found.Some? ==> found.value < |cells| && cells[found.value].key == key
    ensures found.None? ==> !HasKey(cells, key)
  {
    var low, high := 0, |cells|;
    while low < high
      invariant 0 <= low <= high <= |cells|
      invariant forall i :: 0 <= i < low ==> KeyLess(cells[i].key, key)
      invariant forall i :: high <= i < |cells| ==> KeyLess(key, cells[i].key)
    {
      var middle := (low + high) / 2;
      var ordering := SortKeys.CompareSlices(cells[middle].key, key);
      KeyOrder(cells[middle].key, key);
      if ordering == SortKeys.Equal {
        SortKeys.SlicesOrder(cells[middle].key, key);
        return Some(middle);
      } else if ordering == SortKeys.Less {
        SmallerLeft(cells, key, middle);
        low := middle + 1;
      } else {
        SortKeys.SlicesOrder(key, cells[middle].key);
        GreaterRight(cells, key, middle);
        high := middle;
      }
    }
    NowhereBetween(cells, key, low);
    return None;
  }

  lemma SmallerLeft(cells: seq<Cell>, key: Key, middle: nat)
    requires CellsIncrease(cells) && middle < |cells| && KeyLess(cells[middle].key, key)
    ensures forall i :: 0 <= i <= middle ==> KeyLess(cells[i].key, key)
  {
    forall i | 0 <= i < middle
      ensures KeyLess(cells[i].key, key)
    {
      SortKeys.SlicesTransitive(cells[i].key, cells[middle].key, key);
    }
  }

  lemma GreaterRight(cells: seq<Cell>, key: Key, middle: nat)
    requires CellsIncrease(cells) && middle < |cells| && KeyLess(key, cells[middle].key)
    ensures forall i :: middle <= i < |cells| ==> KeyLess(key, cells[i].key)
  {
    forall i | middle < i < |cells|
      ensures KeyLess(key, cells[i].key)
    {
      SortKeys.SlicesTransitive(key, cells[middle].key, cells[i].key);
    }
  }

  lemma NowhereBetween(cells: seq<Cell>, key: Key, low: nat)
    requires low <= |cells|
    requires forall i :: 0 <= i < low ==> KeyLess(cells[i].key, key)
    requires forall i :: low <= i < |cells| ==> KeyLess(key, cells[i].key)
    ensures !HasKey(cells, key)
  {
    KeyOrder(key, key);
  }

  // Which cluster each point goes to.

  ghost predicate Covered(cells: seq<Cell>, keys: seq<Key>) {
    forall p :: 0 <= p < |keys| ==> HasKey(cells, keys[p])
  }

  /** The clusters of the points in replay order. */
  ghost function Assigned(cells: seq<Cell>, keys: seq<Key>): (clusters: seq<int>)
    requires Covered(cells, keys)
    ensures |clusters| == |keys|
  {
    if keys == [] then []
    else
      var front, last := keys[..|keys| - 1], keys[|keys| - 1];
      Assigned(cells, front) + [ClusterIndex(cells[IndexOf(cells, last)], Occurrences(front, last))]
  }

  function CountIn(clusters: seq<int>, c: int): nat {
    if clusters == [] then 0
    else CountIn(clusters[..|clusters| - 1], c) + if clusters[|clusters| - 1] == c then 1 else 0
  }

  /** The points a cluster of a cell has received after `seen` points of the cell. */
  function Received(cell: Cell, seen: nat, c: int): int {
    if c == cell.clusterOffset then
      (if seen <= cell.count - cell.extraClusters then seen else cell.count - cell.extraClusters)
    else if seen > cell.count - cell.extraClusters + (c - cell.clusterOffset - 1) then 1 else 0
  }

  predicate Owns(cell: Cell, c: int) {
    cell.clusterOffset <= c <= cell.clusterOffset + cell.extraClusters
  }

  /** The clusters of a cell follow those of the cells before it. */
  lemma {:induction false} ClustersGrow(cells: seq<Cell>, i: nat, j: nat)
    requires i <= j <= |cells|
    ensures Clusters(cells[..i]) <= Clusters(cells[..j])
    ensures i < j ==> Clusters(cells[..i]) + 1 + cells[i].extraClusters <= Clusters(cells[..j])
    decreases j - i
  {
    if i < j {
      assert cells[..j][..j - 1] == cells[..j - 1];
      ClustersGrow(cells, i, j - 1);
    }
  }

  lemma OwnersDiffer(cells: seq<Cell>, summaries: seq<CellSummary>, i: nat, j: nat, c: int)
    requires PlanOf(cells, summaries) && i < |cells| && j < |cells| && i != j
    requires Owns(cells[i], c)
    ensures !Owns(cells[j], c)
  {
    assert CellOf(cells, summaries, i) && CellOf(cells, summaries, j);
    if i < j {
      ClustersGrow(cells, i, j);
    } else {
      ClustersGrow(cells, j, i);
    }
  }

  /** A cell's next point lands in one of its own clusters and is the one point that cluster gains. */
  lemma NextReceived(cell: Cell, seen: nat, c: int)
    requires seen < cell.count && cell.extraClusters < cell.count && Owns(cell, c)
    ensures Owns(cell, ClusterIndex(cell, seen))
    ensures Received(cell, seen + 1, c) == Received(cell, seen, c) + if ClusterIndex(cell, seen) == c then 1 else 0
  {}

  lemma {:induction false} ClusterCounts(cells: seq<Cell>, summaries: seq<CellSummary>, keys: seq<Key>, i: nat, c: int)
    requires PlanOf(cells, summaries) && CellsIncrease(cells) && Covered(cells, keys)
    requires forall j :: 0 <= j < |cells| ==> Occurrences(keys, cells[j].key) <= cells[j].count
    requires i < |cells| && Owns(cells[i], c)
    ensures CountIn(Assigned(cells, keys), c) == Received(cells[i], Occurrences(keys, cells[i].key), c)
  {
    if keys == [] {
      assert CellOf(cells, summaries, i);
    } else {
      var front, last := keys[..|keys| - 1], keys[|keys| - 1];
      assert HasKey(cells, last);
      var j := IndexOf(cells, last);
      CountsOfFront(cells, keys);
      ClusterCounts(cells, summaries, front, i, c);
      assert CellOf(cells, summaries, i) && CellOf(cells, summaries, j);
      var seen := Occurrences(front, last);
      assert Occurrences(keys, cells[j].key) == seen + 1;
      assert Assigned(cells, keys)[..|front|] == Assigned(cells, front);
      if j == i {
        NextReceived(cells[i], seen, c);
      } else {
        NextReceived(cells[j], seen, cells[j].clusterOffset);
        OwnersDiffer(cells, summaries, i, j, c);
        IndexIsUnique(cells, i);
      }
    }
  }

  lemma CountsOfFront(cells: seq<Cell>, keys: seq<Key>)
    requires keys != [] && Covered(cells, keys)
    requires forall j :: 0 <= j < |cells| ==> Occurrences(keys, cells[j].key) <= cells[j].count
    ensures var front := keys[..|keys| - 1];
      && Covered(cells, front)
      && forall j :: 0 <= j < |cells| ==> Occurrences(front, cells[j].key) <= cells[j].count
  {
    var front := keys[..|keys| - 1];
    forall j | 0 <= j < |cells|
      ensures Occurrences(front, cells[j].key) <= cells[j].count
    {
      assert Occurrences(keys, cells[j].key) <= cells[j].count;
    }
    forall p | 0 <= p < |front|
      ensures HasKey(cells, front[p])
    {
      assert front[p] == keys[p];
    }
  }

  // Replaying exactly the data that was counted.

  /** The replayed points are those the plan was made from. */
  ghost predicate FaithfulReplay(cells: seq<Cell>, keys: seq<Key>) {
    && CellsIncrease(cells) && Covered(cells, keys)
    && forall j :: 0 <= j < |cells| ==> Occurrences(keys, cells[j].key) == cells[j].count
  }

  lemma {:induction false} PositiveCountHasCell(summaries: seq<CellSummary>, key: Key)
    requires CountOf(summaries, key) > 0
    ensures exists i :: 0 <= i < |summaries| && summaries[i].key == key
  {
    if summaries[0].key != key {
      PositiveCountHasCell(summaries[1..], key);
      var i :| 0 <= i < |summaries[1..]| && summaries[1..][i].key == key;
      assert summaries[i + 1].key == key;
    }
  }

  lemma {:induction false} MemberOccurs(keys: seq<Key>, p: nat)
    requires p < |keys|
    ensures Occurrences(keys, keys[p]) > 0
  {
    if p < |keys| - 1 {
      MemberOccurs(keys[..|keys| - 1], p);
    }
  }

  lemma CountedReplayIsFaithful(cells: seq<Cell>, keys: seq<Key>)
    requires PlanOf(cells, CountCells(keys))
    ensures FaithfulReplay(cells, keys)
  {
    var summaries := CountCells(keys);
    CountsAreOccurrences(keys, []);
    forall i, j | 0 <= i < j < |cells|
      ensures KeyLess(cells[i].key, cells[j].key)
    {
      assert CellOf(cells, summaries, i) && CellOf(cells, summaries, j);
    }
    forall p | 0 <= p < |keys|
      ensures HasKey(cells, keys[p])
    {
      CountsAreOccurrences(keys, keys[p]);
      MemberOccurs(keys, p);
      PositiveCountHasCell(summaries, keys[p]);
      var i :| 0 <= i < |summaries| && summaries[i].key == keys[p];
      assert CellOf(cells, summaries, i);
    }
    forall j | 0 <= j < |cells|
      ensures Occurrences(keys, cells[j].key) == cells[j].count
    {
      assert CellOf(cells, summaries, j);
      CountsAreOccurrences(keys, cells[j].key);
      CountOfAt(summaries, j);
    }
  }

  lemma {:induction false} OwnerOf(cells: seq<Cell>, summaries: seq<CellSummary>, c: nat) returns (i: nat)
    requires PlanOf(cells, summaries) && c < Clusters(cells)
    ensures i < |cells| && Owns(cells[i], c)
  {
    var n := |cells| - 1;
    PlanPrefix(cells, summaries);
    if c >= cells[n].clusterOffset {
      i := n;
    } else {
      i := OwnerOf(cells[..n], summaries[..n], c);
    }
  }

  /** Every cluster receives exactly its planned share, which is at least one point, so none stays empty. */
  lemma SharesAreExact(cells: seq<Cell>, keys: seq<Key>, c: nat)
    requires PlanOf(cells, CountCells(keys)) && c < Clusters(cells)
    ensures FaithfulReplay(cells, keys) && |ReplayOrderChildCounts(cells)| == Clusters(cells)
    ensures CountIn(Assigned(cells, keys), c) == ReplayOrderChildCounts(cells)[c] >= 1
  {
    var summaries := CountCells(keys);
    CountedReplayIsFaithful(cells, keys);
    SharesAddUp(cells, summaries);
    var i := OwnerOf(cells, summaries, c);
    ClusterCounts(cells, summaries, keys, i, c);
    ShareAt(cells, summaries, i);
    assert CellOf(cells, summaries, i);
  }

  /** All points of the replay are shared out. */
  lemma {:induction false} SharesCoverReplay(cells: seq<Cell>, keys: seq<Key>)
    requires PlanOf(cells, CountCells(keys))
    ensures SumOf(ReplayOrderChildCounts(cells)) == |keys|
  {
    SharesAddUp(cells, CountCells(keys));
    PointsAreCounted(cells, CountCells(keys));
    CountsSum(keys);
  }

  function CountSum(summaries: seq<CellSummary>): nat {
    if summaries == [] then 0 else CountSum(summaries[..|summaries| - 1]) + summaries[|summaries| - 1].count
  }

  lemma {:induction false} PointsAreCounted(cells: seq<Cell>, summaries: seq<CellSummary>)
    requires PlanOf(cells, summaries)
    ensures Points(cells) == CountSum(summaries)
  {
    if cells != [] {
      assert CellOf(cells, summaries, |cells| - 1);
      PlanPrefix(cells, summaries);
      PointsAreCounted(cells[..|cells| - 1], summaries[..|cells| - 1]);
    }
  }

  lemma {:induction false} CountSumConcat(a: seq<CellSummary>, b: seq<CellSummary>)
    ensures CountSum(a + b) == CountSum(a) + CountSum(b)
  {
    if b == [] {
      assert a + b == a;
    } else {
      CountSumConcat(a, b[..|b| - 1]);
      assert (a + b)[..|a + b| - 1] == a + b[..|b| - 1];
    }
  }

  lemma {:induction false} CountKeySum(summaries: seq<CellSummary>, key: Key)
    ensures CountSum(CountKey(summaries, key)) == CountSum(summaries) + 1
  {
    if summaries == [] || KeyLess(key, summaries[0].key) {
      CountSumConcat([CellSummary(key, 1)], summaries);
    } else {
      assert summaries == [summaries[0]] + summaries[1..];
      CountSumConcat([summaries[0]], summaries[1..]);
      if summaries[0].key == key {
        CountSumConcat([CellSummary(key, summaries[0].count + 1)], summaries[1..]);
      } else {
        CountKeySum(summaries[1..], key);
        CountSumConcat([summaries[0]], CountKey(summaries[1..], key));
      }
    }
  }

  lemma {:induction false} CountsSum(keys: seq<Key>)
    ensures CountSum(CountCells(keys)) == |keys|
  {
    if keys != [] {
      CountsSum(keys[..|keys| - 1]);
      CountKeySum(CountCells(keys[..|keys| - 1]), keys[|keys| - 1]);
    }
  }

  // The loop that hands out clusters again.

  /** Points seen so far, cell by cell. */
  ghost predicate SeenCounts(cells: seq<Cell>, seen: seq<nat>, keys: seq<Key>) {
    |seen| == |cells| && forall j :: 0 <= j < |cells| ==> seen[j] == Occurrences(keys, cells[j].key)
  }

  lemma SeenNext(cells: seq<Cell>, seen: seq<nat>, keys: seq<Key>, i: nat)
    requires CellsIncrease(cells) && SeenCounts(cells, seen, keys) && i < |cells|
    ensures SeenCounts(cells, seen[i := seen[i] + 1], keys + [cells[i].key])
  {
    var key := cells[i].key;
    assert (keys + [key])[..|keys|] == keys;
    forall j | 0 <= j < |cells|
      ensures seen[i := seen[i] + 1][j] == Occurrences(keys + [key], cells[j].key)
    {
      KeyOrder(cells[i].key, cells[j].key);
    }
  }

  lemma AssignedNext(cells: seq<Cell>, keys: seq<Key>, i: nat)
    requires CellsIncrease(cells) && Covered(cells, keys) && i < |cells|
    ensures Covered(cells, keys + [cells[i].key])
    ensures Assigned(cells, keys + [cells[i].key])
         == Assigned(cells, keys) + [ClusterIndex(cells[i], Occurrences(keys, cells[i].key))]
  {
    IndexIsUnique(cells, i);
    assert (keys + [cells[i].key])[..|keys|] == keys;
  }

  class ReplayState {
    var cellSeenCounts: seq<nat>

    constructor (cells: seq<Cell>)
      ensures SeenCounts(cells, cellSeenCounts, [])
    {
      cellSeenCounts := seq(|cells|, _ => 0);
    }

    /** Hands out the cluster of the next replayed point. */
    method ReplayAssign(cells: seq<Cell>, key: Key, ghost replayed: seq<Key>) returns (result: Result<int, PlanError>)
      requires CellsIncrease(cells) && Covered(cells, replayed) && SeenCounts(cells, cellSeenCounts, replayed)
      modifies this
      ensures result.Ok? <==> HasKey(cells, key) && Occurrences(replayed, key) < cells[IndexOf(cells, key)].count
      ensures result.Ok? ==>
        && Covered(cells, replayed + [key]) && SeenCounts(cells, cellSeenCounts, replayed + [key])
        && Assigned(cells, replayed + [key]) == Assigned(cells, replayed) + [result.value]
      ensures result.Err? ==> cellSeenCounts == old(cellSeenCounts)
    {
      var cellIndex := FindCell(cells, key);
      if cellIndex.None? {
        return Err(UnsatisfiableConstraint);
      }
      var i := cellIndex.value;
      IndexIsUnique(cells, i);
      var cell := cells[i];
      var seen := cellSeenCounts[i];
      if seen >= cell.count {
        return Err(UnsatisfiableConstraint);
      }
      AssignedNext(cells, replayed, i);
      SeenNext(cells, cellSeenCounts, replayed, i);
      cellSeenCounts := cellSeenCounts[i := seen + 1];
      return Ok(ClusterIndex(cell, seen));
    }
  }

  /** Replaying the counted data never runs out of planned points and repeats the training assignment. */
  method ReplayAll(cells: seq<Cell>, keys: seq<Key>) returns (clusters: seq<int>)
    requires PlanOf(cells, CountCells(keys))
    ensures FaithfulReplay(cells, keys) && clusters == Assigned(cells, keys)
  {
    CountedReplayIsFaithful(cells, keys);
    var state := new ReplayState(cells);
    clusters := [];
    for p := 0 to |keys|
      invariant fresh(state)
      invariant Covered(cells, keys[..p]) && clusters == Assigned(cells, keys[..p])
      invariant SeenCounts(cells, state.cellSeenCounts, keys[..p])
    {
      NotYetAllSeen(cells, keys, p);
      assert keys[..p + 1] == keys[..p] + [keys[p]];
      var cluster := state.ReplayAssign(cells, keys[p], keys[..p]);
      clusters := clusters + [cluster.value];
    }
    assert keys[..|keys|] == keys;
  }

  lemma {:induction false} PrefixOccurs(keys: seq<Key>, n: nat, key: Key)
    requires n <= |keys|
    ensures Occurrences(keys[..n], key) <= Occurrences(keys, key)
    decreases |keys|
  {
    if n < |keys| {
      PrefixOccurs(keys[..|keys| - 1], n, key);
      assert keys[..|keys| - 1][..n] == keys[..n];
    } else {
      assert keys[..n] == keys;
    }
  }

  lemma NotYetAllSeen(cells: seq<Cell>, keys: seq<Key>, p: nat)
    requires FaithfulReplay(cells, keys) && p < |keys|
    ensures HasKey(cells, keys[p]) && Occurrences(keys[..p], keys[p]) < cells[IndexOf(cells, keys[p])].count
  {
    assert HasKey(cells, keys[p]);
    assert keys[..p + 1][..p] == keys[..p];
    PrefixOccurs(keys, p + 1, keys[p]);
  }
}
