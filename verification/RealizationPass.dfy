/** The realization pass of training, which hands out clusters before it knows whether the replay is the same. */
module RealizationPass {
  // Only the end of the pass compares fingerprints, so until then the points may be any.

  import opened Wrappers
  import opened ReadyPlan
  import opened ReplayShares

  /** A point of no cell is refused; an index past the statistics of the last cluster stops the program. */
  datatype PassError = NotPlanned | IndexOutOfBounds

  /** How many points a cell can receive before one of them would belong to a cluster after the last. */
  function Room(cells: seq<Cell>, i: nat): int
    requires i < |cells|
  {
    cells[i].count + (Clusters(cells) - cells[i].clusterOffset - 1 - cells[i].extraClusters)
  }

  /** No cell receives more points than it has room for. */
  ghost predicate Roomy(cells: seq<Cell>, keys: seq<Key>) {
    forall i: nat :: i < |cells| ==> Occurrences(keys, cells[i].key) <= Room(cells, i)
  }

  /** No cell receives more points than were counted in it. */
  ghost predicate WithinCounts(cells: seq<Cell>, keys: seq<Key>) {
    forall i: nat :: i < |cells| ==> Occurrences(keys, cells[i].key) <= cells[i].count
  }

  /** Every point lands in a cluster of its own cell. */
  ghost predicate StaysInCell(cells: seq<Cell>, keys: seq<Key>)
    requires Covered(cells, keys)
  {
    forall p: nat :: p < |keys| ==>
      HasKey(cells, keys[p]) && Owns(cells[IndexOf(cells, keys[p])], Assigned(cells, keys)[p])
  }

  /** The points of one cluster, in the order of the pass. */
  function PointsOf(clusters: seq<int>, c: int): (points: seq<nat>)
    ensures |points| == CountIn(clusters, c)
  {
    if clusters == [] then []
    else
      var n := |clusters| - 1;
      PointsOf(clusters[..n], c) + if clusters[n] == c then [n] else []
  }

  lemma PlannedCell(cells: seq<Cell>, summaries: seq<CellSummary>, i: nat)
    requires PlanOf(cells, summaries) && i < |cells|
    ensures cells[i].extraClusters < cells[i].count && cells[i].count <= Room(cells, i)
    ensures cells[i].clusterOffset + 1 + cells[i].extraClusters <= Clusters(cells)
  {
    assert CellOf(cells, summaries, i);
    ClustersGrow(cells, i, |cells|);
    assert cells[..|cells|] == cells;
  }

  /** The cluster of a cell's next point exists exactly when the cell has room left. */
  lemma RoomIsExact(cells: seq<Cell>, summaries: seq<CellSummary>, i: nat, seen: nat)
    requires PlanOf(cells, summaries) && i < |cells|
    ensures 0 <= ClusterIndex(cells[i], seen)
    ensures ClusterIndex(cells[i], seen) < Clusters(cells) <==> seen < Room(cells, i)
    ensures Owns(cells[i], ClusterIndex(cells[i], seen)) <==> seen < cells[i].count
  {
    PlannedCell(cells, summaries, i);
  }

  lemma OneMoreOccurs(keys: seq<Key>, key: Key, other: Key)
    ensures Occurrences(keys + [key], other) == Occurrences(keys, other) + if other == key then 1 else 0
  {
    assert (keys + [key])[..|keys|] == keys;
  }

  lemma RoomyNext(cells: seq<Cell>, keys: seq<Key>, i: nat)
    requires CellsIncrease(cells) && Roomy(cells, keys) && i < |cells|
    ensures Roomy(cells, keys + [cells[i].key]) <==> Occurrences(keys, cells[i].key) < Room(cells, i)
  {
    OneMoreOccurs(keys, cells[i].key, cells[i].key);
    forall j: nat | j < |cells| && j != i
      ensures Occurrences(keys + [cells[i].key], cells[j].key) <= Room(cells, j)
    {
      OneMoreOccurs(keys, cells[i].key, cells[j].key);
      IndexIsUnique(cells, i);
      IndexIsUnique(cells, j);
      assert Occurrences(keys, cells[j].key) <= Room(cells, j);
    }
  }

  lemma RoomyFront(cells: seq<Cell>, keys: seq<Key>, n: nat)
    requires Roomy(cells, keys) && n <= |keys|
    ensures Roomy(cells, keys[..n])
  {
    forall i: nat | i < |cells|
      ensures Occurrences(keys[..n], cells[i].key) <= Room(cells, i)
    {
      PrefixOccurs(keys, n, cells[i].key);
      assert Occurrences(keys, cells[i].key) <= Room(cells, i);
    }
  }

  // The pass.

  /** Point `p` is the first that cannot be handled, because its cell has no room left. */
  ghost predicate RunsOut(cells: seq<Cell>, keys: seq<Key>, p: nat) {
    && p < |keys| && Covered(cells, keys[..p + 1])
    && Roomy(cells, keys[..p]) && !Roomy(cells, keys[..p + 1])
  }

  /** Point `p` is the first that cannot be handled, because it has no cell. */
  ghost predicate Unplanned(cells: seq<Cell>, keys: seq<Key>, p: nat) {
    && p < |keys| && Covered(cells, keys[..p]) && Roomy(cells, keys[..p]) && !HasKey(cells, keys[p])
  }

  /** Every cluster has observed its points. */
  ghost predicate ObservedAs(stats: seq<seq<nat>>, clusters: seq<int>) {
    forall c: nat :: c < |stats| ==> stats[c] == PointsOf(clusters, c)
  }

  function Observe(stats: seq<seq<nat>>, c: nat, point: nat): seq<seq<nat>>
    requires c < |stats|
  {
    stats[c := stats[c] + [point]]
  }

  lemma ObserveOne(stats: seq<seq<nat>>, clusters: seq<int>, c: nat)
    requires ObservedAs(stats, clusters) && c < |stats|
    ensures ObservedAs(Observe(stats, c, |clusters|), clusters + [c])
  {
    var all := clusters + [c];
    assert all[..|clusters|] == clusters;
    forall d: nat | d < |stats|
      ensures Observe(stats, c, |clusters|)[d] == PointsOf(all, d)
    {
      assert stats[d] == PointsOf(clusters, d);
    }
  }

  ghost predicate Handled(cells: seq<Cell>, stats: seq<seq<nat>>, keys: seq<Key>) {
    && Covered(cells, keys) && Roomy(cells, keys)
    && |stats| == Clusters(cells) && ObservedAs(stats, Assigned(cells, keys))
  }

  lemma HandledNext(cells: seq<Cell>, summaries: seq<CellSummary>, stats: seq<seq<nat>>, keys: seq<Key>, i: nat)
    requires PlanOf(cells, summaries) && CellsIncrease(cells) && Handled(cells, stats, keys) && i < |cells|
    requires Occurrences(keys, cells[i].key) < Room(cells, i)
    ensures var c := ClusterIndex(cells[i], Occurrences(keys, cells[i].key));
      0 <= c < |stats| && Handled(cells, Observe(stats, c, |keys|), keys + [cells[i].key])
  {
    var seen := Occurrences(keys, cells[i].key);
    RoomIsExact(cells, summaries, i, seen);
    RoomyNext(cells, keys, i);
    AssignedNext(cells, keys, i);
    ObserveOne(stats, Assigned(cells, keys), ClusterIndex(cells[i], seen));
  }

  /** One empty list of points per cluster. */
  method NoStats(cells: seq<Cell>) returns (stats: seq<seq<nat>>)
    ensures |stats| == Clusters(cells) && forall c :: 0 <= c < |stats| ==> stats[c] == []
  {
    stats := [];
    for i := 0 to |cells|
      invariant |stats| == Clusters(cells[..i]) && forall c :: 0 <= c < |stats| ==> stats[c] == []
    {
      assert cells[..i + 1][..i] == cells[..i];
      stats := stats + seq(1 + cells[i].extraClusters, _ => []);
    }
    assert cells[..|cells|] == cells;
  }

  /**
   Hands every point to the cluster the plan gives it. The pass gets through exactly when every point has a cell
   and no cell receives more points than it has room for.
   */
  method RealizePartition(cells: seq<Cell>, keys: seq<Key>, ghost summaries: seq<CellSummary>)
    returns (result: Result<seq<seq<nat>>, PassError>)
    requires PlanOf(cells, summaries) && CellsIncrease(cells)
    ensures result.Ok? <==> Covered(cells, keys) && Roomy(cells, keys)
    ensures result.Ok? ==> Handled(cells, result.value, keys)
    ensures result == Err(IndexOutOfBounds) ==> exists p :: RunsOut(cells, keys, p)
    ensures result == Err(NotPlanned) ==> exists p :: Unplanned(cells, keys, p)
  {
    var cellStats := NoStats(cells);
    var seenCounts: seq<nat> := seq(|cells|, _ => 0);
    assert keys[..0] == [];
    NothingHandled(cells, summaries, cellStats);
    for p := 0 to |keys|
      invariant Handled(cells, cellStats, keys[..p]) && SeenCounts(cells, seenCounts, keys[..p])
    {
      var cellIndex := FindCell(cells, keys[p]);
      if cellIndex.None? {
        assert Unplanned(cells, keys, p);
        return Err(NotPlanned);
      }
      var i := cellIndex.value;
      assert keys[..p + 1] == keys[..p] + [cells[i].key];
      var seen := seenCounts[i];
      SeenNext(cells, seenCounts, keys[..p], i);
      seenCounts := seenCounts[i := seen + 1];
      var clusterIndex := ClusterIndex(cells[i], seen);
      RoomIsExact(cells, summaries, i, seen);
      if clusterIndex >= |cellStats| {
        StoppedAt(cells, keys, p, i);
        return Err(IndexOutOfBounds);
      }
      HandledNext(cells, summaries, cellStats, keys[..p], i);
      cellStats := Observe(cellStats, clusterIndex, p);
    }
    assert keys[..|keys|] == keys;
    return Ok(cellStats);
  }

  lemma NothingHandled(cells: seq<Cell>, summaries: seq<CellSummary>, stats: seq<seq<nat>>)
    requires PlanOf(cells, summaries)
    requires |stats| == Clusters(cells) && forall c :: 0 <= c < |stats| ==> stats[c] == []
    ensures Handled(cells, stats, [])
  {
    forall i: nat | i < |cells|
      ensures Occurrences([], cells[i].key) <= Room(cells, i)
    {
      PlannedCell(cells, summaries, i);
    }
  }

  lemma StoppedAt(cells: seq<Cell>, keys: seq<Key>, p: nat, i: nat)
    requires CellsIncrease(cells) && p < |keys| && Covered(cells, keys[..p]) && Roomy(cells, keys[..p])
    requires i < |cells| && cells[i].key == keys[p] && Occurrences(keys[..p], keys[p]) >= Room(cells, i)
    ensures RunsOut(cells, keys, p) && !Roomy(cells, keys)
  {
    assert keys[..p + 1] == keys[..p] + [cells[i].key];
    RoomyNext(cells, keys[..p], i);
    AssignedNext(cells, keys[..p], i);
    if Roomy(cells, keys) {
      RoomyFront(cells, keys, p + 1);
    }
  }

  // Which passes hand out clusters as planned.

  lemma {:induction false} AssignedAt(cells: seq<Cell>, keys: seq<Key>, p: nat)
    requires CellsIncrease(cells) && Covered(cells, keys) && p < |keys|
    ensures HasKey(cells, keys[p])
    ensures Assigned(cells, keys)[p] == ClusterIndex(cells[IndexOf(cells, keys[p])], Occurrences(keys[..p], keys[p]))
    decreases |keys|
  {
    var front := keys[..|keys| - 1];
    assert HasKey(cells, keys[p]);
    if p < |front| {
      assert front[p] == keys[p] && front[..p] == keys[..p];
      assert Covered(cells, front);
      AssignedAt(cells, front, p);
    }
  }

  /** The last point of a key comes after all others. */
  lemma {:induction false} LastOccurrence(keys: seq<Key>, key: Key) returns (p: nat)
    requires Occurrences(keys, key) > 0
    ensures p < |keys| && keys[p] == key && Occurrences(keys[..p], key) == Occurrences(keys, key) - 1
  {
    p := |keys| - 1;
    if keys[p] != key {
      var front := keys[..p];
      p := LastOccurrence(front, key);
      assert front[..p] == keys[..p];
    }
  }

  /** Points stay in their cells exactly when no cell receives more of them than were counted. */
  lemma StaysExactly(cells: seq<Cell>, summaries: seq<CellSummary>, keys: seq<Key>)
    requires PlanOf(cells, summaries) && CellsIncrease(cells) && Covered(cells, keys)
    ensures StaysInCell(cells, keys) <==> WithinCounts(cells, keys)
  {
    if WithinCounts(cells, keys) {
      forall p: nat | p < |keys|
        ensures HasKey(cells, keys[p]) && Owns(cells[IndexOf(cells, keys[p])], Assigned(cells, keys)[p])
      {
        AssignedAt(cells, keys, p);
        var i := IndexOf(cells, keys[p]);
        RoomIsExact(cells, summaries, i, Occurrences(keys[..p], keys[p]));
        assert Occurrences(keys, cells[i].key) <= cells[i].count;
        PrefixOccurs(keys, p + 1, keys[p]);
        assert keys[..p + 1][..p] == keys[..p];
      }
    }
    if StaysInCell(cells, keys) {
      forall i: nat | i < |cells|
        ensures Occurrences(keys, cells[i].key) <= cells[i].count
      {
        LastStays(cells, summaries, keys, i);
      }
    }
  }

  lemma LastStays(cells: seq<Cell>, summaries: seq<CellSummary>, keys: seq<Key>, i: nat)
    requires PlanOf(cells, summaries) && CellsIncrease(cells) && Covered(cells, keys) && StaysInCell(cells, keys)
    requires i < |cells|
    ensures Occurrences(keys, cells[i].key) <= cells[i].count
  {
    if Occurrences(keys, cells[i].key) > 0 {
      var p := LastOccurrence(keys, cells[i].key);
      AssignedAt(cells, keys, p);
      IndexIsUnique(cells, i);
      RoomIsExact(cells, summaries, i, Occurrences(keys[..p], keys[p]));
    }
  }

  /** Passes within the counts get through; the counted data is one of them. */
  lemma WithinCountsIsRoomy(cells: seq<Cell>, summaries: seq<CellSummary>, keys: seq<Key>)
    requires PlanOf(cells, summaries) && WithinCounts(cells, keys)
    ensures Roomy(cells, keys)
  {
    forall i: nat | i < |cells|
      ensures Occurrences(keys, cells[i].key) <= Room(cells, i)
    {
      PlannedCell(cells, summaries, i);
      assert Occurrences(keys, cells[i].key) <= cells[i].count;
    }
  }

  /** On the counted data the pass gets through, and every cluster observes its planned share of points. */
  lemma CountedDataIsRealized(cells: seq<Cell>, keys: seq<Key>, c: nat)
    requires PlanOf(cells, CountCells(keys)) && c < Clusters(cells)
    ensures Covered(cells, keys) && Roomy(cells, keys) && StaysInCell(cells, keys)
    ensures |ReplayOrderChildCounts(cells)| == Clusters(cells)
    ensures |PointsOf(Assigned(cells, keys), c)| == ReplayOrderChildCounts(cells)[c]
  {
    SharesAreExact(cells, keys, c);
    WithinCountsIsRoomy(cells, CountCells(keys), keys);
    StaysExactly(cells, CountCells(keys), keys);
  }

  // Replays that are too long.

  lemma TwiceOccurs(key: Key, other: Key)
    ensures Occurrences([key], other) == if other == key then 1 else 0
    ensures Occurrences([key, key], other) == if other == key then 2 else 0
    ensures [key, key][..1] == [key]
  {
    OneMoreOccurs([], key, other);
    OneMoreOccurs([key], key, other);
    assert [] + [key] == [key] && [key] + [key] == [key, key];
  }

  /** One counted point, fed twice: the second one asks for a cluster after the last. */
  lemma RepeatedPointRunsOut(key: Key)
    ensures var cells, keys := [Cell(key, 1, 0, 0)], [key, key];
      && PlanOf(cells, CountCells([key])) && CellsIncrease(cells) && Covered(cells, keys)
      && Clusters(cells) == 1 && Assigned(cells, keys)[1] == 1 && !Roomy(cells, keys)
  {
    var cells := [Cell(key, 1, 0, 0)];
    var counted, keys := [key], [key, key];
    assert counted[..0] == [] && cells[..0] == [];
    assert CountCells(counted) == [CellSummary(key, 1)];
    assert CellOf(cells, CountCells(counted), 0);
    assert cells[0].key == key && HasKey(cells, key);
    TwiceOccurs(key, key);
    assert Occurrences(keys, cells[0].key) == 2;
    AssignedAt(cells, keys, 1);
  }

  lemma TwoCells(cells: seq<Cell>, a: Key, b: Key)
    requires KeyLess(a, b) && cells == [Cell(a, 1, 0, 0), Cell(b, 1, 0, 1)]
    ensures PlanOf(cells, [CellSummary(a, 1), CellSummary(b, 1)]) && CellsIncrease(cells) && Clusters(cells) == 2
  {
    var summaries := [CellSummary(a, 1), CellSummary(b, 1)];
    assert |cells[..0]| == 0 && cells[..1][..0] == cells[..0];
    assert Clusters(cells[..1]) == 1;
    assert CellOf(cells, summaries, 0) && CellOf(cells, summaries, 1);
  }

  /** With a cell behind it, the point too many goes to the next cell's cluster unnoticed. */
  lemma RepeatedPointSpills(cells: seq<Cell>, a: Key, b: Key)
    requires KeyLess(a, b) && cells == [Cell(a, 1, 0, 0), Cell(b, 1, 0, 1)]
    ensures PlanOf(cells, [CellSummary(a, 1), CellSummary(b, 1)]) && CellsIncrease(cells)
    ensures Covered(cells, [a, a]) && Roomy(cells, [a, a])
    ensures Assigned(cells, [a, a])[1] == 1 && Owns(cells[1], 1) && !StaysInCell(cells, [a, a])
  {
    TwoCells(cells, a, b);
    TwiceOccurs(a, a);
    TwiceOccurs(a, b);
    KeyOrder(a, b);
    assert HasKey(cells, cells[0].key);
    IndexIsUnique(cells, 0);
    AssignedAt(cells, [a, a], 1);
    assert Occurrences([a, a], cells[0].key) > cells[0].count;
    StaysExactly(cells, [CellSummary(a, 1), CellSummary(b, 1)], [a, a]);
  }
}
