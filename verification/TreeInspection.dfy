/**
 The breadth-first walk of tree inspection over a finite store of blocks in which children may be shared, missing or
 unreadable.
 */
module TreeInspection {
  import opened Wrappers
  import opened Machine
  import opened BlockBasics
  import opened TreeReport

  datatype Traversed = Branch(level: U64, children: seq<BlockHash>) | Leaf(level: U64)

  datatype Loaded = Loaded(traversed: Traversed, serializedBytes: U64)

  /** The other failures are those of reading, decoding and classifying one stored block. */
  datatype InspectError = BlockAbsence(hash: BlockHash) | Unreadable(hash: BlockHash)

  /** What reading, decoding and classifying gives for each stored block. */
  type Blocks = map<BlockHash, Result<Loaded, InspectError>>

  function Load(blocks: Blocks, hash: BlockHash): Result<Loaded, InspectError> {
    if hash in blocks then blocks[hash] else Err(BlockAbsence(hash))
  }

  function ChildrenAt(blocks: Blocks, hash: BlockHash): seq<BlockHash> {
    match Load(blocks, hash)
    case Ok(Loaded(Branch(_, children), _)) => children
    case _ => []
  }

  // ---------------------------------------------------------------- reachability

  ghost predicate IsPath(blocks: Blocks, path: seq<BlockHash>) {
    path != [] && forall i :: 0 <= i < |path| - 1 ==> path[i + 1] in ChildrenAt(blocks, path[i])
  }

  ghost predicate Reachable(blocks: Blocks, root: BlockHash, hash: BlockHash) {
    exists path :: IsPath(blocks, path) && path[0] == root && path[|path| - 1] == hash
  }

  lemma RootIsReachable(blocks: Blocks, root: BlockHash)
    ensures Reachable(blocks, root, root)
  {
    assert IsPath(blocks, [root]);
  }

  lemma ChildIsReachable(blocks: Blocks, root: BlockHash, hash: BlockHash, child: BlockHash)
    requires Reachable(blocks, root, hash) && child in ChildrenAt(blocks, hash)
    ensures Reachable(blocks, root, child)
  {
    var path :| IsPath(blocks, path) && path[0] == root && path[|path| - 1] == hash;
    var longer := path + [child];
    forall i | 0 <= i < |longer| - 1
      ensures longer[i + 1] in ChildrenAt(blocks, longer[i])
    {
      assert longer[i] == path[i];
    }
    assert IsPath(blocks, longer);
  }

  /** A set with the root that holds the children of all its members holds everything on a path. */
  lemma {:induction false} ClosedHoldsPath(blocks: Blocks, closed: set<BlockHash>, path: seq<BlockHash>, i: nat)
    requires IsPath(blocks, path) && i < |path| && path[0] in closed
    requires forall hash, child :: hash in closed && child in ChildrenAt(blocks, hash) ==> child in closed
    ensures path[i] in closed
  {
    if i > 0 {
      ClosedHoldsPath(blocks, closed, path, i - 1);
      var k := i - 1;
      assert path[k + 1] in ChildrenAt(blocks, path[k]);
    }
  }

  // ---------------------------------------------------------------- the log of references

  /** The children of the visited blocks, in visiting order: everything that is ever queued after the root. */
  function References(blocks: Blocks, order: seq<BlockHash>): seq<BlockHash> {
    if order == [] then []
    else References(blocks, order[..|order| - 1]) + ChildrenAt(blocks, order[|order| - 1])
  }

  /** Each hash where it is first referred to. */
  function FirstOccurrences(log: seq<BlockHash>): (r: seq<BlockHash>) {
    if log == [] then []
    else
      var rest, last := log[..|log| - 1], log[|log| - 1];
      if last in rest then FirstOccurrences(rest) else FirstOccurrences(rest) + [last]
  }

  lemma ReferencesLast(blocks: Blocks, order: seq<BlockHash>, hash: BlockHash)
    ensures References(blocks, order + [hash]) == References(blocks, order) + ChildrenAt(blocks, hash)
  {
    assert (order + [hash])[..|order|] == order;
  }

  lemma {:induction false} ReferencesMembers(blocks: Blocks, order: seq<BlockHash>, hash: BlockHash, child: BlockHash)
    requires hash in order && child in ChildrenAt(blocks, hash)
    ensures child in References(blocks, order)
  {
    var last := order[|order| - 1];
    assert order == order[..|order| - 1] + [last];
    if hash != last {
      ReferencesMembers(blocks, order[..|order| - 1], hash, child);
    }
  }

  lemma {:induction false} FirstOccurrencesMembers(log: seq<BlockHash>, hash: BlockHash)
    ensures hash in FirstOccurrences(log) <==> hash in log
  {
    if log != [] {
      FirstOccurrencesMembers(log[..|log| - 1], hash);
      assert log == log[..|log| - 1] + [log[|log| - 1]];
    }
  }

  ghost predicate IsDistinct(order: seq<BlockHash>) {
    forall i, j :: 0 <= i < j < |order| ==> order[i] != order[j]
  }

  lemma {:induction false} FirstOccurrencesDistinct(log: seq<BlockHash>)
    ensures IsDistinct(FirstOccurrences(log))
  {
    if log != [] {
      var rest, last := log[..|log| - 1], log[|log| - 1];
      FirstOccurrencesDistinct(rest);
      FirstOccurrencesMembers(rest, last);
    }
  }

  lemma FirstOccurrencesLast(log: seq<BlockHash>, hash: BlockHash)
    ensures FirstOccurrences(log + [hash]) == if hash in FirstOccurrences(log) then FirstOccurrences(log)
                                              else FirstOccurrences(log) + [hash]
  {
    assert (log + [hash])[..|log|] == log;
    FirstOccurrencesMembers(log, hash);
  }

  lemma {:induction false} DistinctFits(order: seq<BlockHash>, bound: set<BlockHash>)
    requires IsDistinct(order) && forall hash :: hash in order ==> hash in bound
    ensures |order| <= |bound|
  {
    if order != [] {
      var rest, last := order[..|order| - 1], order[|order| - 1];
      assert last in bound;
      forall hash | hash in rest
        ensures hash in bound - {last}
      {
        assert hash in order;
      }
      DistinctFits(rest, bound - {last});
    }
  }

  // ---------------------------------------------------------------- the state of the walk

  /** What has left the queue, the blocks it made visible, and what is still queued. */
  datatype Walk = Walk(processed: seq<BlockHash>, order: seq<BlockHash>, queue: seq<BlockHash>)

  ghost predicate AllReachable(blocks: Blocks, root: BlockHash, hashes: seq<BlockHash>) {
    forall hash :: hash in hashes ==> Reachable(blocks, root, hash)
  }

  ghost predicate AllLoad(blocks: Blocks, order: seq<BlockHash>) {
    forall hash :: hash in order ==> Load(blocks, hash).Ok?
  }

  /** Every reference goes through the queue once, in order; the visited blocks are where each first left it. */
  ghost predicate Walking(blocks: Blocks, root: BlockHash, walk: Walk) {
    match walk
    case Walk(processed, order, queue) =>
      && Logged(blocks, root, order, processed + queue)
      && order == FirstOccurrences(processed)
      && AllLoad(blocks, order)
  }

  ghost predicate Logged(blocks: Blocks, root: BlockHash, order: seq<BlockHash>, log: seq<BlockHash>) {
    && log == [root] + References(blocks, order)
    && AllReachable(blocks, root, log)
  }

  lemma WalkStarts(blocks: Blocks, root: BlockHash, walk: Walk)
    requires |walk.processed| == |walk.order| == 0 && walk.queue == [root]
    ensures Walking(blocks, root, walk)
  {
    RootIsReachable(blocks, root);
    assert |References(blocks, walk.order)| == 0;
    assert walk.processed + walk.queue == [root] + References(blocks, walk.order);
  }

  lemma StepRepeated(blocks: Blocks, root: BlockHash, walk: Walk)
    requires Walking(blocks, root, walk) && walk.queue != [] && walk.queue[0] in walk.order
    ensures Walking(blocks, root, Walk(walk.processed + [walk.queue[0]], walk.order, walk.queue[1..]))
  {
    var hash := walk.queue[0];
    FirstOccurrencesLast(walk.processed, hash);
    assert walk.processed + [hash] + walk.queue[1..] == walk.processed + walk.queue;
  }

  lemma ChildrenReachable(blocks: Blocks, root: BlockHash, log: seq<BlockHash>, hash: BlockHash)
    requires AllReachable(blocks, root, log) && hash in log
    ensures AllReachable(blocks, root, log + ChildrenAt(blocks, hash))
  {
    forall child | child in ChildrenAt(blocks, hash)
      ensures Reachable(blocks, root, child)
    {
      ChildIsReachable(blocks, root, hash, child);
    }
  }

  lemma Requeued(processed: seq<BlockHash>, queue: seq<BlockHash>, children: seq<BlockHash>)
    requires queue != []
    ensures processed + [queue[0]] + (queue[1..] + children) == processed + queue + children
    ensures queue[0] in processed + queue
  {
    assert (processed + queue)[|processed|] == queue[0];
  }

  lemma LogGrows(blocks: Blocks, root: BlockHash, order: seq<BlockHash>, hash: BlockHash)
    ensures [root] + References(blocks, order + [hash]) == [root] + References(blocks, order) + ChildrenAt(blocks, hash)
  {
    ReferencesLast(blocks, order, hash);
  }

  lemma LoggedMore(blocks: Blocks, root: BlockHash, order: seq<BlockHash>, log: seq<BlockHash>, hash: BlockHash)
    requires Logged(blocks, root, order, log) && hash in log
    ensures Logged(blocks, root, order + [hash], log + ChildrenAt(blocks, hash))
  {
    LogGrows(blocks, root, order, hash);
    ChildrenReachable(blocks, root, log, hash);
  }

  lemma StepNew(blocks: Blocks, root: BlockHash, walk: Walk)
    requires Walking(blocks, root, walk) && walk.queue != [] && walk.queue[0] !in walk.order
    requires Load(blocks, walk.queue[0]).Ok?
    ensures Walking(blocks, root, Walk(walk.processed + [walk.queue[0]], walk.order + [walk.queue[0]],
                                       walk.queue[1..] + ChildrenAt(blocks, walk.queue[0])))
  {
    var hash := walk.queue[0];
    FirstOccurrencesLast(walk.processed, hash);
    Requeued(walk.processed, walk.queue, ChildrenAt(blocks, hash));
    LoggedMore(blocks, root, walk.order, walk.processed + walk.queue, hash);
  }

  lemma WalkIsBounded(blocks: Blocks, root: BlockHash, walk: Walk)
    requires Walking(blocks, root, walk)
    ensures IsDistinct(walk.order) && |walk.order| <= |blocks|
  {
    FirstOccurrencesDistinct(walk.processed);
    DistinctFits(walk.order, blocks.Keys);
    assert |blocks.Keys| == |blocks|;
  }

  /** The visited hashes, in the order the walk must visit them. */
  ghost predicate VisitsInOrder(blocks: Blocks, root: BlockHash, order: seq<BlockHash>) {
    && order == FirstOccurrences([root] + References(blocks, order))
    && IsDistinct(order)
    && AllLoad(blocks, order)
    && forall hash :: hash in order <==> Reachable(blocks, root, hash)
  }

  lemma VisitedIsReachable(blocks: Blocks, root: BlockHash, walk: Walk, hash: BlockHash)
    requires Walking(blocks, root, walk) && walk.queue == []
    ensures hash in walk.order <==> Reachable(blocks, root, hash)
  {
    var log := [root] + References(blocks, walk.order);
    assert walk.processed == log;
    FirstOccurrencesMembers(log, hash);
    if Reachable(blocks, root, hash) {
      var path :| IsPath(blocks, path) && path[0] == root && path[|path| - 1] == hash;
      var closed := set h | h in walk.order;
      FirstOccurrencesMembers(log, root);
      assert log[0] == root;
      forall h, child | h in closed && child in ChildrenAt(blocks, h)
        ensures child in closed
      {
        ReferencesMembers(blocks, walk.order, h, child);
        FirstOccurrencesMembers(log, child);
      }
      ClosedHoldsPath(blocks, closed, path, |path| - 1);
    }
  }

  lemma WalkEnds(blocks: Blocks, root: BlockHash, walk: Walk)
    requires Walking(blocks, root, walk) && walk.queue == []
    ensures VisitsInOrder(blocks, root, walk.order)
    ensures |walk.processed| == 1 + |References(blocks, walk.order)|
  {
    assert walk.processed == [root] + References(blocks, walk.order);
    FirstOccurrencesDistinct(walk.processed);
    forall hash
      ensures hash in walk.order <==> Reachable(blocks, root, hash)
    {
      VisitedIsReachable(blocks, root, walk, hash);
    }
  }

  // ---------------------------------------------------------------- what is recorded of each block

  function VisitOf(blocks: Blocks, hash: BlockHash): Visit
    requires Load(blocks, hash).Ok?
  {
    match Load(blocks, hash).value
    case Loaded(Branch(level, children), bytes) => Visit(hash, level, Some(|children|), bytes)
    case Loaded(Leaf(level), bytes) => Visit(hash, level, None, bytes)
  }

  function Visits(blocks: Blocks, order: seq<BlockHash>): (r: seq<Visit>)
    requires AllLoad(blocks, order)
    ensures |r| == |order|
  {
    if order == [] then []
    else
      assert order == order[..|order| - 1] + [order[|order| - 1]];
      Visits(blocks, order[..|order| - 1]) + [VisitOf(blocks, order[|order| - 1])]
  }

  lemma VisitsLast(blocks: Blocks, order: seq<BlockHash>, hash: BlockHash)
    requires AllLoad(blocks, order) && Load(blocks, hash).Ok?
    ensures AllLoad(blocks, order + [hash])
    ensures Visits(blocks, order + [hash]) == Visits(blocks, order) + [VisitOf(blocks, hash)]
  {
    assert (order + [hash])[..|order|] == order;
  }

  lemma {:induction false} ReferencesCounted(blocks: Blocks, order: seq<BlockHash>)
    requires AllLoad(blocks, order)
    ensures |References(blocks, order)| == Total(ChildrenOf(), Visits(blocks, order))
  {
    if order != [] {
      assert order == order[..|order| - 1] + [order[|order| - 1]];
      ReferencesCounted(blocks, order[..|order| - 1]);
    }
  }

  // ---------------------------------------------------------------- the analysis

  datatype Analysis = Analysis(rootLevel: U64, uniqueBlockCount: nat, repeatedReferenceCount: nat, report: Report)

  /** What a successful analysis says, for the hashes in the order of the walk. */
  ghost predicate Describes(blocks: Blocks, root: BlockHash, cap: nat, order: seq<BlockHash>, a: Analysis) {
    && VisitsInOrder(blocks, root, order)
    && Reports(a.report, cap, Visits(blocks, order))
    && a.uniqueBlockCount == |order|
    && a.uniqueBlockCount + a.repeatedReferenceCount == 1 + Total(ChildrenOf(), Visits(blocks, order))
    && a.rootLevel == Load(blocks, root).value.traversed.level
  }

  ghost predicate EverythingLoads(blocks: Blocks, root: BlockHash) {
    forall hash :: Reachable(blocks, root, hash) ==> Load(blocks, hash).Ok?
  }

  lemma RootComesFirst(blocks: Blocks, root: BlockHash, order: seq<BlockHash>)
    requires VisitsInOrder(blocks, root, order)
    ensures order != [] && order[0] == root
  {
    FirstOccurrencesStart(root, References(blocks, order));
  }

  lemma {:induction false} FirstOccurrencesStart(hash: BlockHash, log: seq<BlockHash>)
    ensures FirstOccurrences([hash] + log) != [] && FirstOccurrences([hash] + log)[0] == hash
  {
    if log == [] {
      assert FirstOccurrences([]) == [];
      assert ([hash] + log)[..0] == [];
    } else {
      FirstOccurrencesStart(hash, log[..|log| - 1]);
      assert ([hash] + log)[..|log|] == [hash] + log[..|log| - 1];
    }
  }

  lemma {:induction false} FirstVisit(blocks: Blocks, order: seq<BlockHash>)
    requires AllLoad(blocks, order) && order != []
    ensures Visits(blocks, order)[0] == VisitOf(blocks, order[0])
  {
    if |order| > 1 {
      assert order == order[..|order| - 1] + [order[|order| - 1]];
      FirstVisit(blocks, order[..|order| - 1]);
    }
  }

  /** What the loop has counted so far. */
  datatype Counters = Counters(visited: set<BlockHash>, repeated: nat, report: Report)

  function Members(order: seq<BlockHash>): set<BlockHash> {
    set hash | hash in order
  }

  ghost predicate Counted(blocks: Blocks, cap: nat, walk: Walk, counters: Counters) {
    match walk
    case Walk(processed, order, _) =>
      && AllLoad(blocks, order)
      && counters.visited == Members(order)
      && |processed| == |order| + counters.repeated
      && Reports(counters.report, cap, Visits(blocks, order))
  }

  ghost predicate InProgress(blocks: Blocks, root: BlockHash, cap: nat, walk: Walk, counters: Counters) {
    match walk
    case Walk(_, order, _) =>
      && Walking(blocks, root, walk) && Counted(blocks, cap, walk, counters)
      && |order| <= |blocks|
  }

  lemma Begins(blocks: Blocks, root: BlockHash, cap: nat, walk: Walk, counters: Counters)
    requires |walk.processed| == |walk.order| == 0 && walk.queue == [root]
    requires |counters.visited| == 0 && counters.repeated == 0
    requires forall visits: seq<Visit> :: |visits| == 0 ==> Reports(counters.report, cap, visits)
    ensures InProgress(blocks, root, cap, walk, counters)
  {
    WalkStarts(blocks, root, walk);
    assert |Visits(blocks, walk.order)| == 0;
    assert counters.visited == Members(walk.order);
  }

  /** A hash met before is only counted. */
  function Repeated(walk: Walk): Walk
    requires walk.queue != []
  {
    Walk(walk.processed + [walk.queue[0]], walk.order, walk.queue[1..])
  }

  /** A hash met for the first time is visited and its children are queued. */
  function Visited(blocks: Blocks, walk: Walk): Walk
    requires walk.queue != []
  {
    Walk(walk.processed + [walk.queue[0]], walk.order + [walk.queue[0]],
         walk.queue[1..] + ChildrenAt(blocks, walk.queue[0]))
  }

  lemma CountsRepeated(blocks: Blocks, root: BlockHash, cap: nat, walk: Walk, counters: Counters)
    requires InProgress(blocks, root, cap, walk, counters) && walk.queue != [] && walk.queue[0] in counters.visited
    ensures InProgress(blocks, root, cap, Repeated(walk), counters.(repeated := counters.repeated + 1))
  {
    StepRepeated(blocks, root, walk);
  }

  lemma CountedNew(blocks: Blocks, cap: nat, walk: Walk, counters: Counters, report: Report)
    requires Counted(blocks, cap, walk, counters) && walk.queue != [] && Load(blocks, walk.queue[0]).Ok?
    requires Reports(report, cap, Visits(blocks, walk.order) + [VisitOf(blocks, walk.queue[0])])
    ensures Counted(blocks, cap, Visited(blocks, walk),
                    Counters(counters.visited + {walk.queue[0]}, counters.repeated, report))
  {
    VisitsLast(blocks, walk.order, walk.queue[0]);
    assert Members(walk.order + [walk.queue[0]]) == Members(walk.order) + {walk.queue[0]};
  }

  lemma CountsNew(blocks: Blocks, root: BlockHash, cap: nat, walk: Walk, counters: Counters, report: Report)
    requires InProgress(blocks, root, cap, walk, counters) && walk.queue != []
    requires walk.queue[0] !in counters.visited && Load(blocks, walk.queue[0]).Ok?
    requires AllLoad(blocks, walk.order)
    requires Reports(report, cap, Visits(blocks, walk.order) + [VisitOf(blocks, walk.queue[0])])
    ensures InProgress(blocks, root, cap, Visited(blocks, walk),
                       Counters(counters.visited + {walk.queue[0]}, counters.repeated, report))
    ensures |walk.order| < |blocks|
  {
    StepNew(blocks, root, walk);
    CountedNew(blocks, cap, walk, counters, report);
    WalkIsBounded(blocks, root, Visited(blocks, walk));
  }

  lemma FailureIsReachable(blocks: Blocks, root: BlockHash, walk: Walk)
    requires Walking(blocks, root, walk) && walk.queue != []
    ensures Reachable(blocks, root, walk.queue[0])
  {
    Requeued(walk.processed, walk.queue, []);
  }

  lemma ReachableLoads(blocks: Blocks, root: BlockHash, order: seq<BlockHash>)
    requires VisitsInOrder(blocks, root, order)
    ensures EverythingLoads(blocks, root)
  {
    forall hash | Reachable(blocks, root, hash)
      ensures Load(blocks, hash).Ok?
    {
      assert hash in order;
    }
  }

  lemma RootLevelIs(blocks: Blocks, root: BlockHash, cap: nat, order: seq<BlockHash>, report: Report)
    requires VisitsInOrder(blocks, root, order) && Reports(report, cap, Visits(blocks, order))
    ensures Load(blocks, root).Ok? && report.rootLevel == Some(Load(blocks, root).value.traversed.level)
    ensures report.branchBlockCount + report.leafBlockCount == |order|
  {
    RootComesFirst(blocks, root, order);
    FirstVisit(blocks, order);
    assert ReportsCounts(report, Visits(blocks, order));
  }

  lemma Ends(blocks: Blocks, root: BlockHash, cap: nat, walk: Walk, counters: Counters)
    requires InProgress(blocks, root, cap, walk, counters) && walk.queue == []
    ensures EverythingLoads(blocks, root) && counters.report.rootLevel.Some?
    ensures var report := counters.report;
      Describes(blocks, root, cap, walk.order,
                Analysis(report.rootLevel.value, report.branchBlockCount + report.leafBlockCount, counters.repeated,
                         report))
  {
    WalkEnds(blocks, root, walk);
    ReachableLoads(blocks, root, walk.order);
    ReferencesCounted(blocks, walk.order);
    RootLevelIs(blocks, root, cap, walk.order, counters.report);
  }

  /** Where the walk starts: the root queued and nothing counted. */
  method Begin(blocks: Blocks, root: BlockHash, cap: nat)
    returns (visited: set<BlockHash>, queue: seq<BlockHash>, repeated: nat, report: Report, ghost walk: Walk)
    ensures walk.queue == queue && InProgress(blocks, root, cap, walk, Counters(visited, repeated, report))
  {
    visited, queue, repeated := {}, [root], 0;
    report := NewReport(cap);
    ghost var none: seq<BlockHash> :| |none| == 0;
    walk := Walk(none, none, queue);
    Begins(blocks, root, cap, walk, Counters(visited, repeated, report));
  }

  /**
   Visits exactly the reachable blocks, each once and in breadth-first order, and fails exactly when one of them does
   not load.
   */
  method AnalyzeTree(blocks: Blocks, root: BlockHash, expectedMaxChildren: nat)
    returns (r: Result<Analysis, InspectError>, ghost order: seq<BlockHash>)
    ensures r.Ok? <==> EverythingLoads(blocks, root)
    ensures r.Err? ==> exists hash :: Reachable(blocks, root, hash) && Load(blocks, hash) == Err(r.error)
    ensures r.Ok? ==> Describes(blocks, root, expectedMaxChildren, order, r.value)
  {
    var visited, queue, repeated, report, walk := Begin(blocks, root, expectedMaxChildren);
    while queue != []
      invariant walk.queue == queue
      invariant InProgress(blocks, root, expectedMaxChildren, walk, Counters(visited, repeated, report))
      decreases |blocks| - |walk.order|, |queue|
    {
      var hash := queue[0];
      if hash in visited {
        CountsRepeated(blocks, root, expectedMaxChildren, walk, Counters(visited, repeated, report));
        walk := Repeated(walk);
        repeated := repeated + 1;
        queue := queue[1..];
        continue;
      }
      var load := Load(blocks, hash);
      if load.Err? {
        FailureIsReachable(blocks, root, walk);
        return Err(load.error), walk.order;
      }
      var grown := ObserveBlock(report, expectedMaxChildren, VisitOf(blocks, hash), Visits(blocks, walk.order));
      CountsNew(blocks, root, expectedMaxChildren, walk, Counters(visited, repeated, report), grown);
      walk := Visited(blocks, walk);
      visited := visited + {hash};
      report := grown;
      queue := queue[1..] + ChildrenAt(blocks, hash);
    }
    Ends(blocks, root, expectedMaxChildren, walk, Counters(visited, repeated, report));
    if report.rootLevel.None? {
      assert false;
    }
    r := Ok(Analysis(report.rootLevel.value, report.branchBlockCount + report.leafBlockCount, repeated, report));
    order := walk.order;
  }
}
