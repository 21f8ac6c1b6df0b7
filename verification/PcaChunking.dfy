/** The chunking trainer: one pass analyses the data, replays discover the boundaries, a classifier uses them. */
module PcaChunking {
  // The projection a finished analysis yields is given as a function.

  import opened Wrappers
  import opened SortKeys
  import opened Boundaries
  import opened Permutation
  import StableSort

  type Projection = Embedding -> (int, seq<int>)

  function KeyOf(project: Projection, e: Embedding): SortKey {
    SortKey(project(e).0, project(e).1, e)
  }

  function KeysOf(project: Projection, data: seq<Embedding>): (r: seq<SortKey>)
    ensures |r| == |data| && forall i :: 0 <= i < |r| ==> r[i] == KeyOf(project, data[i])
  {
    seq(|data|, i requires 0 <= i < |data| => KeyOf(project, data[i]))
  }

  const Before: Order<SortKey> := Lt

  function Itself(key: SortKey): SortKey {
    key
  }

  /** The keys in ascending order. */
  function InOrder(keys: seq<SortKey>): (r: seq<SortKey>)
    ensures |r| == |keys|
  {
    StableSort.Sort(Itself, Before, keys)
  }

  lemma BeforeIsStrict()
    ensures StableSort.StrictOrder(Before)
  {
    forall a
      ensures !Before(a, a)
    {
      KeysOrder(a, a);
    }
    forall a, b, c | Before(a, b) && Before(b, c)
      ensures Before(a, c)
    {
      KeysTransitive(a, b, c);
    }
    forall a, b
      ensures Before(a, b) || a == b || Before(b, a)
    {
      KeysOrder(a, b);
      KeysOrder(b, a);
    }
  }

  // ----- Every data set ranks its keys -----

  function Below(keys: seq<SortKey>): SortKey -> int {
    k => CountIf(keys, (x: SortKey) => Lt(x, k))
  }

  lemma {:induction false} CountMore(keys: seq<SortKey>, p: SortKey -> bool, q: SortKey -> bool)
    requires forall x :: x in keys && p(x) ==> q(x)
    ensures CountIf(keys, p) <= CountIf(keys, q)
    ensures forall x :: x in keys && q(x) && !p(x) ==> CountIf(keys, p) < CountIf(keys, q)
  {
    if keys != [] {
      assert keys == keys[..|keys| - 1] + [keys[|keys| - 1]];
      CountMore(keys[..|keys| - 1], p, q);
    }
  }

  lemma {:induction false} BelowGrows(keys: seq<SortKey>, a: SortKey, b: SortKey)
    requires a in keys && Lt(a, b)
    ensures Below(keys)(a) < Below(keys)(b)
  {
    forall x | x in keys && Lt(x, a)
      ensures Lt(x, b)
    {
      KeysTransitive(x, a, b);
    }
    KeysOrder(a, a);
    CountMore(keys, (x: SortKey) => Lt(x, a), (x: SortKey) => Lt(x, b));
  }

  lemma {:induction false} KeysAreRanked(keys: seq<SortKey>)
    ensures Ranked(Before, Below(keys), keys)
  {
    forall a, b | a in keys && b in keys
      ensures Before(a, b) <==> Below(keys)(a) < Below(keys)(b)
      ensures Below(keys)(a) == Below(keys)(b) ==> a == b
    {
      KeysOrder(a, b);
      KeysOrder(b, a);
      if Lt(a, b) {
        BelowGrows(keys, a, b);
      } else if Lt(b, a) {
        BelowGrows(keys, b, a);
      }
    }
  }

  // ----- Boundary targets -----

  /** How many points lie before chunk `i`; the first chunks take the remainder. */
  function ChunkStart(n: nat, k: nat, i: nat): nat
    requires k > 0
  {
    i * (n / k) + if i < n % k then i else n % k
  }

  lemma ChunkSizes(n: nat, k: nat, i: nat)
    requires k > 0
    ensures ChunkStart(n, k, i + 1) == ChunkStart(n, k, i) + n / k + if i < n % k then 1 else 0
    ensures ChunkStart(n, k, 0) == 0 && ChunkStart(n, k, k) == n
  {
    assert (i + 1) * (n / k) == i * (n / k) + n / k;
    assert k * (n / k) + n % k == n;
  }

  lemma {:induction false} ChunkStartsGrow(n: nat, k: nat, i: nat, j: nat)
    requires 0 < k <= n && i < j <= k
    ensures ChunkStart(n, k, i) < ChunkStart(n, k, j)
  {
    assert n / k >= 1;
    ChunkSizes(n, k, j - 1);
    if i < j - 1 {
      ChunkStartsGrow(n, k, i, j - 1);
    }
  }

  datatype TrainerError =
    InvalidTransition | MalformedInput | InvalidConfiguration | TooFewItems | Chunking(reason: ChunkError)

  function Targets(n: nat, k: nat): (r: seq<nat>)
    requires k > 0
    ensures |r| == k - 1 && forall i: nat :: i < |r| ==> r[i] == ChunkStart(n, k, i + 1)
  {
    seq(k - 1, i requires i >= 0 => ChunkStart(n, k, i + 1))
  }

  lemma TargetsAreRanks(n: nat, k: nat)
    requires 0 < k <= n
    ensures IncreasingRanks(Targets(n, k), n)
  {
    forall i: nat | i < k - 1
      ensures 0 < Targets(n, k)[i] < n
    {
      ChunkSizes(n, k, 0);
      ChunkStartsGrow(n, k, 0, i + 1);
      ChunkStartsGrow(n, k, i + 1, k);
    }
    forall i: nat, j: nat | i < j < k - 1
      ensures Targets(n, k)[i] < Targets(n, k)[j]
    {
      ChunkStartsGrow(n, k, i + 1, j + 1);
    }
  }

  method BoundaryTargets(n: nat, k: nat) returns (r: Result<seq<nat>, TrainerError>)
    ensures r.Ok? <==> 0 < k <= n
    ensures r.Ok? ==> r.value == Targets(n, k) && IncreasingRanks(r.value, n)
  {
    if k == 0 {
      return Err(InvalidConfiguration);
    }
    if n < k {
      return Err(TooFewItems);
    }
    var base, remainder := n / k, n % k;
    var cumulative := 0;
    var targets: seq<nat> := [];
    for i := 0 to k - 1
      invariant |targets| == i && cumulative == ChunkStart(n, k, i)
      invariant forall j: nat :: j < i ==> targets[j] == ChunkStart(n, k, j + 1)
    {
      ChunkSizes(n, k, i);
      cumulative := cumulative + base + if i < remainder then 1 else 0;
      targets := targets + [cumulative];
    }
    TargetsAreRanks(n, k);
    assert targets == Targets(n, k);
    return Ok(targets);
  }

  // ----- Assignment -----

  /** The first boundary a key does not exceed. */
  function ChunkOf(bounds: seq<SortKey>, key: SortKey): (c: nat)
    ensures c <= |bounds|
  {
    if bounds == [] || !Lt(bounds[0], key) then 0 else 1 + ChunkOf(bounds[1..], key)
  }

  /** A key that comes before another never falls in a later chunk. */
  lemma {:induction false} ChunksFollowKeys(bounds: seq<SortKey>, a: SortKey, b: SortKey)
    requires a == b || Lt(a, b)
    ensures ChunkOf(bounds, a) <= ChunkOf(bounds, b)
  {
    if bounds != [] && Lt(bounds[0], a) {
      if a != b {
        KeysTransitive(bounds[0], a, b);
      }
      ChunksFollowKeys(bounds[1..], a, b);
    }
  }

  function InChunk(bounds: seq<SortKey>, c: nat): SortKey -> bool {
    key => ChunkOf(bounds, key) == c
  }

  lemma {:induction false} ChunkOfAt(bounds: seq<SortKey>, key: SortKey, c: nat)
    requires c <= |bounds| && (forall i :: 0 <= i < c ==> Lt(bounds[i], key)) && (c < |bounds| ==> !Lt(bounds[c], key))
    ensures ChunkOf(bounds, key) == c
  {
    if c > 0 {
      ChunkOfAt(bounds[1..], key, c - 1);
    }
  }

  /** The chunk of sorted position `j` under the cuts. */
  function CutChunk(targets: seq<nat>, j: nat): (c: nat)
    ensures c <= |targets|
  {
    if targets == [] || j < targets[0] then 0 else 1 + CutChunk(targets[1..], j)
  }

  lemma {:induction false} CutChunkAt(targets: seq<nat>, n: nat, j: nat)
    requires IncreasingRanks(targets, n)
    ensures forall i: nat :: i < |targets| ==> (i < CutChunk(targets, j) <==> targets[i] <= j)
  {
    if targets != [] && targets[0] <= j {
      var rest := targets[1..];
      assert IncreasingRanks(rest, n);
      CutChunkAt(rest, n, j);
      forall i: nat | i < |targets|
        ensures i < CutChunk(targets, j) <==> targets[i] <= j
      {
        if i > 0 {
          assert targets[i] == rest[i - 1];
        }
      }
    }
  }

  /** Classifying the key at a sorted position is cutting the sorted data at the targets. */
  lemma {:induction false} AssignIsCut(keys: seq<SortKey>, s: seq<SortKey>, targets: seq<nat>, bounds: seq<SortKey>,
                                       j: nat)
    requires IsSortOf(Before, s, keys) && IncreasingRanks(targets, |s|) && |bounds| == |targets|
      && CutsAt(s, targets, bounds)
    requires j < |s|
    ensures ChunkOf(bounds, s[j]) == CutChunk(targets, j)
  {
    CutChunkAt(targets, |s|, j);
    KeysAreRanked(keys);
    SameElements(s, keys);
    forall i: nat | i < |bounds|
      ensures Lt(bounds[i], s[j]) <==> targets[i] <= j
    {
      BoundSeparates(keys, s, targets[i], bounds[i], j);
    }
    ChunkOfAt(bounds, s[j], CutChunk(targets, j));
  }

  lemma {:induction false} BoundSeparates(keys: seq<SortKey>, s: seq<SortKey>, t: nat, bound: SortKey, j: nat)
    requires IsSortOf(Before, s, keys) && CutAt(s, t, bound) && j < |s|
    ensures Lt(bound, s[j]) <==> t <= j
  {
    KeysAreRanked(keys);
    SameElements(s, keys);
    var rank := Below(keys);
    assert s[t - 1] in keys && s[t] in keys && s[j] in keys;
    assert !Before(s[t], s[t - 1]);
    if j < t {
      assert j < t - 1 ==> !Before(s[t - 1], s[j]);
      KeysOrder(s[j], s[j]);
    } else {
      assert j > t ==> !Before(s[j], s[t]);
    }
  }

  /** The sorted positions of chunk `c`. */
  function Lo(targets: seq<nat>, c: nat): nat
    requires c <= |targets|
  {
    if c == 0 then 0 else targets[c - 1]
  }

  function Hi(targets: seq<nat>, n: nat, c: nat): nat
    requires c <= |targets|
  {
    if c == |targets| then n else targets[c]
  }

  /** Every chunk receives exactly its stretch of the sorted data. */
  lemma {:induction false} ChunkMembers(keys: seq<SortKey>, s: seq<SortKey>, targets: seq<nat>, bounds: seq<SortKey>,
                                        c: nat)
    requires IsSortOf(Before, s, keys) && IncreasingRanks(targets, |s|) && |bounds| == |targets|
      && CutsAt(s, targets, bounds)
    requires c <= |targets|
    ensures forall j: nat :: j < |s| ==> (ChunkOf(bounds, s[j]) == c <==> Lo(targets, c) <= j < Hi(targets, |s|, c))
    ensures CountIf(keys, InChunk(bounds, c)) == Hi(targets, |s|, c) - Lo(targets, c)
  {
    var p := InChunk(bounds, c);
    forall j: nat | j < |s|
      ensures p(s[j]) <==> Lo(targets, c) <= j < Hi(targets, |s|, c)
    {
      AssignIsCut(keys, s, targets, bounds, j);
      CutChunkAt(targets, |s|, j);
    }
    CountPermuted(s, keys, p);
    assert c > 0 && c < |targets| ==> targets[c - 1] < targets[c];
    CountStretch(s, p, Lo(targets, c), Hi(targets, |s|, c));
  }

  lemma ChunkShare(n: nat, k: nat, c: nat)
    requires c < k <= n
    ensures Hi(Targets(n, k), n, c) - Lo(Targets(n, k), c) == n / k + if c < n % k then 1 else 0
    ensures n / k >= 1
  {
    ChunkSizes(n, k, c);
    assert Lo(Targets(n, k), c) == ChunkStart(n, k, c);
    assert Hi(Targets(n, k), n, c) == ChunkStart(n, k, c + 1);
  }

  /** With the program's targets every chunk is non-empty and sizes differ by at most one. */
  lemma {:induction false} ChunksAreBalanced(keys: seq<SortKey>, s: seq<SortKey>, k: nat, bounds: seq<SortKey>, c: nat)
    requires IsSortOf(Before, s, keys) && 0 < k <= |s| && |bounds| == k - 1 && CutsAt(s, Targets(|s|, k), bounds)
      && c < k
    ensures CountIf(keys, InChunk(bounds, c)) == |s| / k + if c < |s| % k then 1 else 0
    ensures CountIf(keys, InChunk(bounds, c)) > 0
  {
    var targets := Targets(|s|, k);
    TargetsAreRanks(|s|, k);
    ChunkMembers(keys, s, targets, bounds, c);
    ChunkShare(|s|, k, c);
  }

  // ----- The trainer -----

  datatype TrainerState = Idle | Ingesting | PassComplete | TrainingComplete | Error

  datatype Phase = AnalyzePca | DiscoverBoundaries(discovery: Discovery<SortKey>) | Ready(bounds: seq<SortKey>)

  /** A running pass; `seen` is what its fingerprint stands for. */
  datatype ActivePass =
    | AnalyzePass(seen: seq<Embedding>)
    | BoundaryPass(seen: seq<Embedding>, discovery: Discovery<SortKey>, scan: Scan<SortKey>)
    | ReadyPass(seen: seq<Embedding>, bounds: seq<SortKey>)

  /** What the phase says about the data of the first pass. */
  ghost predicate PhaseOk(phase: Phase, data: seq<Embedding>, k: nat, project: Projection)
    requires k > 0
  {
    match phase
    case AnalyzePca => true
    case DiscoverBoundaries(d) =>
      && k <= |data| && d.targets == Targets(|data|, k) && d.nextIndex < |d.targets|
      && DiscoveryOk(Before, InOrder(KeysOf(project, data)), KeysOf(project, data), d)
    case Ready(bounds) =>
      && k <= |data| == |InOrder(KeysOf(project, data))| && |bounds| == k - 1
      && CutsAt(InOrder(KeysOf(project, data)), Targets(|data|, k), bounds)
  }

  ghost predicate PassOk(pass: ActivePass, phase: Phase, project: Projection) {
    match pass
    case AnalyzePass(_) => phase.AnalyzePca?
    case BoundaryPass(seen, d, scan) => phase == DiscoverBoundaries(d)
      && scan == ScanAll(Before, d.lower, KeysOf(project, seen))
    case ReadyPass(_, bounds) => phase == Ready(bounds)
  }

  function StartPass(phase: Phase): ActivePass {
    match phase
    case AnalyzePca => AnalyzePass([])
    case DiscoverBoundaries(d) => BoundaryPass([], d, Scan(None, 0))
    case Ready(bounds) => ReadyPass([], bounds)
  }

  function Observe(pass: ActivePass, project: Projection, e: Embedding): ActivePass {
    match pass
    case AnalyzePass(seen) => AnalyzePass(seen + [e])
    case BoundaryPass(seen, d, scan) => BoundaryPass(seen + [e], d, ScanKey(Before, d.lower, scan, KeyOf(project, e)))
    case ReadyPass(seen, bounds) => ReadyPass(seen + [e], bounds)
  }

  lemma ObserveOk(pass: ActivePass, phase: Phase, project: Projection, e: Embedding)
    requires PassOk(pass, phase, project)
    ensures PassOk(Observe(pass, project, e), phase, project)
  {
    var keys := KeysOf(project, pass.seen + [e]);
    assert keys[..|keys| - 1] == KeysOf(project, pass.seen);
  }

  /** What finishing a pass leads to; `baseline` is the data of the first pass once there is one. */
  function Finish(pass: ActivePass, baseline: Option<seq<Embedding>>, k: nat): Result<Phase, TrainerError>
    requires k > 0 && (pass.BoundaryPass? ==> pass.discovery.nextIndex < |pass.discovery.targets|)
  {
    if pass.AnalyzePass? then
      var n := |pass.seen|;
      if n == 0 then Err(MalformedInput)
      else if n < k then Err(TooFewItems)
      else if k == 1 then Ok(Ready([]))
      else Ok(DiscoverBoundaries(Started(Targets(n, k))))
    else if baseline != Some(pass.seen) then Err(MalformedInput)
    else if pass.BoundaryPass? then
      match FinishBoundaryPass(pass.discovery, pass.scan)
      case Err(e) => Err(Chunking(e))
      case Ok(d) => Ok(if d.nextIndex == |d.targets| then Ready(d.bounds) else DiscoverBoundaries(d))
    else Ok(Ready(pass.bounds))
  }

  /** The baseline after a pass. */
  function Baseline(pass: ActivePass, baseline: Option<seq<Embedding>>): Option<seq<Embedding>> {
    if pass.AnalyzePass? then Some(pass.seen) else baseline
  }

  lemma SortedKeys(data: seq<Embedding>, project: Projection)
    ensures var keys := KeysOf(project, data);
      && IsSortOf(Before, InOrder(keys), keys) && Ranked(Before, Below(keys), keys)
      && |InOrder(keys)| == |data|
  {
    var keys := KeysOf(project, data);
    KeysAreRanked(keys);
    BeforeIsStrict();
    StableSort.SortSorts(Itself, Before, keys);
    StableSort.SortIsPermutation(Itself, Before, keys);
    forall i, j | 0 <= i < j < |InOrder(keys)|
      ensures !Before(InOrder(keys)[j], InOrder(keys)[i])
    {
      assert !Before(Itself(InOrder(keys)[j]), Itself(InOrder(keys)[i]));
    }
  }

  lemma FinishAnalyzeOk(data: seq<Embedding>, k: nat, project: Projection)
    requires 0 < k <= |data|
    ensures PhaseOk(if k == 1 then Ready([]) else DiscoverBoundaries(Started(Targets(|data|, k))), data, k, project)
  {
    SortedKeys(data, project);
    TargetsAreRanks(|data|, k);
  }

  lemma FinishBoundaryOk(data: seq<Embedding>, d: Discovery<SortKey>, scan: Scan<SortKey>, k: nat, project: Projection)
    requires k > 0 && PhaseOk(DiscoverBoundaries(d), data, k, project) && d.nextIndex < |d.targets|
    requires scan == ScanAll(Before, d.lower, KeysOf(project, data))
    ensures var r := FinishBoundaryPass(d, scan);
      && r != Err(NoKeyAboveLowerBound)
      && (r.Ok? ==>
            PhaseOk(if r.value.nextIndex == |r.value.targets| then Ready(r.value.bounds)
                    else DiscoverBoundaries(r.value),
                    data, k, project))
  {
    var keys := KeysOf(project, data);
    SortedKeys(data, project);
    PassStep(Before, Below(keys), InOrder(keys), keys, d);
  }

  lemma {:induction false} FinishOk(pass: ActivePass, phase: Phase, baseline: Option<seq<Embedding>>, k: nat,
                                    project: Projection)
    requires k > 0 && PassOk(pass, phase, project) && (baseline.Some? ==> PhaseOk(phase, baseline.value, k, project))
    requires pass.BoundaryPass? ==> pass.discovery.nextIndex < |pass.discovery.targets|
    ensures
      var r := Finish(pass, baseline, k);
      && (r.Ok? ==> Baseline(pass, baseline).Some? && PhaseOk(r.value, Baseline(pass, baseline).value, k, project))
      && r != Err(Chunking(NoKeyAboveLowerBound))
  {
    if pass.AnalyzePass? {
      if k <= |pass.seen| {
        FinishAnalyzeOk(pass.seen, k, project);
      }
    } else if pass.BoundaryPass? && baseline == Some(pass.seen) {
      FinishBoundaryOk(pass.seen, pass.discovery, pass.scan, k, project);
    }
  }

  class PcaChunkingTrainer {
    const clusterCount: nat
    const dimensions: nat
    const project: Projection
    var state: TrainerState
    var phase: Phase
    var activePass: Option<ActivePass>
    var baseline: Option<seq<Embedding>>
    var model: Option<seq<SortKey>>

    ghost predicate Valid()
      reads this
    {
      && clusterCount > 0
      && (phase.AnalyzePca? || baseline.Some?)
      && (baseline.Some? && state != Error ==> PhaseOk(phase, baseline.value, clusterCount, project))
      && (activePass.Some? ==> PassOk(activePass.value, phase, project))
      && (state == Ingesting ==> activePass.Some?)
      && (state != Ingesting && state != Error ==> activePass.None?)
      && (phase.AnalyzePca? && state != Error ==> baseline.None?)
      && (model.Some? ==> phase == Ready(model.value))
    }

    constructor (clusterCount: nat, dimensions: nat, project: Projection)
      requires clusterCount > 0
      ensures Valid() && state == Idle && phase == AnalyzePca && baseline.None?
      ensures this.clusterCount == clusterCount && this.dimensions == dimensions && this.project == project
    {
      this.clusterCount, this.dimensions, this.project := clusterCount, dimensions, project;
      state, phase, activePass, baseline, model := Idle, AnalyzePca, None, None, None;
    }

    method BeginPass()
      requires Valid() && state in {Idle, PassComplete, Ingesting}
      modifies this`state, this`activePass
      ensures Valid() && state == Ingesting
      ensures activePass.value.seen == if old(state) == Ingesting then old(activePass).value.seen else []
    {
      if state == Idle || state == PassComplete {
        activePass := Some(StartPass(phase));
        state := Ingesting;
      }
    }

    method IngestOne(e: Embedding)
      requires Valid() && state == Ingesting
      modifies this`activePass
      ensures Valid() && activePass.Some? && activePass.value.seen == old(activePass).value.seen + [e]
    {
      ObserveOk(activePass.value, phase, project, e);
      activePass := Some(Observe(activePass.value, project, e));
    }

    /** Feeds a batch into the running pass, up to the first malformed embedding. */
    method IngestBatch(embeddings: seq<Embedding>) returns (r: Option<TrainerError>)
      requires Valid()
      modifies this`state, this`activePass
      ensures Valid()
      ensures old(state) in {TrainingComplete, Error} ==>
        r == Some(InvalidTransition) && state == Error && activePass == old(activePass)
      ensures old(state) !in {TrainingComplete, Error} ==>
                && state == Ingesting && activePass.Some?
                && (r.None? <==> forall e :: e in embeddings ==> |e| == dimensions)
                && (r.None? ==>
                      activePass.value.seen
                      == (if old(state) == Ingesting then old(activePass).value.seen else []) + embeddings)
    {
      if state == TrainingComplete || state == Error {
        state := Error;
        return Some(InvalidTransition);
      }
      BeginPass();
      ghost var before := activePass.value.seen;
      for i := 0 to |embeddings|
        invariant Valid() && state == Ingesting
        invariant activePass.value.seen == before + embeddings[..i]
        invariant forall e :: e in embeddings[..i] ==> |e| == dimensions
      {
        var e := embeddings[i];
        assert e in embeddings;
        if |e| != dimensions {
          return Some(MalformedInput);
        }
        IngestOne(e);
        assert embeddings[..i + 1] == embeddings[..i] + [e];
      }
      assert embeddings[..|embeddings|] == embeddings;
      return None;
    }

    /** Ends the running pass; any error stops the trainer. */
    method FinishPass() returns (r: Option<TrainerError>)
      requires Valid()
      modifies this
      ensures Valid()
      ensures old(state) != Ingesting ==> r == Some(InvalidTransition) && state == Error
      ensures old(state) == Ingesting ==>
                match Finish(old(activePass).value, old(baseline), clusterCount)
                case Err(e) => r == Some(e) && state == Error
                case Ok(next) =>
                  && r.None? && state == PassComplete && phase == next
                  && baseline == Baseline(old(activePass).value, old(baseline))
                  && model == (if next.Ready? then Some(next.bounds) else None)
      ensures r != Some(Chunking(NoKeyAboveLowerBound))
    {
      if state != Ingesting {
        state, activePass := Error, None;
        return Some(InvalidTransition);
      }
      var pass := activePass.value;
      FinishOk(pass, phase, baseline, clusterCount, project);
      var next := Finish(pass, baseline, clusterCount);
      activePass := None;
      match next
      case Err(e) =>
        state := Error;
        return Some(e);
      case Ok(p) =>
        baseline := Baseline(pass, baseline);
        phase := p;
        model := if p.Ready? then Some(p.bounds) else None;
        state := PassComplete;
        return None;
    }

    method CompleteTraining() returns (r: Option<TrainerError>)
      requires Valid()
      modifies this`state
      ensures Valid()
      ensures old(state) == PassComplete && model.Some? ==> r.None? && state == TrainingComplete
      ensures !(old(state) == PassComplete && model.Some?) ==> r == Some(InvalidTransition) && state == Error
    {
      if state != PassComplete || model.None? {
        state := Error;
        return Some(InvalidTransition);
      }
      state := TrainingComplete;
      return None;
    }

    /** The classifier: the chunk of an embedding under the finished model. */
    method Assign(e: Embedding) returns (r: Result<nat, TrainerError>)
      requires Valid() && state == TrainingComplete && model.Some?
      ensures r.Ok? <==> |e| == dimensions
      ensures r.Ok? ==> r.value == ChunkOf(model.value, KeyOf(project, e))
    {
      if |e| != dimensions {
        return Err(MalformedInput);
      }
      return Ok(ChunkOf(model.value, KeyOf(project, e)));
    }

    /**
     Chunks are numbered along the projection. Equal projections are told apart by the first different retained
     coordinate, and equal coordinates by the embedding.
     */
    lemma ModelOrdersChunks(a: Embedding, b: Embedding)
      requires Valid() && state == TrainingComplete && model.Some?
      requires
        || project(a).0 < project(b).0
        || (project(a).0 == project(b).0 && DictionaryBefore(project(a).1, project(b).1))
        || (project(a) == project(b) && DictionaryBefore(a, b))
      ensures ChunkOf(model.value, KeyOf(project, a)) <= ChunkOf(model.value, KeyOf(project, b))
    {
      KeysByParts(KeyOf(project, a), KeyOf(project, b));
      ChunksFollowKeys(model.value, KeyOf(project, a), KeyOf(project, b));
    }

    /** The finished model sorts and cuts: every chunk holds its balanced share of the training data. */
    lemma ModelIsBalanced(c: nat)
      requires Valid() && state == TrainingComplete && model.Some? && c < clusterCount
      ensures baseline.Some? && clusterCount <= |baseline.value|
      ensures CountIf(KeysOf(project, baseline.value), InChunk(model.value, c))
           == |baseline.value| / clusterCount + if c < |baseline.value| % clusterCount then 1 else 0
      ensures CountIf(KeysOf(project, baseline.value), InChunk(model.value, c)) > 0
    {
      ReadyIsBalanced(model.value, baseline.value, clusterCount, project, c);
    }
  }

  lemma {:induction false} ReadyIsBalanced(bounds: seq<SortKey>, data: seq<Embedding>, k: nat, project: Projection,
                                           c: nat)
    requires c < k && PhaseOk(Ready(bounds), data, k, project)
    ensures CountIf(KeysOf(project, data), InChunk(bounds, c)) == |data| / k + if c < |data| % k then 1 else 0
    ensures CountIf(KeysOf(project, data), InChunk(bounds, c)) > 0
  {
    var keys := KeysOf(project, data);
    SortedKeys(data, project);
    ChunksAreBalanced(keys, InOrder(keys), k, bounds, c);
  }

  /** Discovery over a faithfully replayed data set, from the start: sort everything and cut, or report the split. */
  lemma {:induction false} DiscoveryIsSortAndCut(data: seq<Embedding>, k: nat, project: Projection)
    requires 1 < k <= |data|
    ensures
      var keys := KeysOf(project, data);
      var s, targets := InOrder(keys), Targets(|data|, k);
      var (r, passes) := Discover(Before, keys, Started(targets), 0);
      IncreasingRanks(targets, |s|) && SortAndCut(Before, s, keys, Started(targets), 0, r, passes)
  {
    var keys := KeysOf(project, data);
    var s, targets := InOrder(keys), Targets(|data|, k);
    SortedKeys(data, project);
    TargetsAreRanks(|data|, k);
    DiscoverIsSortAndCut(Before, Below(keys), s, keys, Started(targets), 0);
  }
}
