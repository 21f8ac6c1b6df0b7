/** Finding chunk boundaries by repeated passes that each remember one key and how often it came. */
module Boundaries {
  // Keys are compared by a given strict order `lt`; on the keys of one data set it is the order of some integer rank.

  import opened Wrappers
  import opened Permutation

  type Order<!T> = (T, T) -> bool

  /** On these keys `lt` is the order of `rank`, and different keys have different ranks. */
  ghost predicate Ranked<T>(lt: Order<T>, rank: T -> int, keys: seq<T>) {
    && (forall a, b {:trigger lt(a, b)} :: a in keys && b in keys ==> (lt(a, b) <==> rank(a) < rank(b)))
    && forall a, b :: a in keys && b in keys && rank(a) == rank(b) ==> a == b
  }

  // ----- Counting -----

  function CountIf<T>(keys: seq<T>, p: T -> bool): nat {
    if keys == [] then 0 else CountIf(keys[..|keys| - 1], p) + if p(keys[|keys| - 1]) then 1 else 0
  }

  lemma {:induction false} CountConcat<T>(a: seq<T>, b: seq<T>, p: T -> bool)
    ensures CountIf(a + b, p) == CountIf(a, p) + CountIf(b, p)
  {
    if b == [] {
      assert a + b == a;
    } else {
      CountConcat(a, b[..|b| - 1], p);
      assert (a + b)[..|a + b| - 1] == a + b[..|b| - 1];
    }
  }

  lemma CountMiddle<T>(a: seq<T>, x: T, b: seq<T>, p: T -> bool)
    ensures CountIf(a + [x] + b, p) == CountIf(a + b, p) + if p(x) then 1 else 0
  {
    CountConcat(a, b, p);
    CountConcat(a + [x], b, p);
    CountConcat(a, [x], p);
    assert [x][..0] == [];
  }

  /** Counting depends on the keys, not on their order. */
  lemma {:induction false} CountPermuted<T>(a: seq<T>, b: seq<T>, p: T -> bool)
    requires multiset(a) == multiset(b)
    ensures CountIf(a, p) == CountIf(b, p)
  {
    if a == [] {
      assert |multiset(b)| == 0;
    } else {
      var n := |a| - 1;
      assert a[n] in multiset(a);
      var i :| 0 <= i < |b| && b[i] == a[n];
      var b1, b2 := b[..i], b[i + 1..];
      assert a == a[..n] + [a[n]] && b == b1 + [b[i]] + b2;
      RemoveOne(a[..n], a[n], b1, b2);
      CountPermuted(a[..n], b1 + b2, p);
      CountMiddle(b1, b[i], b2, p);
    }
  }

  lemma {:induction false} CountNone<T>(keys: seq<T>, p: T -> bool)
    requires forall x :: x in keys ==> !p(x)
    ensures CountIf(keys, p) == 0
  {
    if keys != [] {
      CountNone(keys[..|keys| - 1], p);
    }
  }

  lemma {:induction false} CountEvery<T>(keys: seq<T>, p: T -> bool)
    requires forall x :: x in keys ==> p(x)
    ensures CountIf(keys, p) == |keys|
  {
    if keys != [] {
      CountEvery(keys[..|keys| - 1], p);
    }
  }

  /** A predicate that holds exactly on one stretch of positions. */
  lemma {:induction false} CountStretch<T>(keys: seq<T>, p: T -> bool, lo: nat, hi: nat)
    requires lo <= hi <= |keys| && forall j :: 0 <= j < |keys| ==> (p(keys[j]) <==> lo <= j < hi)
    ensures CountIf(keys, p) == hi - lo
  {
    CountConcat(keys[..lo], keys[lo..hi], p);
    CountConcat(keys[..hi], keys[hi..], p);
    CountNone(keys[..lo], p);
    CountEvery(keys[lo..hi], p);
    CountNone(keys[hi..], p);
    assert keys[..hi] == keys[..lo] + keys[lo..hi] && keys == keys[..hi] + keys[hi..];
  }

  // ----- Sorted data -----

  ghost predicate Sorted<T>(lt: Order<T>, s: seq<T>) {
    forall i, j :: 0 <= i < j < |s| ==> !lt(s[j], s[i])
  }

  ghost predicate IsSortOf<T>(lt: Order<T>, s: seq<T>, keys: seq<T>) {
    Sorted(lt, s) && multiset(s) == multiset(keys)
  }

  function AtMost<T>(lt: Order<T>, k: T): T -> bool {
    x => !lt(k, x)
  }

  function EqualTo<T(==)>(k: T): T -> bool {
    x => x == k
  }

  /** How many keys are at most `k`. */
  function RankOf<T>(lt: Order<T>, keys: seq<T>, k: T): nat {
    CountIf(keys, AtMost(lt, k))
  }

  /** In sorted data the keys at most `k` come first, and there are `RankOf(k)` of them. */
  lemma {:induction false} RankSplits<T>(lt: Order<T>, rank: T -> int, s: seq<T>, keys: seq<T>, k: T)
    requires IsSortOf(lt, s, keys) && Ranked(lt, rank, keys) && k in keys
    ensures RankOf(lt, keys, k) <= |s| == |keys|
    ensures forall i :: 0 <= i < |s| ==> (i < RankOf(lt, keys, k) <==> rank(s[i]) <= rank(k))
  {
    SameElements(s, keys);
    CountPermuted(s, keys, AtMost(lt, k));
    var u := SplitPoint(lt, rank, s, keys, k, |s|);
    CountStretch(s, AtMost(lt, k), 0, u);
  }

  lemma {:induction false} SplitPoint<T>(lt: Order<T>, rank: T -> int, s: seq<T>, keys: seq<T>, k: T, n: nat)
    returns (u: nat)
    requires Sorted(lt, s) && Ranked(lt, rank, keys) && k in keys && n <= |s|
    requires forall x :: x in s ==> x in keys
    ensures u <= n && forall i :: 0 <= i < n ==> (i < u <==> rank(s[i]) <= rank(k))
  {
    if n == 0 {
      u := 0;
    } else if !lt(k, s[n - 1]) {
      u := n;
      forall i | 0 <= i < n
        ensures rank(s[i]) <= rank(k)
      {
        assert s[i] in keys && s[n - 1] in keys;
        assert i < n - 1 ==> !lt(s[n - 1], s[i]);
      }
    } else {
      u := SplitPoint(lt, rank, s, keys, k, n - 1);
      assert s[n - 1] in keys;
    }
  }

  /** A target rank that falls between two equal keys. */
  ghost predicate Straddles<T>(s: seq<T>, t: nat) {
    0 < t < |s| && s[t - 1] == s[t]
  }

  /** If exactly `t` keys are at most `k`, then `k` has rank `t` and the next key is different. */
  lemma {:induction false} RankIsPosition<T>(lt: Order<T>, rank: T -> int, s: seq<T>, keys: seq<T>, k: T, t: nat)
    requires IsSortOf(lt, s, keys) && Ranked(lt, rank, keys) && k in keys && 0 < t < |keys| && RankOf(lt, keys, k) == t
    ensures |s| == |keys| && s[t - 1] == k && !Straddles(s, t)
  {
    RankSplits(lt, rank, s, keys, k);
    SameElements(s, keys);
    assert k in s;
    var i :| 0 <= i < |s| && s[i] == k;
    assert s[t - 1] in s && s[t] in s;
    assert i < t - 1 ==> !lt(s[t - 1], s[i]);
  }

  // ----- One replay pass -----

  /** What a boundary pass remembers: the smallest key above the lower bound and how often it came. */
  datatype Scan<+T> = Scan(nextKey: Option<T>, nextKeyCount: nat)

  function ScanKey<T>(lt: Order<T>, lower: Option<T>, scan: Scan<T>, key: T): Scan<T> {
    if lower.Some? && !lt(lower.value, key) then scan
    else if scan.nextKey.None? || lt(key, scan.nextKey.value) then Scan(Some(key), 1)
    else if !lt(scan.nextKey.value, key) then Scan(scan.nextKey, scan.nextKeyCount + 1)
    else scan
  }

  function ScanAll<T>(lt: Order<T>, lower: Option<T>, keys: seq<T>): Scan<T> {
    if keys == [] then Scan(None, 0) else ScanKey(lt, lower, ScanAll(lt, lower, keys[..|keys| - 1]), keys[|keys| - 1])
  }

  predicate Above<T>(lt: Order<T>, key: T, lower: Option<T>) {
    lower.Some? ==> lt(lower.value, key)
  }

  ghost predicate NextAbove<T>(lt: Order<T>, lower: Option<T>, keys: seq<T>, m: T) {
    m in keys && Above(lt, m, lower) && forall x :: x in keys && Above(lt, x, lower) ==> !lt(x, m)
  }

  /** The remembered key is the smallest above the lower bound, with its multiplicity. */
  lemma {:induction false} ScanFindsNext<T>(lt: Order<T>, rank: T -> int, all: seq<T>, lower: Option<T>, keys: seq<T>)
    requires Ranked(lt, rank, all) && (forall x :: x in keys ==> x in all) && (lower.Some? ==> lower.value in all)
    ensures
      var scan := ScanAll(lt, lower, keys);
      if scan.nextKey.None? then forall x :: x in keys ==> !Above(lt, x, lower)
      else
        && NextAbove(lt, lower, keys, scan.nextKey.value)
        && scan.nextKeyCount == CountIf(keys, EqualTo(scan.nextKey.value))
  {
    if keys != [] {
      var n := |keys| - 1;
      var key := keys[n];
      ScanFindsNext(lt, rank, all, lower, keys[..n]);
      assert keys == keys[..n] + [key] && key in keys;
      var scan := ScanAll(lt, lower, keys[..n]);
      if Above(lt, key, lower) && (scan.nextKey.None? || lt(key, scan.nextKey.value)) {
        CountNone(keys[..n], EqualTo(key));
      }
    }
  }

  // ----- Boundary discovery -----

  datatype Discovery<+T> = Discovery(targets: seq<nat>, nextIndex: nat, cumulative: nat, lower: Option<T>,
                                     bounds: seq<T>)

  datatype ChunkError = NoKeyAboveLowerBound | WouldSplitIdenticalKeys

  function Started<T>(targets: seq<nat>): Discovery<T> {
    Discovery(targets, 0, 0, None, [])
  }

  /** The end of a boundary pass. */
  function FinishBoundaryPass<T>(d: Discovery<T>, scan: Scan<T>): Result<Discovery<T>, ChunkError>
    requires d.nextIndex < |d.targets|
  {
    var needed := d.targets[d.nextIndex] - d.cumulative;
    if scan.nextKey.None? then Err(NoKeyAboveLowerBound)
    else if scan.nextKeyCount > needed then Err(WouldSplitIdenticalKeys)
    else
      var cumulative := d.cumulative + scan.nextKeyCount;
      if scan.nextKeyCount == needed
      then Ok(Discovery(d.targets, d.nextIndex + 1, cumulative, scan.nextKey, d.bounds + [scan.nextKey.value]))
      else Ok(Discovery(d.targets, d.nextIndex, cumulative, scan.nextKey, d.bounds))
  }

  predicate IncreasingRanks(targets: seq<nat>, n: nat) {
    && (forall i: nat :: i < |targets| ==> 0 < targets[i] < n)
    && forall i: nat, j: nat :: i < j < |targets| ==> targets[i] < targets[j]
  }

  /** `bounds` are the keys of sorted data at the first target ranks, none of which splits equal keys. */
  ghost predicate CutsAt<T>(s: seq<T>, targets: seq<nat>, bounds: seq<T>) {
    |bounds| <= |targets| && forall i: nat :: i < |bounds| ==> CutAt(s, targets[i], bounds[i])
  }

  ghost predicate CutAt<T>(s: seq<T>, t: nat, b: T) {
    0 < t < |s| && b == s[t - 1] && b != s[t]
  }

  /** What discovery knows about the data between passes. */
  ghost predicate DiscoveryOk<T>(lt: Order<T>, s: seq<T>, keys: seq<T>, d: Discovery<T>) {
    && |s| == |keys| && IncreasingRanks(d.targets, |keys|)
    && d.nextIndex == |d.bounds| && CutsAt(s, d.targets, d.bounds)
    && (d.lower.Some? ==> d.lower.value in keys)
    && d.cumulative == RankOfBound(lt, keys, d.lower)
    && (d.nextIndex < |d.targets| ==> d.cumulative < d.targets[d.nextIndex])
    && (d.nextIndex == |d.targets| > 0 ==> d.cumulative == d.targets[d.nextIndex - 1])
  }

  function RankOfBound<T>(lt: Order<T>, keys: seq<T>, lower: Option<T>): nat {
    if lower.Some? then RankOf(lt, keys, lower.value) else 0
  }

  /** Passing the next key adds its multiplicity to the rank. */
  lemma {:induction false} RankOfNext<T>(lt: Order<T>, rank: T -> int, all: seq<T>, keys: seq<T>, lower: Option<T>,
                                         m: T)
    requires Ranked(lt, rank, all) && NextAbove(lt, lower, all, m) && (lower.Some? ==> lower.value in all)
    requires forall x :: x in keys ==> x in all
    ensures RankOf(lt, keys, m) == RankOfBound(lt, keys, lower) + CountIf(keys, EqualTo(m))
  {
    if keys != [] {
      var n := |keys| - 1;
      RankOfNext(lt, rank, all, keys[..n], lower, m);
      assert keys[n] in all;
      assert lt(m, keys[n]) || lt(keys[n], m) || keys[n] == m;
      assert lower.Some? ==> (lt(lower.value, keys[n]) <==> rank(lower.value) < rank(keys[n]));
      assert lower.Some? ==> (lt(lower.value, m) <==> rank(lower.value) < rank(m));
    }
  }

  lemma {:induction false} CountSome<T>(keys: seq<T>, p: T -> bool)
    requires CountIf(keys, p) < |keys|
    ensures exists i :: 0 <= i < |keys| && !p(keys[i])
  {
    if forall i :: 0 <= i < |keys| ==> p(keys[i]) {
      CountEvery(keys, p);
    }
  }

  /** The "no key above the lower bound" error cannot occur. */
  lemma {:induction false} SomeKeyAbove<T>(lt: Order<T>, rank: T -> int, s: seq<T>, keys: seq<T>, d: Discovery<T>)
    requires Ranked(lt, rank, keys) && DiscoveryOk(lt, s, keys, d) && d.nextIndex < |d.targets|
    ensures ScanAll(lt, d.lower, keys).nextKey.Some?
  {
    ScanFindsNext(lt, rank, keys, d.lower, keys);
    if d.lower.None? {
      assert keys[0] in keys && Above(lt, keys[0], d.lower);
    } else {
      CountSome(keys, AtMost(lt, d.lower.value));
      var i :| 0 <= i < |keys| && lt(d.lower.value, keys[i]);
      assert keys[i] in keys && Above(lt, keys[i], d.lower);
    }
  }

  /** If the next key reaches beyond the target, the target splits equal keys. */
  lemma {:induction false} OvershootStraddles<T>(lt: Order<T>, rank: T -> int, s: seq<T>, keys: seq<T>,
                                                 lower: Option<T>, m: T, t: nat)
    requires Ranked(lt, rank, keys) && IsSortOf(lt, s, keys) && NextAbove(lt, lower, keys, m)
    requires lower.Some? ==> lower.value in keys
    requires RankOfBound(lt, keys, lower) < t < RankOf(lt, keys, m)
    ensures Straddles(s, t)
  {
    SameElements(s, keys);
    RankSplits(lt, rank, s, keys, m);
    if lower.Some? {
      RankSplits(lt, rank, s, keys, lower.value);
    }
    forall i | i == t - 1 || i == t
      ensures s[i] == m
    {
      assert s[i] in s && s[i] in keys;
      assert rank(s[i]) <= rank(m);
      assert lower.Some? ==> rank(s[i]) > rank(lower.value);
      assert Above(lt, s[i], lower);
      assert !lt(s[i], m);
    }
  }

  /** A faithful pass moves on to the next key; it fails only when the pending target splits equal keys. */
  lemma {:induction false} PassStep<T>(lt: Order<T>, rank: T -> int, s: seq<T>, keys: seq<T>, d: Discovery<T>)
    requires Ranked(lt, rank, keys) && IsSortOf(lt, s, keys) && DiscoveryOk(lt, s, keys, d) && d.nextIndex < |d.targets|
    ensures
      var scan := ScanAll(lt, d.lower, keys);
      var r := FinishBoundaryPass(d, scan);
      && scan.nextKey.Some? && NextAbove(lt, d.lower, keys, scan.nextKey.value)
      && (if r.Err? then r.error == WouldSplitIdenticalKeys && Straddles(s, d.targets[d.nextIndex])
          else DiscoveryOk(lt, s, keys, r.value) && r.value.cumulative > d.cumulative && r.value.lower == scan.nextKey)
  {
    SomeKeyAbove(lt, rank, s, keys, d);
    ScanFindsNext(lt, rank, keys, d.lower, keys);
    var scan := ScanAll(lt, d.lower, keys);
    var m, t := scan.nextKey.value, d.targets[d.nextIndex];
    RankOfNext(lt, rank, keys, keys, d.lower, m);
    CountPositive(keys, m);
    if scan.nextKeyCount > t - d.cumulative {
      OvershootStraddles(lt, rank, s, keys, d.lower, m, t);
    } else if scan.nextKeyCount == t - d.cumulative {
      RankIsPosition(lt, rank, s, keys, m, t);
    }
  }

  lemma {:induction false} CountPositive<T>(keys: seq<T>, m: T)
    requires m in keys
    ensures CountIf(keys, EqualTo(m)) > 0
  {
    var n := |keys| - 1;
    if keys[n] != m {
      CountPositive(keys[..n], m);
    }
  }

  // ----- A whole discovery -----

  /** Replaying the same data until all boundaries are known: the outcome and the number of passes. */
  ghost function Discover<T>(lt: Order<T>, keys: seq<T>, d: Discovery<T>, passes: nat)
    : (Result<seq<T>, ChunkError>, nat)
    decreases |keys| - d.cumulative
  {
    if d.nextIndex >= |d.targets| then (Ok(d.bounds), passes)
    else
      match FinishBoundaryPass(d, ScanAll(lt, d.lower, keys))
      case Err(e) => (Err(e), passes + 1)
      case Ok(next) =>
        if d.cumulative < next.cumulative <= |keys| then Discover(lt, keys, next, passes + 1)
        else (Ok(next.bounds), passes + 1)
  }

  lemma RankAtMostAll<T>(lt: Order<T>, keys: seq<T>, lower: Option<T>)
    ensures RankOfBound(lt, keys, lower) <= |keys|
  {
    if lower.Some? {
      CountAtMostAll(keys, AtMost(lt, lower.value));
    }
  }

  lemma {:induction false} CountAtMostAll<T>(keys: seq<T>, p: T -> bool)
    ensures CountIf(keys, p) <= |keys|
  {
    if keys != [] {
      CountAtMostAll(keys[..|keys| - 1], p);
    }
  }

  ghost predicate NoStraddle<T>(s: seq<T>, targets: seq<nat>, from: nat) {
    forall i: nat :: from <= i < |targets| ==> !Straddles(s, targets[i])
  }

  /** The distinct keys above `lower` and at most `upper`. */
  ghost function KeysBetween<T>(lt: Order<T>, keys: seq<T>, lower: Option<T>, upper: T): set<T> {
    set x | x in keys && Above(lt, x, lower) && !lt(upper, x)
  }

  lemma {:induction false} NextLeavesFewer<T>(lt: Order<T>, rank: T -> int, keys: seq<T>, lower: Option<T>, m: T,
                                              upper: T)
    requires Ranked(lt, rank, keys) && NextAbove(lt, lower, keys, m) && (lower.Some? ==> lower.value in keys)
    requires upper in keys && rank(m) <= rank(upper)
    ensures |KeysBetween(lt, keys, lower, upper)| == 1 + |KeysBetween(lt, keys, Some(m), upper)|
  {
    var a, b := KeysBetween(lt, keys, lower, upper), KeysBetween(lt, keys, Some(m), upper);
    forall x
      ensures x in a <==> x == m || x in b
    {
      if x in keys {
        assert lt(x, m) <==> rank(x) < rank(m);
        assert lt(m, x) <==> rank(m) < rank(x);
        assert lower.Some? ==> (lt(lower.value, m) <==> rank(lower.value) < rank(m));
        assert lower.Some? ==> (lt(lower.value, x) <==> rank(lower.value) < rank(x));
      }
    }
    assert a == {m} + b;
    assert m !in b;
  }

  /**
   What a discovery that continues from `d` amounts to: it ends with the cut keys of the sorted data
   exactly when no remaining target splits equal keys, and fails with that error otherwise. If it
   succeeds, it takes one pass per distinct key up to the last boundary.
   */
  ghost predicate SortAndCut<T>(lt: Order<T>, s: seq<T>, keys: seq<T>, d: Discovery<T>, passes: nat,
                                r: Result<seq<T>, ChunkError>, used: nat)
    requires |d.targets| > 0 && IncreasingRanks(d.targets, |s|)
  {
    var t := d.targets[|d.targets| - 1];
    && (r.Ok? <==> NoStraddle(s, d.targets, d.nextIndex))
    && (r.Ok? ==> |r.value| == |d.targets| && CutsAt(s, d.targets, r.value))
    && (r.Ok? ==> used == passes + |KeysBetween(lt, keys, d.lower, s[t - 1])|)
    && (r.Err? ==> r.error == WouldSplitIdenticalKeys)
  }

  lemma PassTakesOneKey<T>(lt: Order<T>, rank: T -> int, s: seq<T>, keys: seq<T>, d: Discovery<T>)
    requires Ranked(lt, rank, keys) && IsSortOf(lt, s, keys) && DiscoveryOk(lt, s, keys, d) && d.nextIndex < |d.targets|
    requires FinishBoundaryPass(d, ScanAll(lt, d.lower, keys)).Ok?
    ensures
      var last := s[d.targets[|d.targets| - 1] - 1];
      var next := FinishBoundaryPass(d, ScanAll(lt, d.lower, keys)).value;
      |KeysBetween(lt, keys, d.lower, last)| == 1 + |KeysBetween(lt, keys, next.lower, last)|
  {
    var scan := ScanAll(lt, d.lower, keys);
    PassStep(lt, rank, s, keys, d);
    MBelowLast(lt, rank, s, keys, d, scan.nextKey.value);
    NextLeavesFewer(lt, rank, keys, d.lower, scan.nextKey.value, s[d.targets[|d.targets| - 1] - 1]);
  }

  /** A pass that leaves the straddling targets as they are and takes one key keeps the outcome. */
  lemma OutcomeStays<T>(lt: Order<T>, s: seq<T>, keys: seq<T>, d: Discovery<T>, next: Discovery<T>, passes: nat,
                        r: Result<seq<T>, ChunkError>, used: nat)
    requires |d.targets| > 0 && IncreasingRanks(d.targets, |s|) && next.targets == d.targets
    requires SortAndCut(lt, s, keys, next, passes + 1, r, used)
    requires NoStraddle(s, d.targets, d.nextIndex) <==> NoStraddle(s, d.targets, next.nextIndex)
    requires var last := s[d.targets[|d.targets| - 1] - 1];
      |KeysBetween(lt, keys, d.lower, last)| == 1 + |KeysBetween(lt, keys, next.lower, last)|
    ensures SortAndCut(lt, s, keys, d, passes, r, used)
  {}

  lemma {:induction false} SortAndCutStep<T>(lt: Order<T>, rank: T -> int, s: seq<T>, keys: seq<T>, d: Discovery<T>,
                                             next: Discovery<T>, passes: nat, r: Result<seq<T>, ChunkError>, used: nat)
    requires Ranked(lt, rank, keys) && IsSortOf(lt, s, keys) && DiscoveryOk(lt, s, keys, d) && d.nextIndex < |d.targets|
    requires FinishBoundaryPass(d, ScanAll(lt, d.lower, keys)) == Ok(next)
    requires DiscoveryOk(lt, s, keys, next) && SortAndCut(lt, s, keys, next, passes + 1, r, used)
    ensures SortAndCut(lt, s, keys, d, passes, r, used)
  {
    StraddlesAhead(s, d, ScanAll(lt, d.lower, keys));
    PassTakesOneKey(lt, rank, s, keys, d);
    OutcomeStays(lt, s, keys, d, next, passes, r, used);
  }

  lemma {:induction false} DiscoverIsSortAndCut<T>(lt: Order<T>, rank: T -> int, s: seq<T>, keys: seq<T>,
                                                   d: Discovery<T>, passes: nat)
    requires Ranked(lt, rank, keys) && IsSortOf(lt, s, keys) && DiscoveryOk(lt, s, keys, d) && |d.targets| > 0
    ensures
      var (r, used) := Discover(lt, keys, d, passes);
      SortAndCut(lt, s, keys, d, passes, r, used)
    decreases |keys| - d.cumulative
  {
    if d.nextIndex == |d.targets| {
      NothingBetween(lt, rank, s, keys, d);
    } else {
      PassStep(lt, rank, s, keys, d);
      var r := FinishBoundaryPass(d, ScanAll(lt, d.lower, keys));
      if r.Ok? {
        RankAtMostAll(lt, keys, r.value.lower);
        DiscoverIsSortAndCut(lt, rank, s, keys, r.value, passes + 1);
        var (outcome, used) := Discover(lt, keys, r.value, passes + 1);
        SortAndCutStep(lt, rank, s, keys, d, r.value, passes, outcome, used);
      }
    }
  }

  /** A pass that succeeds leaves the straddling targets ahead unchanged. */
  lemma StraddlesAhead<T>(s: seq<T>, d: Discovery<T>, scan: Scan<T>)
    requires d.nextIndex < |d.targets| && FinishBoundaryPass(d, scan).Ok?
    requires
      var next := FinishBoundaryPass(d, scan).value;
      CutsAt(s, d.targets, next.bounds) && next.nextIndex == |next.bounds|
    ensures
      var next := FinishBoundaryPass(d, scan).value;
      NoStraddle(s, d.targets, d.nextIndex) <==> NoStraddle(s, d.targets, next.nextIndex)
  {
    var next := FinishBoundaryPass(d, scan).value;
    if next.nextIndex == d.nextIndex + 1 {
      assert CutAt(s, d.targets[d.nextIndex], next.bounds[d.nextIndex]);
    }
  }

  lemma {:induction false} NothingBetween<T>(lt: Order<T>, rank: T -> int, s: seq<T>, keys: seq<T>, d: Discovery<T>)
    requires Ranked(lt, rank, keys) && IsSortOf(lt, s, keys) && DiscoveryOk(lt, s, keys, d)
      && d.nextIndex == |d.targets| > 0
    ensures KeysBetween(lt, keys, d.lower, s[d.targets[d.nextIndex - 1] - 1]) == {}
  {
    var t := d.targets[d.nextIndex - 1];
    RankIsPosition(lt, rank, s, keys, d.lower.value, t);
  }

  lemma {:induction false} MBelowLast<T>(lt: Order<T>, rank: T -> int, s: seq<T>, keys: seq<T>, d: Discovery<T>, m: T)
    requires Ranked(lt, rank, keys) && IsSortOf(lt, s, keys) && DiscoveryOk(lt, s, keys, d) && d.nextIndex < |d.targets|
    requires NextAbove(lt, d.lower, keys, m)
    ensures
      var x := s[d.targets[|d.targets| - 1] - 1];
      x in keys && rank(m) <= rank(x)
  {
    SameElements(s, keys);
    var t := d.targets[|d.targets| - 1];
    var x := s[t - 1];
    assert x in s && x in keys;
    assert d.targets[d.nextIndex] <= t;
    if d.lower.Some? {
      RankSplits(lt, rank, s, keys, d.lower.value);
      assert rank(x) > rank(d.lower.value);
    }
    assert Above(lt, x, d.lower);
    assert !lt(x, m);
  }
}
