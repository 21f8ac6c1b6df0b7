/** The bounded in-memory block store: accounting, eviction order, and what it holds after any run. */
module MemoryStore {
  import opened Wrappers
  import opened Machine
  import opened BlockBasics
  import opened Recency

  datatype Capacity = ResidentBlocks(limit: nat) | ResidentBytes(limit: nat) {
    predicate AllowsInsert(residentLen: nat, residentBytes: nat, newLen: nat, replacingExisting: bool) {
      if ResidentBlocks? then replacingExisting || residentLen < limit
      else residentBytes + newLen <= limit
    }
  }

  datatype ResidentEntry = ResidentEntry(bytes: seq<Byte>, recency: nat)

  type Entries = map<BlockHash, ResidentEntry>

  function SizeIn(entries: Entries): BlockHash -> nat {
    id => if id in entries then |entries[id].bytes| else 0
  }

  function RecencyIn(entries: Entries): BlockHash -> int {
    id => if id in entries then entries[id].recency else -1
  }

  /** `order` lists the resident ids by recency, all below `bound`. */
  ghost predicate Ordered(order: seq<BlockHash>, entries: Entries, bound: nat) {
    && Ids(order) == entries.Keys
    && Increasing(RecencyIn(entries), order)
    && (order != [] ==> RecencyIn(entries)(order[|order| - 1]) < bound)
  }

  lemma OrderedIsDistinct(order: seq<BlockHash>, entries: Entries, bound: nat)
    requires Ordered(order, entries, bound)
    ensures Distinct(order) && |order| == |entries|
  {
    IncreasingIsDistinct(RecencyIn(entries), order);
    CountIds(order);
  }

  lemma SameRanksWithout(order: seq<BlockHash>, id: BlockHash, entries: Entries, changed: Entries)
    requires changed - {id} == entries - {id}
    ensures forall x :: x in Without(order, id) ==> RecencyIn(entries)(x) == RecencyIn(changed)(x)
    ensures forall x :: x in Without(order, id) ==> SizeIn(entries)(x) == SizeIn(changed)(x)
  {
    forall x | x in Without(order, id)
      ensures RecencyIn(entries)(x) == RecencyIn(changed)(x) && SizeIn(entries)(x) == SizeIn(changed)(x)
    {
      WithoutMembers(order, id, x);
      assert x in entries - {id} <==> x in entries;
      assert x in changed - {id} <==> x in changed;
    }
  }

  /** Whatever is done with one entry, the other ids stay in order. */
  lemma OthersStayOrdered(order: seq<BlockHash>, entries: Entries, bound: nat, id: BlockHash, changed: Entries)
    requires Ordered(order, entries, bound) && changed - {id} == entries - {id}
    ensures var rest := Without(order, id);
      && Increasing(RecencyIn(changed), rest)
      && (rest != [] ==> RecencyIn(changed)(rest[|rest| - 1]) < bound)
      && Sum(SizeIn(changed), rest) == Sum(SizeIn(entries), rest)
  {
    var rest := Without(order, id);
    WithoutKeepsIncreasing(RecencyIn(entries), order, id);
    LastOfWithout(RecencyIn(entries), order, id, bound);
    SameRanksWithout(order, id, entries, changed);
    IncreasingSame(RecencyIn(entries), RecencyIn(changed), rest);
    SumSame(SizeIn(entries), SizeIn(changed), rest);
    if rest != [] {
      assert rest[|rest| - 1] in rest;
    }
  }

  lemma OrderedAfterRemoval(order: seq<BlockHash>, entries: Entries, bound: nat, id: BlockHash)
    requires Ordered(order, entries, bound) && id in entries
    ensures Ordered(Without(order, id), entries - {id}, bound)
    ensures Sum(SizeIn(entries), order)
         == Sum(SizeIn(entries - {id}), Without(order, id)) + |entries[id].bytes|
  {
    assert (entries - {id}) - {id} == entries - {id};
    OthersStayOrdered(order, entries, bound, id, entries - {id});
    OrderedIsDistinct(order, entries, bound);
    IdsOfWithout(order, id);
    IdsAre(order, id);
    SumWithout(SizeIn(entries), order, id);
  }

  lemma TouchedIds(order: seq<BlockHash>, entries: Entries, id: BlockHash, entry: ResidentEntry)
    requires Ids(order) == entries.Keys
    ensures Ids(Touched(order, id)) == entries[id := entry].Keys
  {
    IdsOfWithout(order, id);
    IdsOfAppend(Without(order, id), id);
  }

  lemma TouchedIncreases(order: seq<BlockHash>, entries: Entries, bound: nat, id: BlockHash, bytes: seq<Byte>)
    requires Ordered(order, entries, bound)
    ensures Increasing(RecencyIn(entries[id := ResidentEntry(bytes, bound)]), Touched(order, id))
  {
    var updated := entries[id := ResidentEntry(bytes, bound)];
    assert updated - {id} == entries - {id};
    OthersStayOrdered(order, entries, bound, id, updated);
    IncreasingAppend(RecencyIn(updated), Without(order, id), id);
  }

  lemma TouchedSum(order: seq<BlockHash>, entries: Entries, bound: nat, id: BlockHash, entry: ResidentEntry)
    requires Ordered(order, entries, bound)
    ensures Sum(SizeIn(entries[id := entry]), Touched(order, id))
         == Sum(SizeIn(entries), Without(order, id)) + |entry.bytes|
  {
    var updated := entries[id := entry];
    assert updated - {id} == entries - {id};
    OthersStayOrdered(order, entries, bound, id, updated);
    SumConcat(SizeIn(updated), Without(order, id), [id]);
    assert [id][1..] == [];
  }

  /** Writing an entry with the newest recency puts its id last. */
  lemma OrderedAfterTouch(order: seq<BlockHash>, entries: Entries, bound: nat, id: BlockHash, bytes: seq<Byte>)
    requires Ordered(order, entries, bound)
    ensures Ordered(Touched(order, id), entries[id := ResidentEntry(bytes, bound)], bound + 1)
  {
    TouchedIds(order, entries, id, ResidentEntry(bytes, bound));
    TouchedIncreases(order, entries, bound, id, bytes);
  }

  /** The oldest of the ids other than the excluded one comes first among them. */
  lemma OldestIsFirst(order: seq<BlockHash>, entries: Entries, bound: nat, excluded: BlockHash, lru: BlockHash)
    requires Ordered(order, entries, bound)
    requires lru in entries && lru != excluded
    requires forall id :: id in entries && id != excluded ==> entries[lru].recency <= entries[id].recency
    ensures Without(order, excluded) != [] && Without(order, excluded)[0] == lru
  {
    var others := Without(order, excluded);
    IdsAre(order, lru);
    WithoutMembers(order, excluded, lru);
    WithoutKeepsIncreasing(RecencyIn(entries), order, excluded);
    var i :| 0 <= i < |others| && others[i] == lru;
    WithoutMembers(order, excluded, others[0]);
    IdsAre(order, others[0]);
    FirstRanksLowest(RecencyIn(entries), others, i);
  }

  /** When the remaining ids leave room for the new payload. */
  function Room(capacity: Capacity, sizes: BlockHash -> nat, newLen: nat, replacing: bool): seq<BlockHash> -> bool {
    others => capacity.AllowsInsert(|others|, Sum(sizes, others), newLen, replacing)
  }

  /** What stays when a payload of `newLen` bytes is put under `id`. */
  function Kept(capacity: Capacity, order: seq<BlockHash>, entries: Entries, id: BlockHash, newLen: nat)
    : seq<BlockHash>
  {
    DropUntil(Room(capacity, SizeIn(entries), newLen, id in entries), Without(order, id))
  }

  lemma KeptWhenReplacing(k: nat, order: seq<BlockHash>, entries: Entries, id: BlockHash, newLen: nat)
    requires id in entries
    ensures Kept(ResidentBlocks(k), order, entries, id, newLen) == Without(order, id)
  {}

  lemma KeptWhenNew(k: nat, order: seq<BlockHash>, entries: Entries, id: BlockHash, newLen: nat)
    requires k > 0 && id !in entries && id !in order && |order| <= k
    ensures Kept(ResidentBlocks(k), order, entries, id, newLen) == if |order| == k then order[1..] else order
  {
    var room := Room(ResidentBlocks(k), SizeIn(entries), newLen, false);
    WithoutAbsent(order, id);
    if |order| == k {
      assert DropUntil(room, order) == DropUntil(room, order[1..]);
    }
  }

  lemma LastAppend(k: nat, order: seq<BlockHash>, id: BlockHash)
    requires k > 0 && |order| <= k
    ensures Last(k, order + [id]) == (if |order| == k then order[1..] else order) + [id]
  {}

  /** A store of `k` blocks keeps the `k` ids touched last. */
  lemma KeptOfBlocks(k: nat, order: seq<BlockHash>, entries: Entries, bound: nat, id: BlockHash, newLen: nat)
    requires k > 0 && Ordered(order, entries, bound) && |order| <= k
    ensures Kept(ResidentBlocks(k), order, entries, id, newLen) + [id] == Last(k, Touched(order, id))
  {
    IdsAre(order, id);
    if id in order {
      KeptPresent(k, order, entries, bound, id, newLen);
    } else {
      KeptWhenNew(k, order, entries, id, newLen);
      WithoutAbsent(order, id);
      LastAppend(k, order, id);
    }
  }

  /** A store bounded in bytes keeps the longest run of the other ids touched last that leaves room for the payload. */
  lemma KeptOfBytes(limit: nat, order: seq<BlockHash>, entries: Entries, id: BlockHash, newLen: nat)
    ensures var others, kept := Without(order, id), Kept(ResidentBytes(limit), order, entries, id, newLen);
      && |kept| <= |others| && kept == others[|others| - |kept|..]
      && (kept != [] ==> Sum(SizeIn(entries), kept) + newLen <= limit)
      && forall n :: 0 <= n < |others| - |kept| ==> Sum(SizeIn(entries), others[n..]) + newLen > limit
  {
    var others := Without(order, id);
    var fits := Room(ResidentBytes(limit), SizeIn(entries), newLen, id in entries);
    DropUntilIsShortest(fits, others);
    var kept := DropUntil(fits, others);
    forall n | 0 <= n < |others| - |kept|
      ensures Sum(SizeIn(entries), others[n..]) + newLen > limit
    {
      assert !fits(others[n..]);
    }
  }

  lemma KeptPresent(k: nat, order: seq<BlockHash>, entries: Entries, bound: nat, id: BlockHash, newLen: nat)
    requires Ordered(order, entries, bound) && |order| <= k && id in order && id in entries
    ensures Kept(ResidentBlocks(k), order, entries, id, newLen) + [id] == Last(k, Touched(order, id))
  {
    OrderedIsDistinct(order, entries, bound);
    KeptWhenReplacing(k, order, entries, id, newLen);
    TouchPresent(order, id);
  }

  /** One touch of a block-count store: an insert, or a read of a resident block. */
  ghost predicate TouchStep(k: nat, before: seq<BlockHash>, id: BlockHash, after: seq<BlockHash>) {
    after == Last(k, Touched(before, id)) || (id in before && after == Touched(before, id))
  }

  /** Over any run, a store of `k` blocks holds exactly the `k` ids touched last, least recent first. */
  lemma {:induction false} HoldsMostRecent(k: nat, orders: seq<seq<BlockHash>>, touches: seq<BlockHash>)
    requires k > 0 && |orders| == |touches| + 1 && orders[0] == []
    requires forall i :: 0 <= i < |touches| ==> TouchStep(k, orders[i], touches[i], orders[i + 1])
    ensures orders[|touches|] == Last(k, ByLastTouch(touches))
  {
    if touches != [] {
      var n := |touches| - 1;
      HoldsMostRecent(k, orders[..n + 1], touches[..n]);
      ByLastTouchIsDistinct(touches[..n]);
      LastTouched(k, ByLastTouch(touches[..n]), touches[n]);
      assert TouchStep(k, orders[n], touches[n], orders[n + 1]);
    }
  }

  // Making room.

  /** Eviction so far: `evicted` is gone, and finishing the job from here gives `kept`. */
  ghost predicate Evicting(capacity: Capacity, start: Entries, kept: seq<BlockHash>, order: seq<BlockHash>,
                           entries: Entries, evicted: set<BlockHash>, id: BlockHash, newLen: nat)
  {
    && entries == start - evicted && id !in evicted
    && DropUntil(Room(capacity, SizeIn(start), newLen, id in start), Without(order, id)) == kept
  }

  lemma SumOfOthers(start: Entries, order: seq<BlockHash>, entries: Entries, evicted: set<BlockHash>, bound: nat,
                    id: BlockHash)
    requires Ordered(order, entries, bound) && entries == start - evicted && id !in evicted
    ensures Sum(SizeIn(entries), order) == Sum(SizeIn(start), Without(order, id)) + SizeIn(start)(id)
    ensures Sum(SizeIn(entries), Without(order, id)) == Sum(SizeIn(start), Without(order, id))
  {
    OrderedIsDistinct(order, entries, bound);
    IdsAre(order, id);
    SumWithout(SizeIn(entries), order, id);
    forall x | x in Without(order, id)
      ensures SizeIn(entries)(x) == SizeIn(start)(x)
    {
      WithoutMembers(order, id, x);
      IdsAre(order, x);
    }
    SumSame(SizeIn(entries), SizeIn(start), Without(order, id));
  }

  lemma CountOfOthers(order: seq<BlockHash>, entries: Entries, bound: nat, id: BlockHash)
    requires Ordered(order, entries, bound)
    ensures |entries| == |Without(order, id)| + if id in entries then 1 else 0
  {
    OrderedIsDistinct(order, entries, bound);
    IdsAre(order, id);
    if id in order {
      TouchPresent(order, id);
    } else {
      WithoutAbsent(order, id);
    }
  }

  /** The others leave room for the new payload. */
  predicate OthersFit(capacity: Capacity, start: Entries, newLen: nat, replacing: bool, others: seq<BlockHash>) {
    Room(capacity, SizeIn(start), newLen, replacing)(others)
  }

  /** The store's own test, on all entries less the old payload, is the test on the other ids. */
  lemma TestDecidesFit(capacity: Capacity, start: Entries, others: seq<BlockHash>, entryCount: nat, otherBytes: int,
                       newLen: nat, replacing: bool)
    requires otherBytes == Sum(SizeIn(start), others) && (replacing || entryCount == |others|)
    ensures otherBytes >= 0
    ensures capacity.AllowsInsert(entryCount, otherBytes, newLen, replacing)
         == OthersFit(capacity, start, newLen, replacing, others)
  {}

  lemma BytesOfOthers(start: Entries, order: seq<BlockHash>, entries: Entries, evicted: set<BlockHash>, bound: nat,
                      id: BlockHash, residentBytes: nat, oldLen: nat)
    requires Ordered(order, entries, bound) && entries == start - evicted && id !in evicted
    requires residentBytes == Sum(SizeIn(entries), order) && oldLen == SizeIn(start)(id)
    ensures residentBytes - oldLen == Sum(SizeIn(start), Without(order, id))
  {
    SumOfOthers(start, order, entries, evicted, bound, id);
  }

  lemma CountUnlessReplacing(start: Entries, order: seq<BlockHash>, entries: Entries, evicted: set<BlockHash>,
                             bound: nat, id: BlockHash)
    requires Ordered(order, entries, bound) && entries == start - evicted
    ensures id in start || |entries| == |Without(order, id)|
  {
    CountOfOthers(order, entries, bound, id);
  }

  lemma ReadyToTest(capacity: Capacity, start: Entries, order: seq<BlockHash>, entries: Entries,
                    evicted: set<BlockHash>, bound: nat, id: BlockHash, newLen: nat, residentBytes: nat, oldLen: nat,
                    replacing: bool)
    requires Ordered(order, entries, bound) && entries == start - evicted && id !in evicted
    requires residentBytes == Sum(SizeIn(entries), order) && oldLen == SizeIn(start)(id) && replacing == (id in start)
    ensures oldLen <= residentBytes
    ensures capacity.AllowsInsert(|entries|, residentBytes - oldLen, newLen, replacing)
         == OthersFit(capacity, start, newLen, replacing, Without(order, id))
  {
    BytesOfOthers(start, order, entries, evicted, bound, id, residentBytes, oldLen);
    CountUnlessReplacing(start, order, entries, evicted, bound, id);
    TestDecidesFit(capacity, start, Without(order, id), |entries|, residentBytes - oldLen, newLen, replacing);
  }

  lemma EvictingStep(capacity: Capacity, start: Entries, kept: seq<BlockHash>, order: seq<BlockHash>,
                     entries: Entries, evicted: set<BlockHash>, bound: nat, id: BlockHash, newLen: nat)
    requires Ordered(order, entries, bound) && capacity.limit > 0
    requires Evicting(capacity, start, kept, order, entries, evicted, id, newLen)
    requires capacity.ResidentBytes? ==> newLen <= capacity.limit
    requires !OthersFit(capacity, start, newLen, id in start, Without(order, id))
    ensures Without(order, id) != []
    ensures var lru := Without(order, id)[0];
      && Evicting(capacity, start, kept, Without(order, lru), entries - {lru}, evicted + {lru}, id, newLen)
      && |Without(order, lru)| < |order|
  {
    OrderedIsDistinct(order, entries, bound);
    var lru := Without(order, id)[0];
    WithoutMembers(order, id, lru);
    WithoutFirstOther(order, id);
    TouchPresent(order, lru);
    assert (start - evicted) - {lru} == start - (evicted + {lru});
  }

  lemma RefreshReady(order: seq<BlockHash>, entries: Entries, bound: nat, id: BlockHash)
    requires Ordered(order, entries, bound) && id in entries
    ensures Sum(SizeIn(entries), order) == Sum(SizeIn(entries), Without(order, id)) + |entries[id].bytes|
    ensures id in order && |Touched(order, id)| == |order|
  {
    OrderedIsDistinct(order, entries, bound);
    IdsAre(order, id);
    TouchPresent(order, id);
    assert entries == entries - {};
    SumOfOthers(entries, order, entries, {}, bound, id);
  }

  /** After eviction the payload fits and the accounting of the others is what storing needs. */
  lemma InsertReady(capacity: Capacity, start: Entries, order: seq<BlockHash>, entries: Entries,
                    evicted: set<BlockHash>, bound: nat, id: BlockHash, newLen: nat)
    requires Ordered(order, entries, bound) && entries == start - evicted && id !in evicted
    requires OthersFit(capacity, start, newLen, id in start, Without(order, id))
    ensures Sum(SizeIn(entries), order) == Sum(SizeIn(entries), Without(order, id)) + SizeIn(start)(id)
    ensures capacity.ResidentBytes? ==>
      Sum(SizeIn(entries), order) - SizeIn(start)(id) + newLen <= capacity.limit
  {
    SumOfOthers(start, order, entries, evicted, bound, id);
  }

  method Oldest(entries: Entries, candidates: set<BlockHash>) returns (lru: BlockHash)
    requires candidates != {} && candidates <= entries.Keys
    ensures lru in candidates
    ensures forall id :: id in candidates ==> entries[lru].recency <= entries[id].recency
  {
    lru :| lru in candidates;
    var remaining := candidates;
    while remaining != {}
      invariant remaining <= candidates && lru in candidates
      invariant forall id :: id in candidates && id !in remaining ==> entries[lru].recency <= entries[id].recency
      decreases |remaining|
    {
      var id :| id in remaining;
      if entries[id].recency < entries[lru].recency {
        lru := id;
      }
      remaining := remaining - {id};
    }
  }

  /** The recency order, the entries, a bound above all recencies, and the accounted size. */
  datatype Ledger = Ledger(order: seq<BlockHash>, entries: Entries, bound: nat, residentBytes: nat)

  /** The order is that of the entries, and the accounted size is the sum of their sizes. */
  ghost predicate Exact(ledger: Ledger) {
    match ledger
    case Ledger(order, entries, bound, residentBytes) =>
      Ordered(order, entries, bound) && residentBytes == Sum(SizeIn(entries), order)
  }

  lemma ExactAfterRemoval(order: seq<BlockHash>, entries: Entries, bound: nat, residentBytes: nat, id: BlockHash)
    requires Exact(Ledger(order, entries, bound, residentBytes)) && id in entries
    ensures |entries[id].bytes| <= residentBytes
    ensures Exact(Ledger(Without(order, id), entries - {id}, bound, residentBytes - |entries[id].bytes|))
  {
    OrderedAfterRemoval(order, entries, bound, id);
  }

  lemma ExactAfterTouch(order: seq<BlockHash>, entries: Entries, bound: nat, residentBytes: nat, id: BlockHash,
                        bytes: seq<Byte>, oldLen: nat)
    requires Exact(Ledger(order, entries, bound, residentBytes)) && oldLen <= residentBytes
    requires residentBytes - oldLen == Sum(SizeIn(entries), Without(order, id))
    ensures Exact(Ledger(Touched(order, id), entries[id := ResidentEntry(bytes, bound)], bound + 1,
                         residentBytes - oldLen + |bytes|))
  {
    OrderedAfterTouch(order, entries, bound, id, bytes);
    TouchedSum(order, entries, bound, id, ResidentEntry(bytes, bound));
  }

  class State {
    const capacity: Capacity
    var residentBytes: nat
    var nextRecency: nat
    var entries: Entries
    ghost var order: seq<BlockHash>

    /** Accounting is exact and the recencies, all below `bound`, give the order. */
    ghost predicate Consistent(bound: nat)
      reads this
    {
      && capacity.limit > 0
      && Exact(Ledger(order, entries, bound, residentBytes))
    }

    /** The capacity is kept. */
    ghost predicate Valid()
      reads this
    {
      && Consistent(nextRecency)
      && (capacity.ResidentBytes? ==> residentBytes <= capacity.limit)
      && (capacity.ResidentBlocks? ==> |order| <= capacity.limit)
    }

    constructor (capacity: Capacity)
      requires capacity.limit > 0
      ensures Valid() && this.capacity == capacity && entries == map[] && order == []
    {
      this.capacity := capacity;
      residentBytes, nextRecency, entries := 0, 0, map[];
      order := [];
    }

    /** The id with the smallest recency, the excluded one left out. */
    method FindLru(excluded: BlockHash, ghost bound: nat) returns (lru: BlockHash)
      requires Ordered(order, entries, bound) && Without(order, excluded) != []
      ensures lru in entries && lru != excluded && lru == Without(order, excluded)[0]
    {
      assert Without(order, excluded)[0] in entries.Keys - {excluded} by {
        WithoutMembers(order, excluded, Without(order, excluded)[0]);
        IdsAre(order, Without(order, excluded)[0]);
      }
      lru := Oldest(entries, entries.Keys - {excluded});
      OldestIsFirst(order, entries, bound, excluded, lru);
    }

    method EvictLruExcluding(excluded: BlockHash, ghost bound: nat)
      requires Consistent(bound) && Without(order, excluded) != []
      modifies `residentBytes, `entries, `order
      ensures Consistent(bound)
      ensures var lru := old(Without(order, excluded))[0];
        order == Without(old(order), lru) && lru in old(entries) && entries == old(entries) - {lru}
    {
      var lru := FindLru(excluded, bound);
      ExactAfterRemoval(order, entries, bound, residentBytes, lru);
      residentBytes := residentBytes - |entries[lru].bytes|;
      entries := entries - {lru};
      order := Without(order, lru);
    }

    /** The store's own test is the test on the other ids. */
    method AllowsInsert(newLen: nat, oldLen: nat, replacing: bool, ghost id: BlockHash, ghost start: Entries,
                        ghost evicted: set<BlockHash>, ghost bound: nat) returns (allowed: bool)
      requires Consistent(bound) && entries == start - evicted && id !in evicted
      requires oldLen == SizeIn(start)(id) && replacing == (id in start)
      ensures allowed == OthersFit(capacity, start, newLen, replacing, Without(order, id))
    {
      ReadyToTest(capacity, start, order, entries, evicted, bound, id, newLen, residentBytes, oldLen, replacing);
      var otherBytes: nat := residentBytes - oldLen;
      allowed := capacity.AllowsInsert(|entries|, otherBytes, newLen, replacing);
    }

    /** The eviction loop: oldest others first, no more of them than needed. */
    method MakeRoom(id: BlockHash, newLen: nat, oldLen: nat, replacing: bool, ghost bound: nat)
      returns (ghost evicted: set<BlockHash>)
      requires Consistent(bound) && (capacity.ResidentBytes? ==> newLen <= capacity.limit)
      requires replacing == (id in entries) && oldLen == SizeIn(entries)(id)
      modifies `residentBytes, `entries, `order
      ensures Consistent(bound)
      ensures Without(order, id) == Kept(capacity, old(order), old(entries), id, newLen)
      ensures entries == old(entries) - evicted && id !in evicted
      ensures OthersFit(capacity, old(entries), newLen, replacing, Without(order, id))
    {
      ghost var start, kept := entries, Kept(capacity, order, entries, id, newLen);
      evicted := {};
      assert start - evicted == start;
      var allowed := AllowsInsert(newLen, oldLen, replacing, id, start, evicted, bound);
      while !allowed
        invariant Consistent(bound)
        invariant Evicting(capacity, start, kept, order, entries, evicted, id, newLen)
        invariant allowed == OthersFit(capacity, start, newLen, replacing, Without(order, id))
        decreases |order|
      {
        EvictingStep(capacity, start, kept, order, entries, evicted, bound, id, newLen);
        evicted := evicted + {Without(order, id)[0]};
        EvictLruExcluding(id, bound);
        allowed := AllowsInsert(newLen, oldLen, replacing, id, start, evicted, bound);
      }
    }

    method NextRecency() returns (recency: nat)
      modifies `nextRecency
      ensures recency == old(nextRecency) && nextRecency == recency + 1
    {
      recency := nextRecency;
      nextRecency := nextRecency + 1;
    }

    method Store(id: BlockHash, bytes: seq<Byte>, recency: nat, oldLen: nat)
      requires Consistent(recency) && nextRecency == recency + 1 && oldLen <= residentBytes
      requires residentBytes - oldLen == Sum(SizeIn(entries), Without(order, id))
      modifies `residentBytes, `entries, `order
      ensures Consistent(nextRecency) && order == Touched(old(order), id)
      ensures entries == old(entries)[id := ResidentEntry(bytes, recency)]
      ensures residentBytes == old(residentBytes) - oldLen + |bytes|
    {
      ghost var newOrder := Touched(order, id);
      var newEntries := entries[id := ResidentEntry(bytes, recency)];
      ExactAfterTouch(order, entries, recency, residentBytes, id, bytes, oldLen);
      entries := newEntries;
      residentBytes := residentBytes - oldLen + |bytes|;
      order := newOrder;
    }

    /**
     Stores the payload as the most recently used one, evicting the oldest others first and no more of
     them than needed; a payload larger than the whole store changes nothing.
     */
    method InsertOrRefresh(id: BlockHash, bytes: seq<Byte>)
      returns (result: Result<(), ()>, ghost evicted: set<BlockHash>)
      requires Valid()
      modifies this
      ensures Valid()
      ensures result.Err? <==> capacity.ResidentBytes? && |bytes| > capacity.limit
      ensures result.Err? ==> entries == old(entries) && order == old(order)
      ensures result.Ok? ==>
        && order == Kept(capacity, old(order), old(entries), id, |bytes|) + [id]
        && (capacity.ResidentBlocks? ==> TouchStep(capacity.limit, old(order), id, order))
        && id !in evicted
        && entries == (old(entries) - evicted)[id := ResidentEntry(bytes, old(nextRecency))]
    {
      evicted := {};
      if capacity.ResidentBytes? && |bytes| > capacity.limit {
        return Err(()), {};
      }
      if capacity.ResidentBlocks? {
        KeptOfBlocks(capacity.limit, order, entries, nextRecency, id, |bytes|);
      }
      var recency := NextRecency();
      var replacing := id in entries;
      var oldLen := if replacing then |entries[id].bytes| else 0;
      evicted := MakeRoom(id, |bytes|, oldLen, replacing, recency);
      InsertReady(capacity, old(entries), order, entries, evicted, recency, id, |bytes|);
      Store(id, bytes, recency, oldLen);
      return Ok(()), evicted;
    }

    /** A read makes a resident block the most recently used one and changes nothing else. */
    method Refresh(id: BlockHash)
      requires Valid()
      modifies this
      ensures Valid() && residentBytes == old(residentBytes)
      ensures id !in old(entries) ==> entries == old(entries) && order == old(order)
      ensures id in old(entries) ==>
        && entries == old(entries)[id := old(entries)[id].(recency := old(nextRecency))]
        && order == Touched(old(order), id)
        && (capacity.ResidentBlocks? ==> TouchStep(capacity.limit, old(order), id, order))
    {
      var recency := NextRecency();
      if id in entries {
        var bytes := entries[id].bytes;
        RefreshReady(order, entries, recency, id);
        Store(id, bytes, recency, |bytes|);
      }
    }

    method GetBlockBytes(id: BlockHash) returns (bytes: Option<seq<Byte>>)
      requires Valid()
      modifies this
      ensures Valid()
      ensures bytes == if id in old(entries) then Some(old(entries)[id].bytes) else None
      ensures entries.Keys == old(entries).Keys
      ensures forall x :: x in entries ==> entries[x].bytes == old(entries)[x].bytes
      ensures id !in old(entries) ==> order == old(order)
      ensures id in old(entries) ==>
        && order == Touched(old(order), id)
        && (capacity.ResidentBlocks? ==> TouchStep(capacity.limit, old(order), id, order))
    {
      if id !in entries {
        return None;
      }
      bytes := Some(entries[id].bytes);
      Refresh(id);
    }
  }
}
