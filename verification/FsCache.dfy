/** The filesystem cache, seen as a byte-bounded memory store; its books stay right even when a step fails. */
module FsCache {
  import opened Wrappers
  import opened Machine
  import opened BlockBasics
  import opened Recency
  import opened MemoryStore
  import StableSort

  datatype CacheEntry = CacheEntry(payloadBytes: nat, recency: nat)

  type Files = map<BlockHash, seq<Byte>>

  datatype CacheError = PayloadTooLarge | BackendFailure

  type Books = map<BlockHash, CacheEntry>

  /** The books of a cache whose contents are `view`. */
  function BooksOf(view: Entries): Books {
    map id | id in view :: CacheEntry(|view[id].bytes|, view[id].recency)
  }

  /** The directory of a cache whose contents are `view`. */
  function FilesOf(view: Entries): Files {
    map id | id in view :: view[id].bytes
  }

  // Sorting ids.

  predicate IntLess(a: int, b: int) {
    a < b
  }

  lemma IntLessIsStrict()
    ensures StableSort.StrictOrder(IntLess)
  {}

  /** Sorting the ids by recency gives the order. */
  lemma SortedByRecency(candidates: seq<BlockHash>, order: seq<BlockHash>, rank: BlockHash -> int)
    requires Distinct(candidates) && Ids(candidates) == Ids(order) && Increasing(rank, order)
    ensures StableSort.Sort(rank, IntLess, candidates) == order
  {
    IntLessIsStrict();
    IncreasingIsDistinct(rank, order);
    MultisetOfDistinct(candidates);
    MultisetOfDistinct(order);
    StableSort.SortIsPermutation(rank, IntLess, candidates);
    StableSort.SortSorts(rank, IntLess, candidates);
    StableSort.StrictIsUnique(rank, IntLess, order, StableSort.Sort(rank, IntLess, candidates));
  }

  /** The ids of a set, in some order. */
  method ListIds(ids: set<BlockHash>) returns (listed: seq<BlockHash>)
    ensures Distinct(listed) && Ids(listed) == ids
  {
    listed := [];
    var remaining := ids;
    while remaining != {}
      invariant Distinct(listed) && Ids(listed) == ids - remaining && remaining <= ids
      decreases |remaining|
    {
      var id :| id in remaining;
      IdsAre(listed, id);
      IdsOfAppend(listed, id);
      listed := listed + [id];
      remaining := remaining - {id};
    }
  }

  // Planning.

  /** Evicting the first `n` ids. */
  ghost predicate Planned(others: seq<BlockHash>, sizes: BlockHash -> nat, fits: seq<BlockHash> -> bool, n: nat,
                          residentBytes: nat)
  {
    && n <= |others|
    && residentBytes == Sum(sizes, others[n..])
    && DropUntil(fits, others[n..]) == DropUntil(fits, others)
  }

  lemma PlannedNext(others: seq<BlockHash>, sizes: BlockHash -> nat, fits: seq<BlockHash> -> bool, n: nat,
                    residentBytes: nat)
    requires Planned(others, sizes, fits, n, residentBytes) && n < |others| && !fits(others[n..])
    ensures sizes(others[n]) <= residentBytes
    ensures Planned(others, sizes, fits, n + 1, residentBytes - sizes(others[n]))
  {
    assert others[n..][1..] == others[n + 1..];
  }

  /** The planning loop over the ids in recency order: it stops as soon as the payload fits. */
  method PlanLoop(candidates: seq<BlockHash>, entries: Books, otherBytes: nat, payloadBytes: nat,
                  maxBytes: nat, ghost sizes: BlockHash -> nat, ghost fits: seq<BlockHash> -> bool)
    returns (evictions: seq<BlockHash>)
    requires forall id :: id in candidates ==> id in entries && entries[id].payloadBytes == sizes(id)
    requires otherBytes == Sum(sizes, candidates) && payloadBytes <= maxBytes
    requires forall rest :: fits(rest) <==> Sum(sizes, rest) + payloadBytes <= maxBytes
    ensures evictions + DropUntil(fits, candidates) == candidates
  {
    evictions := [];
    var residentBytes: nat := otherBytes;
    assert candidates[0..] == candidates;
    var n := 0;
    while n < |candidates| && residentBytes + payloadBytes > maxBytes
      invariant n <= |candidates| && evictions == candidates[..n]
      invariant Planned(candidates, sizes, fits, n, residentBytes)
    {
      assert candidates[n] in candidates;
      PlannedNext(candidates, sizes, fits, n, residentBytes);
      residentBytes := residentBytes - entries[candidates[n]].payloadBytes;
      evictions := evictions + [candidates[n]];
      n := n + 1;
    }
    if residentBytes + payloadBytes > maxBytes {
      assert false;
    }
    assert DropUntil(fits, candidates[n..]) == candidates[n..];
  }

  // Books and directory under single changes.

  /** The books, and the payloads in the directory. */
  datatype Records = Records(entries: Books, files: Files)

  /** Books and directory both hold the contents `view`. */
  ghost predicate Describe(records: Records, view: Entries) {
    match records
    case Records(entries, files) => entries == BooksOf(view) && files == FilesOf(view)
  }

  lemma DescribeAfterRemoval(entries: Books, files: Files, view: Entries, id: BlockHash)
    requires Describe(Records(entries, files), view)
    ensures Describe(Records(entries - {id}, files - {id}), view - {id})
  {}

  lemma DescribeAfterUpsert(entries: Books, files: Files, view: Entries, id: BlockHash, entry: ResidentEntry)
    requires Describe(Records(entries, files), view)
    ensures Describe(Records(entries[id := CacheEntry(|entry.bytes|, entry.recency)], files[id := entry.bytes]),
                     view[id := entry])
  {}

  lemma DescribeAfterRead(entries: Books, files: Files, view: Entries, id: BlockHash, recency: nat)
    requires Describe(Records(entries, files), view) && id in view
    ensures id in entries
    ensures Describe(Records(entries[id := entries[id].(recency := recency)], files),
                     view[id := view[id].(recency := recency)])
  {}

  lemma DescribedAt(entries: Books, files: Files, view: Entries, id: BlockHash)
    requires Describe(Records(entries, files), view)
    ensures id in entries <==> id in view
    ensures id in view ==> entries[id].payloadBytes == SizeIn(view)(id)
    ensures id !in view ==> SizeIn(view)(id) == 0
  {}

  lemma DescribedBooks(entries: Books, files: Files, view: Entries)
    requires Describe(Records(entries, files), view)
    ensures entries == BooksOf(view) && entries.Keys == view.Keys
  {}

  /** The ids other than `id`, in recency order, as the plan sees them. */
  lemma CandidatesSort(order: seq<BlockHash>, view: Entries, bound: nat, id: BlockHash, candidates: seq<BlockHash>)
    requires Ordered(order, view, bound) && Distinct(candidates) && Ids(candidates) == view.Keys - {id}
    ensures StableSort.Sort(RecencyIn(view), IntLess, candidates) == Without(order, id)
    ensures Sum(SizeIn(view), order) == Sum(SizeIn(view), Without(order, id)) + SizeIn(view)(id)
  {
    IdsOfWithout(order, id);
    WithoutKeepsIncreasing(RecencyIn(view), order, id);
    SortedByRecency(candidates, Without(order, id), RecencyIn(view));
    OrderedIsDistinct(order, view, bound);
    IdsAre(order, id);
    SumWithout(SizeIn(view), order, id);
  }

  lemma OthersHaveEntries(order: seq<BlockHash>, id: BlockHash, view: Entries)
    requires Ids(order) == view.Keys
    ensures forall x :: x in Without(order, id) ==>
      x in BooksOf(view) && BooksOf(view)[x].payloadBytes == SizeIn(view)(x)
  {
    forall x | x in Without(order, id)
      ensures x in BooksOf(view) && BooksOf(view)[x].payloadBytes == SizeIn(view)(x)
    {
      WithoutMembers(order, id, x);
      IdsAre(order, x);
    }
  }

  function RecencyOf(entries: Books): BlockHash -> int {
    id => if id in entries then entries[id].recency else -1
  }

  lemma SameRanks(view: Entries, candidates: seq<BlockHash>)
    ensures StableSort.Sort(RecencyOf(BooksOf(view)), IntLess, candidates)
         == StableSort.Sort(RecencyIn(view), IntLess, candidates)
  {
    SortSame(RecencyOf(BooksOf(view)), RecencyIn(view), candidates);
  }

  lemma {:induction false} InsertSame(f: BlockHash -> int, g: BlockHash -> int, s: seq<BlockHash>, x: BlockHash)
    requires forall id :: f(id) == g(id)
    ensures StableSort.Insert(f, IntLess, s, x) == StableSort.Insert(g, IntLess, s, x)
  {
    if s != [] {
      InsertSame(f, g, s[..|s| - 1], x);
    }
  }

  lemma {:induction false} SortSame(f: BlockHash -> int, g: BlockHash -> int, items: seq<BlockHash>)
    requires forall id :: f(id) == g(id)
    ensures StableSort.Sort(f, IntLess, items) == StableSort.Sort(g, IntLess, items)
  {
    if items != [] {
      SortSame(f, g, items[..|items| - 1]);
      InsertSame(f, g, StableSort.Sort(g, IntLess, items[..|items| - 1]), items[|items| - 1]);
    }
  }

  lemma EvictedIds(start: Entries, evictions: seq<BlockHash>, n: nat)
    requires n < |evictions|
    ensures (start - Ids(evictions[..n])) - {evictions[n]} == start - Ids(evictions[..n + 1])
    ensures Ids(evictions[..n + 1]) == Ids(evictions[..n]) + {evictions[n]}
  {
    IdsOfAppend(evictions[..n], evictions[n]);
    assert evictions[..n + 1] == evictions[..n] + [evictions[n]];
  }

  /** What the plan keeps leaves room for a payload that fits the cache at all. */
  lemma KeptFits(maxBytes: nat, order: seq<BlockHash>, start: Entries, id: BlockHash, newLen: nat)
    requires newLen <= maxBytes
    ensures OthersFit(ResidentBytes(maxBytes), start, newLen, id in start,
                      Kept(ResidentBytes(maxBytes), order, start, id, newLen))
  {
    DropUntilIsShortest(Room(ResidentBytes(maxBytes), SizeIn(start), newLen, id in start), Without(order, id));
  }

  /** The next planned victim is resident, and evicting it leaves the rest of the plan. */
  lemma PlannedVictim(order: seq<BlockHash>, view: Entries, bound: nat, id: BlockHash, plan: seq<BlockHash>, n: nat)
    requires Ordered(order, view, bound) && n < |plan| && Without(order, id) == plan[n..]
    ensures plan[n] in view && plan[n] != id
    ensures Without(Without(order, plan[n]), id) == plan[n + 1..]
  {
    OrderedIsDistinct(order, view, bound);
    assert plan[n] == Without(order, id)[0];
    WithoutMembers(order, id, plan[n]);
    IdsAre(order, plan[n]);
    WithoutFirstOther(order, id);
  }

  /** The books are exact and within the capacity. */
  ghost predicate Accounted(ledger: Ledger, maxBytes: nat) {
    Exact(ledger) && ledger.residentBytes <= maxBytes
  }

  datatype Cache = Cache(records: Records, ledger: Ledger)

  /** Books and directory describe the same contents, accounted for exactly and within the capacity. */
  ghost predicate Sound(cache: Cache, maxBytes: nat) {
    match cache
    case Cache(records, ledger) => Describe(records, ledger.entries) && Accounted(ledger, maxBytes)
  }

  lemma SoundIsOrdered(records: Records, order: seq<BlockHash>, view: Entries, bound: nat, residentBytes: nat,
                       maxBytes: nat)
    requires Sound(Cache(records, Ledger(order, view, bound, residentBytes)), maxBytes)
    ensures Ordered(order, view, bound) && residentBytes == Sum(SizeIn(view), order) && residentBytes <= maxBytes
    ensures Describe(records, view)
  {}

  function OldBytes(entries: Books, id: BlockHash): nat {
    if id in entries then entries[id].payloadBytes else 0
  }

  lemma SoundAfterRemoval(entries: Books, files: Files, order: seq<BlockHash>, view: Entries, bound: nat,
                          residentBytes: nat, maxBytes: nat, id: BlockHash)
    requires Sound(Cache(Records(entries, files), Ledger(order, view, bound, residentBytes)), maxBytes) && id in view
    ensures id in entries && entries[id].payloadBytes <= residentBytes
    ensures Sound(Cache(Records(entries - {id}, files - {id}),
                        Ledger(Without(order, id), view - {id}, bound, residentBytes - entries[id].payloadBytes)),
                  maxBytes)
  {
    DescribedAt(entries, files, view, id);
    DescribeAfterRemoval(entries, files, view, id);
    ExactAfterRemoval(order, view, bound, residentBytes, id);
  }

  lemma SoundAfterInsert(entries: Books, files: Files, order: seq<BlockHash>, view: Entries, bound: nat,
                         residentBytes: nat, maxBytes: nat, start: Entries, evicted: set<BlockHash>, id: BlockHash,
                         bytes: seq<Byte>)
    requires Sound(Cache(Records(entries, files), Ledger(order, view, bound, residentBytes)), maxBytes)
    requires view == start - evicted && id !in evicted
    requires OthersFit(ResidentBytes(maxBytes), start, |bytes|, id in start, Without(order, id))
    ensures OldBytes(entries, id) <= residentBytes
    ensures Sound(Cache(Records(entries[id := CacheEntry(|bytes|, bound)], files[id := bytes]),
                        Ledger(Touched(order, id), view[id := ResidentEntry(bytes, bound)], bound + 1,
                               residentBytes - OldBytes(entries, id) + |bytes|)), maxBytes)
  {
    SoundIsOrdered(Records(entries, files), order, view, bound, residentBytes, maxBytes);
    DescribedAt(entries, files, view, id);
    DescribeAfterUpsert(entries, files, view, id, ResidentEntry(bytes, bound));
    BytesAfterInsert(order, view, bound, residentBytes, maxBytes, start, evicted, id, |bytes|);
    ExactAfterTouch(order, view, bound, residentBytes, id, bytes, SizeIn(view)(id));
  }

  lemma BytesAfterInsert(order: seq<BlockHash>, view: Entries, bound: nat, residentBytes: nat, maxBytes: nat,
                         start: Entries, evicted: set<BlockHash>, id: BlockHash, newLen: nat)
    requires Ordered(order, view, bound) && residentBytes == Sum(SizeIn(view), order)
    requires view == start - evicted && id !in evicted
    requires OthersFit(ResidentBytes(maxBytes), start, newLen, id in start, Without(order, id))
    ensures SizeIn(view)(id) <= residentBytes
    ensures residentBytes - SizeIn(view)(id) == Sum(SizeIn(view), Without(order, id))
    ensures residentBytes - SizeIn(view)(id) + newLen <= maxBytes
  {
    InsertReady(ResidentBytes(maxBytes), start, order, view, evicted, bound, id, newLen);
  }

  lemma SoundAfterRead(entries: Books, files: Files, order: seq<BlockHash>, view: Entries, bound: nat,
                       residentBytes: nat, maxBytes: nat, id: BlockHash)
    requires Sound(Cache(Records(entries, files), Ledger(order, view, bound, residentBytes)), maxBytes) && id in view
    ensures id in entries
    ensures Sound(Cache(Records(entries[id := entries[id].(recency := bound)], files),
                        Ledger(Touched(order, id), view[id := view[id].(recency := bound)], bound + 1, residentBytes)),
                  maxBytes)
  {
    SoundIsOrdered(Records(entries, files), order, view, bound, residentBytes, maxBytes);
    RefreshReady(order, view, bound, id);
    DescribeAfterRead(entries, files, view, id, bound);
    ExactAfterTouch(order, view, bound, residentBytes, id, view[id].bytes, |view[id].bytes|);
  }

  lemma SoundAfterMiss(records: Records, order: seq<BlockHash>, view: Entries, bound: nat, residentBytes: nat,
                       maxBytes: nat)
    requires Sound(Cache(records, Ledger(order, view, bound, residentBytes)), maxBytes)
    ensures Sound(Cache(records, Ledger(order, view, bound + 1, residentBytes)), maxBytes)
  {}

  /** Which file operations fail: removing one of the stuck files, or publishing. */
  datatype Disk = Disk(stuck: set<BlockHash>, publishFails: bool)

  predicate HoldsNoOther(view: Entries, id: BlockHash, bytes: seq<Byte>) {
    id in view ==> view[id].bytes == bytes
  }

  lemma SameFile(entries: Books, files: Files, view: Entries, id: BlockHash)
    requires Describe(Records(entries, files), view)
    ensures id in files <==> id in view
    ensures id in view ==> files[id] == view[id].bytes
  {}

  /** All but the last `keep` ids can be removed. */
  ghost predicate RemovableBefore(others: seq<BlockHash>, keep: nat, stuck: set<BlockHash>) {
    keep <= |others| ==> Ids(others[..|others| - keep]) !! stuck
  }

  /** Removals go well up to `done`, where the plan ends or the next one fails. */
  ghost predicate StopsAt(stuck: set<BlockHash>, plan: seq<BlockHash>, done: nat) {
    done <= |plan| && Ids(plan[..done]) !! stuck && (done < |plan| ==> plan[done] in stuck)
  }

  /** What is kept fixes the plan, so where the evictions stop says whether all planned files can be removed. */
  lemma PlanIsDetermined(plan: seq<BlockHash>, kept: seq<BlockHash>, order: seq<BlockHash>, id: BlockHash,
                         stuck: set<BlockHash>, done: nat)
    requires plan + kept == Without(order, id) && StopsAt(stuck, plan, done)
    ensures done == |plan| <==> RemovableBefore(Without(order, id), |kept|, stuck)
  {
    assert Without(order, id)[..|plan|] == plan == plan[..|plan|];
    if done < |plan| {
      IdsAre(plan, plan[done]);
    }
  }

  class CacheStore {
    const maxCacheBytes: nat
    var residentBytes: nat
    var nextRecency: nat
    var entries: Books
    var files: Files
    ghost var view: Entries
    ghost var order: seq<BlockHash>

    ghost predicate Valid()
      reads this
    {
      Sound(Cache(Records(entries, files), Ledger(order, view, nextRecency, residentBytes)), maxCacheBytes)
    }

    constructor (maxCacheBytes: nat, residentBytes: nat, nextRecency: nat, entries: Books, files: Files,
                 ghost view: Entries, ghost order: seq<BlockHash>)
      requires Sound(Cache(Records(entries, files), Ledger(order, view, nextRecency, residentBytes)), maxCacheBytes)
      ensures Valid() && this.maxCacheBytes == maxCacheBytes && this.view == view && this.order == order
    {
      this.maxCacheBytes, this.residentBytes, this.nextRecency := maxCacheBytes, residentBytes, nextRecency;
      this.entries, this.files := entries, files;
      this.view, this.order := view, order;
    }

    /** Which ids to evict before storing a payload: the oldest others, and no more of them than needed. */
    method PlanEvictions(id: BlockHash, payloadBytes: nat) returns (plan: Result<seq<BlockHash>, CacheError>)
      requires Valid()
      ensures plan == Err(PayloadTooLarge) <==> payloadBytes > maxCacheBytes
      ensures payloadBytes <= maxCacheBytes ==> plan.Ok?
      ensures plan.Ok? ==>
        plan.value + Kept(ResidentBytes(maxCacheBytes), order, view, id, payloadBytes) == Without(order, id)
    {
      if payloadBytes > maxCacheBytes {
        return Err(PayloadTooLarge);
      }
      SoundIsOrdered(Records(entries, files), order, view, nextRecency, residentBytes, maxCacheBytes);
      var existing := OldBytes(entries, id);
      var candidates := ListIds(entries.Keys - {id});
      var sorted := StableSort.Sort(RecencyOf(entries), IntLess, candidates);
      DescribedAt(entries, files, view, id);
      DescribedBooks(entries, files, view);
      CandidatesSort(order, view, nextRecency, id, candidates);
      SameRanks(view, candidates);
      OthersHaveEntries(order, id, view);
      var evictions := PlanLoop(sorted, entries, residentBytes - existing, payloadBytes, maxCacheBytes, SizeIn(view),
                                Room(ResidentBytes(maxCacheBytes), SizeIn(view), payloadBytes, id in view));
      return Ok(evictions);
    }

    /** Deleting a file; a failure leaves it in place, an absent file counts as deleted. */
    method RemoveCachedFile(id: BlockHash, fails: bool) returns (ok: bool)
      modifies `files
      ensures ok == !fails && files == if ok then old(files) - {id} else old(files)
    {
      if fails {
        return false;
      }
      files := files - {id};
      return true;
    }

    /** Takes an evicted id out of the books. */
    method ApplyEviction(id: BlockHash)
      modifies `entries, `residentBytes
      ensures entries == old(entries) - {id}
      ensures id in old(entries) && old(entries)[id].payloadBytes <= old(residentBytes) ==>
        residentBytes == old(residentBytes) - old(entries)[id].payloadBytes
    {
      if id in entries {
        var payloadBytes := entries[id].payloadBytes;
        residentBytes := if payloadBytes <= residentBytes then residentBytes - payloadBytes else 0;
        entries := entries - {id};
      }
    }

    /** The file is gone; the books follow. */
    method ForgetEvicted(victim: BlockHash, ghost filesBefore: Files)
      requires Sound(Cache(Records(entries, filesBefore), Ledger(order, view, nextRecency, residentBytes)),
                     maxCacheBytes)
      requires files == filesBefore - {victim} && victim in view
      modifies `entries, `residentBytes, `order, `view
      ensures Valid() && order == Without(old(order), victim) && view == old(view) - {victim}
    {
      ghost var newView, newOrder := view - {victim}, Without(order, victim);
      SoundAfterRemoval(entries, filesBefore, order, view, nextRecency, residentBytes, maxCacheBytes, victim);
      ApplyEviction(victim);
      order := newOrder;
      view := newView;
    }

    /** Deletes one file and its entry, or neither. */
    method EvictOne(victim: BlockHash, fails: bool) returns (ok: bool)
      requires Valid() && victim in view
      modifies `files, `entries, `residentBytes, `order, `view
      ensures Valid() && ok == !fails
      ensures ok ==> order == Without(old(order), victim) && view == old(view) - {victim}
      ensures !ok ==> order == old(order) && view == old(view)
    {
      ghost var filesBefore := files;
      ok := RemoveCachedFile(victim, fails);
      if !ok {
        return;
      }
      ForgetEvicted(victim, filesBefore);
    }

    /** Evicts along the plan; a failing deletion stops it with everything still consistent. */
    method EvictPlanned(id: BlockHash, evictions: seq<BlockHash>, stuck: set<BlockHash>, ghost kept: seq<BlockHash>)
      returns (ok: bool, ghost done: nat)
      requires Valid() && evictions + kept == Without(order, id)
      modifies `files, `entries, `residentBytes, `order, `view
      ensures Valid() && done <= |evictions| && (ok <==> done == |evictions|)
      ensures StopsAt(stuck, evictions, done)
      ensures Without(order, id) == (evictions + kept)[done..]
      ensures view == old(view) - Ids(evictions[..done])
      ensures id !in Ids(evictions[..done])
    {
      ok, done := true, 0;
      assert view - {} == view;
      for n := 0 to |evictions|
        invariant ok && done == n && Valid()
        invariant Ids(evictions[..n]) !! stuck
        invariant Without(order, id) == (evictions + kept)[n..]
        invariant view == old(view) - Ids(evictions[..n])
        invariant id !in Ids(evictions[..n])
      {
        SoundIsOrdered(Records(entries, files), order, view, nextRecency, residentBytes, maxCacheBytes);
        PlannedVictim(order, view, nextRecency, id, evictions + kept, n);
        EvictedIds(old(view), evictions, n);
        ok := EvictOne(evictions[n], evictions[n] in stuck);
        if !ok {
          return;
        }
        done := n + 1;
      }
    }

    /**
     Publishing a staged file without overwriting: an existing file counts when it has the same bytes, and
     any failure leaves the directory as it was.
     */
    method PublishBlockBytes(id: BlockHash, bytes: seq<Byte>, fails: bool) returns (ok: bool)
      modifies `files
      ensures ok <==> !fails && (id in old(files) ==> old(files)[id] == bytes)
      ensures files == if ok then old(files)[id := bytes] else old(files)
    {
      if fails {
        return false;
      }
      if id in files {
        ok := files[id] == bytes;
        if ok {
          assert files == files[id := bytes];
        }
        return;
      }
      files := files[id := bytes];
      return true;
    }

    method Upsert(id: BlockHash, payloadBytes: nat)
      modifies `entries, `nextRecency, `residentBytes
      ensures nextRecency == old(nextRecency) + 1
      ensures entries == old(entries)[id := CacheEntry(payloadBytes, old(nextRecency))]
      ensures OldBytes(old(entries), id) <= old(residentBytes) ==>
        residentBytes == old(residentBytes) - OldBytes(old(entries), id) + payloadBytes
    {
      var recency := nextRecency;
      nextRecency := nextRecency + 1;
      var oldBytes := OldBytes(entries, id);
      entries := entries[id := CacheEntry(payloadBytes, recency)];
      residentBytes := (if oldBytes <= residentBytes then residentBytes - oldBytes else 0) + payloadBytes;
    }

    /** The payload is in its file; the books follow. */
    method Record(id: BlockHash, payloadBytes: nat, ghost newOrder: seq<BlockHash>, ghost newView: Entries)
      requires OldBytes(entries, id) <= residentBytes
      requires Sound(Cache(Records(entries[id := CacheEntry(payloadBytes, nextRecency)], files),
                           Ledger(newOrder, newView, nextRecency + 1,
                                  residentBytes - OldBytes(entries, id) + payloadBytes)), maxCacheBytes)
      modifies `entries, `nextRecency, `residentBytes, `order, `view
      ensures Valid() && order == newOrder && view == newView
    {
      Upsert(id, payloadBytes);
      order := newOrder;
      view := newView;
    }

    /** Writes the file, then the books; when the file cannot be written nothing changes. */
    method PublishAndRecord(id: BlockHash, bytes: seq<Byte>, fails: bool, ghost newOrder: seq<BlockHash>,
                            ghost newView: Entries)
      returns (ok: bool)
      requires Valid() && OldBytes(entries, id) <= residentBytes
      requires Sound(Cache(Records(entries[id := CacheEntry(|bytes|, nextRecency)], files[id := bytes]),
                           Ledger(newOrder, newView, nextRecency + 1,
                                  residentBytes - OldBytes(entries, id) + |bytes|)), maxCacheBytes)
      modifies this
      ensures Valid() && (ok <==> !fails && (id in old(files) ==> old(files)[id] == bytes))
      ensures !ok ==> view == old(view) && order == old(order) && nextRecency == old(nextRecency)
      ensures ok ==> order == newOrder && view == newView
    {
      ok := PublishBlockBytes(id, bytes, fails);
      if !ok {
        return;
      }
      Record(id, |bytes|, newOrder, newView);
    }

    /** Publishing once the others leave room. */
    method PublishFitting(id: BlockHash, bytes: seq<Byte>, fails: bool, ghost start: Entries,
                          ghost evicted: set<BlockHash>)
      returns (ok: bool)
      requires Valid() && view == start - evicted && id !in evicted
      requires OthersFit(ResidentBytes(maxCacheBytes), start, |bytes|, id in start, Without(order, id))
      modifies this
      ensures Valid() && (ok <==> !fails && HoldsNoOther(start, id, bytes))
      ensures !ok ==> view == old(view) && order == old(order) && nextRecency == old(nextRecency)
      ensures ok ==> order == Touched(old(order), id)
                     && view == old(view)[id := ResidentEntry(bytes, old(nextRecency))]
    {
      ghost var newOrder, newView := Touched(order, id), view[id := ResidentEntry(bytes, nextRecency)];
      SoundAfterInsert(entries, files, order, view, nextRecency, residentBytes, maxCacheBytes, start, evicted, id,
                       bytes);
      SameFile(entries, files, view, id);
      ok := PublishAndRecord(id, bytes, fails, newOrder, newView);
    }

    /** What a put that was stopped leaves: the books right, and a first part of the plan evicted. */
    twostate predicate Stopped(id: BlockHash, evicted: set<BlockHash>, done: nat)
      reads this
    {
      && Valid() && view == old(view) - evicted && id !in evicted
      && done <= |Without(old(order), id)| && Without(order, id) == Without(old(order), id)[done..]
    }

    /** What a put that succeeded leaves: the contents of a byte-bounded memory store after the same insert. */
    twostate predicate Stored(id: BlockHash, bytes: seq<Byte>, evicted: set<BlockHash>)
      reads this
    {
      && Valid() && id !in evicted
      && order == Kept(ResidentBytes(maxCacheBytes), old(order), old(view), id, |bytes|) + [id]
      && view == (old(view) - evicted)[id := ResidentEntry(bytes, old(nextRecency))]
    }

    /** Every planned file can be removed, the payload can be published, and no other bytes are there already. */
    ghost predicate DiskObliges(disk: Disk, order: seq<BlockHash>, start: Entries, id: BlockHash, bytes: seq<Byte>) {
      var kept := Kept(ResidentBytes(maxCacheBytes), order, start, id, |bytes|);
      && RemovableBefore(Without(order, id), |kept|, disk.stuck)
      && !disk.publishFails && HoldsNoOther(start, id, bytes)
    }

    /**
     Stores a payload like a byte-bounded memory store would. When a deletion or the publication fails, the
     books still match the directory and only a first part of the plan has been evicted.
     */
    method PutBlockBytes(id: BlockHash, bytes: seq<Byte>, disk: Disk)
      returns (result: Result<(), CacheError>, ghost evicted: set<BlockHash>, ghost done: nat)
      requires Valid()
      modifies this
      ensures result == Err(PayloadTooLarge) <==> |bytes| > maxCacheBytes
      ensures result.Ok? <==> |bytes| <= maxCacheBytes && DiskObliges(disk, old(order), old(view), id, bytes)
      ensures result == Err(PayloadTooLarge) ==> Valid() && view == old(view)
      ensures result == Err(BackendFailure) ==> Stopped(id, evicted, done)
      ensures result.Ok? ==> Stored(id, bytes, evicted)
    {
      evicted, done := {}, 0;
      var plan := PlanEvictions(id, |bytes|);
      if plan.Err? {
        return Err(plan.error), evicted, done;
      }
      ghost var kept := Kept(ResidentBytes(maxCacheBytes), order, view, id, |bytes|);
      KeptFits(maxCacheBytes, order, view, id, |bytes|);
      var ok;
      ok, done := EvictPlanned(id, plan.value, disk.stuck, kept);
      PlanIsDetermined(plan.value, kept, old(order), id, disk.stuck, done);
      evicted := Ids(plan.value[..done]);
      if !ok {
        return Err(BackendFailure), evicted, done;
      }
      assert (plan.value + kept)[done..] == kept;
      ok := PublishFitting(id, bytes, disk.publishFails, old(view), evicted);
      if !ok {
        return Err(BackendFailure), evicted, done;
      }
      return Ok(()), evicted, done;
    }

    /** The read entry becomes the newest. */
    method Refresh(id: BlockHash)
      requires Valid() && id in view
      modifies `entries, `order, `view, `nextRecency
      ensures Valid() && order == Touched(old(order), id)
      ensures view == old(view)[id := old(view)[id].(recency := old(nextRecency))]
    {
      ghost var newOrder, newView := Touched(order, id), view[id := view[id].(recency := nextRecency)];
      SoundAfterRead(entries, files, order, view, nextRecency, residentBytes, maxCacheBytes, id);
      entries := entries[id := entries[id].(recency := nextRecency)];
      nextRecency := nextRecency + 1;
      order := newOrder;
      view := newView;
    }

    /** A read refreshes the entry and changes nothing else. */
    method ObserveRead(id: BlockHash)
      requires Valid()
      modifies this
      ensures Valid() && files == old(files)
      ensures id !in old(view) ==> view == old(view) && order == old(order)
      ensures id in old(view) ==>
        view == old(view)[id := old(view)[id].(recency := old(nextRecency))] && order == Touched(old(order), id)
    {
      SoundIsOrdered(Records(entries, files), order, view, nextRecency, residentBytes, maxCacheBytes);
      DescribedAt(entries, files, view, id);
      if id in entries {
        Refresh(id);
      } else {
        SoundAfterMiss(Records(entries, files), order, view, nextRecency, residentBytes, maxCacheBytes);
        nextRecency := nextRecency + 1;
      }
    }
  }
}
