/** Opening a filesystem cache over files that are already there: the oldest ones that do not fit are evicted. */
module FsCacheInit {
  import opened Wrappers
  import opened Machine
  import opened BlockBasics
  import opened Recency
  import opened Permutation
  import opened MemoryStore
  import opened FsCache
  import SortKeys
  import StableSort

  datatype ExistingEntry = ExistingEntry(id: BlockHash, payloadBytes: nat, modified: int)

  function SizeOf(entry: ExistingEntry): nat {
    entry.payloadBytes
  }

  function IdOf(entry: ExistingEntry): BlockHash {
    entry.id
  }

  // Oldest first; ids decide between files of the same age.

  datatype Age = Age(modified: int, id: BlockHash)

  function AgeOf(entry: ExistingEntry): Age {
    Age(entry.modified, entry.id)
  }

  predicate Older(a: Age, b: Age) {
    a.modified < b.modified || (a.modified == b.modified && SortKeys.CompareSlices(a.id, b.id) == SortKeys.Less)
  }

  lemma OlderIsStrict()
    ensures StableSort.StrictOrder(Older)
  {
    forall a: Age, b: Age
      ensures !Older(a, a)
      ensures Older(a, b) || a == b || Older(b, a)
    {
      SortKeys.SlicesOrder(a.id, a.id);
      SortKeys.SlicesOrder(a.id, b.id);
      SortKeys.SlicesOrder(b.id, a.id);
    }
    forall a: Age, b: Age, c: Age | Older(a, b) && Older(b, c)
      ensures Older(a, c)
    {
      if a.modified == b.modified == c.modified {
        SortKeys.SlicesTransitive(a.id, b.id, c.id);
      }
    }
  }

  function ByAge(scan: seq<ExistingEntry>): seq<ExistingEntry> {
    StableSort.Sort(AgeOf, Older, scan)
  }

  function FitsIn(maxBytes: nat): seq<ExistingEntry> -> bool {
    rest => Sum(SizeOf, rest) <= maxBytes
  }

  /** What stays: the newest files, from the first on with which all the newer ones fit. */
  function Retained(scan: seq<ExistingEntry>, maxBytes: nat): seq<ExistingEntry> {
    DropUntil(FitsIn(maxBytes), ByAge(scan))
  }

  /** Modified earlier, or at the same time under an id that does not come later in a dictionary. */
  ghost predicate NotNewer(a: ExistingEntry, b: ExistingEntry) {
    a.modified < b.modified || (a.modified == b.modified && !SortKeys.DictionaryBefore(b.id, a.id))
  }

  lemma SortedByAge(scan: seq<ExistingEntry>)
    ensures forall i, j :: 0 <= i < j < |ByAge(scan)| ==> NotNewer(ByAge(scan)[i], ByAge(scan)[j])
  {
    var sorted := ByAge(scan);
    OlderIsStrict();
    StableSort.SortSorts(AgeOf, Older, scan);
    forall i, j | 0 <= i < j < |sorted|
      ensures NotNewer(sorted[i], sorted[j])
    {
      SortKeys.SlicesByPosition(sorted[j].id, sorted[i].id);
      assert !Older(AgeOf(sorted[j]), AgeOf(sorted[i]));
    }
  }

  /** The retained files are the longest run of newest files within the capacity, and the order is by age. */
  lemma RetainsNewest(scan: seq<ExistingEntry>, maxBytes: nat)
    ensures var sorted, kept := ByAge(scan), Retained(scan, maxBytes);
      && multiset(sorted) == multiset(scan) && StableSort.Sorted(AgeOf, Older, sorted)
      && |kept| <= |sorted| && kept == sorted[|sorted| - |kept|..] && Sum(SizeOf, kept) <= maxBytes
      && forall n :: 0 <= n < |sorted| - |kept| ==> Sum(SizeOf, sorted[n..]) > maxBytes
    ensures forall i, j :: 0 <= i < j < |ByAge(scan)| ==> NotNewer(ByAge(scan)[i], ByAge(scan)[j])
  {
    SortedByAge(scan);
    OlderIsStrict();
    StableSort.SortIsPermutation(AgeOf, Older, scan);
    StableSort.SortSorts(AgeOf, Older, scan);
    DropUntilIsShortest(FitsIn(maxBytes), ByAge(scan));
    var sorted, kept := ByAge(scan), Retained(scan, maxBytes);
    forall n | 0 <= n < |sorted| - |kept|
      ensures Sum(SizeOf, sorted[n..]) > maxBytes
    {
      assert !FitsIn(maxBytes)(sorted[n..]);
    }
  }

  lemma SumNext(entries: seq<ExistingEntry>, n: nat)
    requires n < |entries|
    ensures Sum(SizeOf, entries[..n + 1]) == Sum(SizeOf, entries[..n]) + entries[n].payloadBytes
    ensures Sum(SizeOf, entries[n..]) == entries[n].payloadBytes + Sum(SizeOf, entries[n + 1..])
  {
    assert entries[..n + 1] == entries[..n] + [entries[n]];
    SumConcat(SizeOf, entries[..n], [entries[n]]);
    assert [entries[n]][1..] == [];
    assert entries[n..][1..] == entries[n + 1..];
  }

  method TotalSize(entries: seq<ExistingEntry>) returns (total: Option<nat>)
    ensures total == if Sum(SizeOf, entries) <= USIZE_MAX then Some(Sum(SizeOf, entries)) else None
  {
    var sum: nat := 0;
    for n := 0 to |entries|
      invariant sum == Sum(SizeOf, entries[..n]) && sum <= USIZE_MAX
    {
      SumNext(entries, n);
      assert entries == entries[..n + 1] + entries[n + 1..];
      SumConcat(SizeOf, entries[..n + 1], entries[n + 1..]);
      var next := CheckedAdd(sum, entries[n].payloadBytes);
      if next.None? {
        return None;
      }
      sum := next.value;
    }
    assert entries[..|entries|] == entries;
    return Some(sum);
  }

  /** The counting loop never runs past the entries: without any of them nothing is resident. */
  method EvictCount(sorted: seq<ExistingEntry>, total: nat, maxBytes: nat) returns (count: nat, residentBytes: nat)
    requires total == Sum(SizeOf, sorted)
    ensures count <= |sorted| && residentBytes == Sum(SizeOf, sorted[count..]) <= maxBytes
    ensures sorted[count..] == DropUntil(FitsIn(maxBytes), sorted)
  {
    count, residentBytes := 0, total;
    assert sorted[0..] == sorted;
    while residentBytes > maxBytes
      invariant count <= |sorted| && residentBytes == Sum(SizeOf, sorted[count..])
      invariant DropUntil(FitsIn(maxBytes), sorted[count..]) == DropUntil(FitsIn(maxBytes), sorted)
      decreases |sorted| - count
    {
      SumNext(sorted, count);
      assert sorted[count..][1..] == sorted[count + 1..];
      var evicted := sorted[count];
      residentBytes := residentBytes - evicted.payloadBytes;
      count := count + 1;
    }
  }

  // Numbering the retained files.

  function IdsOf(entries: seq<ExistingEntry>): seq<BlockHash> {
    if entries == [] then [] else IdsOf(entries[..|entries| - 1]) + [entries[|entries| - 1].id]
  }

  /** Contents of the cache after opening: file bytes, numbered from the oldest on. */
  function OpenedView(entries: seq<ExistingEntry>, files: Files): Entries
    requires forall i :: 0 <= i < |entries| ==> entries[i].id in files
  {
    if entries == [] then map[]
    else
      var last := |entries| - 1;
      OpenedView(entries[..last], files)[entries[last].id := ResidentEntry(files[entries[last].id], last)]
  }

  /** The scan agrees with the files it lists. */
  ghost predicate Describes(entries: seq<ExistingEntry>, files: Files) {
    && Distinct(IdsOf(entries))
    && forall i :: 0 <= i < |entries| ==> EntryDescribes(entries[i], files)
  }

  lemma {:induction false} IdsOfPrefix(entries: seq<ExistingEntry>, n: nat)
    requires n < |entries|
    ensures IdsOf(entries[..n + 1]) == IdsOf(entries[..n]) + [entries[n].id]
    ensures |IdsOf(entries)| == |entries|
    decreases |entries|
  {
    assert entries[..n + 1][..n] == entries[..n];
    if |entries| > 1 {
      IdsOfPrefix(entries[..|entries| - 1], 0);
    }
  }

  lemma DescribesPrefix(entries: seq<ExistingEntry>, files: Files, n: nat)
    requires n < |entries| && Describes(entries[..n + 1], files)
    ensures Describes(entries[..n], files) && entries[n].id !in IdsOf(entries[..n])
    ensures entries[n].id in files && entries[n].payloadBytes == |files[entries[n].id]|
  {
    var all, front := IdsOf(entries[..n + 1]), IdsOf(entries[..n]);
    IdsOfPrefix(entries, n);
    assert all == front + [entries[n].id];
    assert forall i :: 0 <= i < |front| ==> front[i] == all[i] && all[i] != all[|front|];
    assert entries[..n + 1][n] == entries[n];
    assert forall i :: 0 <= i < n ==> entries[..n][i] == entries[..n + 1][i];
  }

  /** The opened cache is ordered by age and accounts for exactly the retained files. */
  lemma {:induction false} OpenedIsOrdered(entries: seq<ExistingEntry>, files: Files)
    requires Describes(entries, files)
    ensures Exact(Ledger(IdsOf(entries), OpenedView(entries, files), |entries|, Sum(SizeOf, entries)))
  {
    if entries != [] {
      var n := |entries| - 1;
      var front := entries[..n];
      assert entries[..n + 1] == entries;
      DescribesPrefix(entries, files, n);
      OpenedIsOrdered(front, files);
      AddOpened(front, entries[n], files);
      SumNext(entries, n);
    }
  }

  lemma AddOpened(front: seq<ExistingEntry>, entry: ExistingEntry, files: Files)
    requires Describes(front, files) && entry.id !in IdsOf(front)
    requires entry.id in files && entry.payloadBytes == |files[entry.id]|
    requires Exact(Ledger(IdsOf(front), OpenedView(front, files), |front|, Sum(SizeOf, front)))
    ensures Exact(Ledger(IdsOf(front) + [entry.id],
                         OpenedView(front, files)[entry.id := ResidentEntry(files[entry.id], |front|)], |front| + 1,
                         Sum(SizeOf, front) + entry.payloadBytes))
  {
    WithoutAbsent(IdsOf(front), entry.id);
    ExactAfterTouch(IdsOf(front), OpenedView(front, files), |front|, Sum(SizeOf, front), entry.id, files[entry.id], 0);
  }

  // Removing and keeping.

  lemma {:induction false} OpenedBooks(entries: seq<ExistingEntry>, files: Files, n: nat)
    requires Describes(entries, files) && n < |entries|
    ensures Describes(entries[..n], files) && Describes(entries[..n + 1], files)
    ensures var entry := CacheEntry(entries[n].payloadBytes, n);
      BooksOf(OpenedView(entries[..n + 1], files)) == BooksOf(OpenedView(entries[..n], files))[entries[n].id := entry]
    decreases |entries|
  {
    DescribedFront(entries, files, n + 1);
    DescribedFront(entries, files, n);
    assert entries[..n + 1][..n] == entries[..n];
    var view := OpenedView(entries[..n], files);
    DescribeAfterUpsert(BooksOf(view), FilesOf(view), view, entries[n].id, ResidentEntry(files[entries[n].id], n));
  }

  lemma {:induction false} DescribedFront(entries: seq<ExistingEntry>, files: Files, n: nat)
    requires Describes(entries, files) && n <= |entries|
    ensures Describes(entries[..n], files)
    decreases |entries| - n
  {
    if n == |entries| {
      assert entries[..n] == entries;
    } else {
      DescribedFront(entries, files, n + 1);
      DescribesPrefix(entries, files, n);
    }
  }

  /** Numbers the retained entries in order. */
  method Retain(kept: seq<ExistingEntry>, ghost files: Files) returns (entries: Books, nextRecency: nat)
    requires Describes(kept, files)
    ensures entries == BooksOf(OpenedView(kept, files)) && nextRecency == |kept|
  {
    entries, nextRecency := map[], 0;
    DescribedFront(kept, files, 0);
    for n := 0 to |kept|
      invariant nextRecency == n && Describes(kept[..n], files)
      invariant entries == BooksOf(OpenedView(kept[..n], files))
    {
      OpenedBooks(kept, files, n);
      entries := entries[kept[n].id := CacheEntry(kept[n].payloadBytes, nextRecency)];
      nextRecency := nextRecency + 1;
    }
    assert kept[..|kept|] == kept;
  }

  lemma {:induction false} IdsConcat(a: seq<ExistingEntry>, b: seq<ExistingEntry>)
    ensures IdsOf(a + b) == IdsOf(a) + IdsOf(b)
  {
    if b == [] {
      assert a + b == a;
    } else {
      IdsConcat(a, b[..|b| - 1]);
      assert (a + b)[..|a + b| - 1] == a + b[..|b| - 1];
    }
  }

  lemma {:induction false} IdsLength(entries: seq<ExistingEntry>)
    ensures |IdsOf(entries)| == |entries|
    ensures forall i :: 0 <= i < |entries| ==> IdsOf(entries)[i] == entries[i].id
  {
    if entries != [] {
      IdsLength(entries[..|entries| - 1]);
    }
  }

  lemma {:induction false} IdsOfConcat(a: seq<BlockHash>, b: seq<BlockHash>)
    ensures Ids(a + b) == Ids(a) + Ids(b)
  {
    if b == [] {
      assert a + b == a;
    } else {
      IdsOfConcat(a, b[..|b| - 1]);
      assert (a + b)[..|a + b| - 1] == a + b[..|b| - 1];
    }
  }

  lemma {:induction false} OpenedKeys(entries: seq<ExistingEntry>, files: Files)
    requires forall i :: 0 <= i < |entries| ==> entries[i].id in files
    ensures OpenedView(entries, files).Keys == Ids(IdsOf(entries))
    ensures forall id :: id in OpenedView(entries, files) ==>
      id in files && OpenedView(entries, files)[id].bytes == files[id]
  {
    if entries != [] {
      OpenedKeys(entries[..|entries| - 1], files);
      IdsOfAppend(IdsOf(entries[..|entries| - 1]), entries[|entries| - 1].id);
    }
  }

  lemma Apart(a: seq<BlockHash>, b: seq<BlockHash>)
    requires Distinct(a + b)
    ensures Ids(a) !! Ids(b)
  {
    forall x | x in Ids(a)
      ensures x !in Ids(b)
    {
      IdsAre(a, x);
      IdsAre(b, x);
      var i :| 0 <= i < |a| && a[i] == x;
      assert (a + b)[i] == x;
      assert forall j :: 0 <= j < |b| ==> (a + b)[|a| + j] == b[j];
    }
  }

  lemma DistinctSuffix(a: seq<BlockHash>, b: seq<BlockHash>)
    requires Distinct(a + b)
    ensures Distinct(b)
  {
    assert forall i :: 0 <= i < |b| ==> b[i] == (a + b)[|a| + i];
  }

  lemma IdsOfRest(sorted: seq<ExistingEntry>, count: nat)
    requires count <= |sorted|
    ensures IdsOf(sorted) == IdsOf(sorted[..count]) + IdsOf(sorted[count..])
  {
    assert sorted == sorted[..count] + sorted[count..];
    IdsConcat(sorted[..count], sorted[count..]);
  }

  lemma DescribesRest(sorted: seq<ExistingEntry>, files: Files, count: nat)
    requires Describes(sorted, files) && count <= |sorted|
    ensures Describes(sorted[count..], files)
  {
    IdsOfRest(sorted, count);
    DistinctSuffix(IdsOf(sorted[..count]), IdsOf(sorted[count..]));
  }

  /** With the evicted files gone, the directory holds exactly the retained ones. */
  lemma FilesLeft(sorted: seq<ExistingEntry>, files: Files, count: nat)
    requires Describes(sorted, files) && Ids(IdsOf(sorted)) == files.Keys && count <= |sorted|
    ensures Describes(sorted[count..], files)
    ensures FilesOf(OpenedView(sorted[count..], files)) == files - Ids(IdsOf(sorted[..count]))
  {
    DescribesRest(sorted, files, count);
    IdsOfRest(sorted, count);
    var evicted, kept := IdsOf(sorted[..count]), IdsOf(sorted[count..]);
    IdsOfConcat(evicted, kept);
    Apart(evicted, kept);
    OpenedKeys(sorted[count..], files);
    assert Ids(kept) == files.Keys - Ids(evicted);
  }

  lemma SortedIds(scan: seq<ExistingEntry>)
    ensures multiset(IdsOf(ByAge(scan))) == multiset(IdsOf(scan))
    ensures forall e :: e in ByAge(scan) <==> e in scan
  {
    StableSort.SortIsPermutation(AgeOf, Older, scan);
    IdsMultiset(ByAge(scan));
    IdsMultiset(scan);
    ApplyPermuted(IdOf, ByAge(scan), scan);
    SameElements(ByAge(scan), scan);
  }

  ghost predicate EntryDescribes(entry: ExistingEntry, files: Files) {
    entry.id in files && entry.payloadBytes == |files[entry.id]|
  }

  /** Sorting a scan keeps it a description of the files. */
  lemma SortedDescribes(scan: seq<ExistingEntry>, files: Files)
    requires Describes(scan, files) && Ids(IdsOf(scan)) == files.Keys
    ensures Describes(ByAge(scan), files) && Ids(IdsOf(ByAge(scan))) == files.Keys
  {
    var sorted := ByAge(scan);
    SortedIds(scan);
    DistinctByMultiset(IdsOf(scan), IdsOf(sorted));
    forall i | 0 <= i < |sorted|
      ensures EntryDescribes(sorted[i], files)
    {
      assert sorted[i] in scan;
    }
  }

  lemma {:induction false} IdsMultiset(entries: seq<ExistingEntry>)
    ensures IdsOf(entries) == Apply(IdOf, entries)
  {
    IdsLength(entries);
  }

  lemma WithoutNext(files: Files, evicted: seq<ExistingEntry>, n: nat)
    requires n < |evicted|
    ensures files - Ids(IdsOf(evicted[..n])) - {evicted[n].id} == files - Ids(IdsOf(evicted[..n + 1]))
  {
    IdsOfPrefix(evicted, n);
    IdsOfAppend(IdsOf(evicted[..n]), evicted[n].id);
  }

  /** Deleting the evicted files one by one; the first failure gives up. */
  method RemoveFiles(files: Files, evicted: seq<ExistingEntry>, stuck: set<BlockHash>)
    returns (ok: bool, left: Files)
    ensures ok <==> forall n :: 0 <= n < |evicted| ==> evicted[n].id !in stuck
    ensures ok ==> left == files - Ids(IdsOf(evicted))
  {
    ok, left := true, files;
    assert files - {} == files;
    for n := 0 to |evicted|
      invariant ok && left == files - Ids(IdsOf(evicted[..n]))
      invariant forall k :: 0 <= k < n ==> evicted[k].id !in stuck
    {
      if evicted[n].id in stuck {
        ok := false;
        return;
      }
      WithoutNext(files, evicted, n);
      left := left - {evicted[n].id};
    }
    assert evicted[..|evicted|] == evicted;
  }

  /** The files that opening evicts: all but the retained ones. */
  function Evicted(scan: seq<ExistingEntry>, maxBytes: nat): seq<ExistingEntry> {
    var sorted, kept := ByAge(scan), Retained(scan, maxBytes);
    if |kept| <= |sorted| then sorted[..|sorted| - |kept|] else []
  }

  lemma OpenedIsAccounted(scan: seq<ExistingEntry>, files: Files, count: nat, maxBytes: nat)
    requires Describes(scan, files) && Ids(IdsOf(scan)) == files.Keys && count <= |ByAge(scan)|
    requires Sum(SizeOf, ByAge(scan)[count..]) <= maxBytes
    ensures var kept := ByAge(scan)[count..];
      && Describes(kept, files)
      && Accounted(Ledger(IdsOf(kept), OpenedView(kept, files), |kept|, Sum(SizeOf, kept)), maxBytes)
      && FilesOf(OpenedView(kept, files)) == files - Ids(IdsOf(ByAge(scan)[..count]))
  {
    SortedDescribes(scan, files);
    FilesLeft(ByAge(scan), files, count);
    OpenedIsOrdered(ByAge(scan)[count..], files);
  }

  /**
   Opens a cache over scanned files, unless their sizes overflow or an evicted file cannot be removed. The newest
   files that fit are kept, ordered by age, and the books match the directory.
   */
  method InitializeCacheMode(files: Files, scan: seq<ExistingEntry>, maxCacheBytes: nat, stuck: set<BlockHash>)
    returns (store: Option<CacheStore>)
    requires Describes(scan, files) && Ids(IdsOf(scan)) == files.Keys
    ensures store.Some? <==> Sum(SizeOf, scan) <= USIZE_MAX
                             && forall e :: e in Evicted(scan, maxCacheBytes) ==> e.id !in stuck
    ensures store.Some? ==>
      && store.value.Valid() && fresh(store.value) && store.value.maxCacheBytes == maxCacheBytes
      && store.value.order == IdsOf(Retained(scan, maxCacheBytes))
      && Describes(Retained(scan, maxCacheBytes), files)
      && store.value.view == OpenedView(Retained(scan, maxCacheBytes), files)
  {
    var sorted := ByAge(scan);
    SameTotal(scan);
    var total := TotalSize(sorted);
    if total.None? {
      return None;
    }
    var count, residentBytes := EvictCount(sorted, total.value, maxCacheBytes);
    OpenedIsAccounted(scan, files, count, maxCacheBytes);
    var ok, left := RemoveFiles(files, sorted[..count], stuck);
    assert Evicted(scan, maxCacheBytes) == sorted[..count];
    if !ok {
      return None;
    }
    var entries, nextRecency := Retain(sorted[count..], files);
    var cache := new CacheStore(maxCacheBytes, residentBytes, nextRecency, entries, left,
                                 OpenedView(sorted[count..], files), IdsOf(sorted[count..]));
    return Some(cache);
  }

  lemma SameTotal(scan: seq<ExistingEntry>)
    ensures Sum(SizeOf, ByAge(scan)) == Sum(SizeOf, scan)
  {
    StableSort.SortIsPermutation(AgeOf, Older, scan);
    SumPermuted(ByAge(scan), scan);
  }

  lemma {:induction false} SumPermuted(a: seq<ExistingEntry>, b: seq<ExistingEntry>)
    requires multiset(a) == multiset(b)
    ensures Sum(SizeOf, a) == Sum(SizeOf, b)
    decreases |a|
  {
    if a == [] {
      assert |multiset(b)| == 0;
    } else {
      var rest, x := a[..|a| - 1], a[|a| - 1];
      assert a == rest + [x];
      var front, back := TakeOut(rest, x, b);
      SumPermuted(rest, front + back);
      SumConcat(SizeOf, rest, [x]);
      SumConcat(SizeOf, front + [x], back);
      SumConcat(SizeOf, front, [x]);
      SumConcat(SizeOf, front, back);
    }
  }
}
