/** The most block bytes one row can carry, and the simulation with a binary search that computes it. */
module RowCapacity {
  import opened Wrappers
  import opened Machine
  import opened Base64
  import opened BlockBasics
  import opened TableKeys
  import opened TableRows

  function Total(chunks: seq<Chunk>): nat {
    if chunks == [] then 0 else Total(chunks[..|chunks| - 1]) + |chunks[|chunks| - 1]|
  }

  /** These chunks fit one row that has room for `maxChunks` of them. */
  ghost predicate Fits(fixedBytes: nat, maxChunks: nat, chunks: seq<Chunk>) {
    && |chunks| <= maxChunks
    && (forall k :: 0 <= k < |chunks| ==> |chunks[k]| <= RAW_CHUNK_SIZE)
    && RowBytes(fixedBytes, chunks) <= MAX_ROW_PROPERTY_BYTES
  }

  /** `payload` is the largest number of bytes that any chunks fitting the row add up to. */
  ghost predicate IsCapacity(fixedBytes: nat, maxChunks: nat, payload: nat) {
    && (exists chunks :: Fits(fixedBytes, maxChunks, chunks) && Total(chunks) == payload)
    && (forall chunks :: Fits(fixedBytes, maxChunks, chunks) ==> Total(chunks) <= payload)
  }

  lemma CapacityIsUnique(fixedBytes: nat, maxChunks: nat, a: nat, b: nat)
    requires IsCapacity(fixedBytes, maxChunks, a) && IsCapacity(fixedBytes, maxChunks, b)
    ensures a == b
  {}

  // Base64 lengths.

  lemma EncodedLengthGrows(a: nat, b: nat)
    requires a <= b
    ensures EncodedLength(a) <= EncodedLength(b)
  {}

  /** Splitting a payload into chunks never shortens its encoding. */
  lemma EncodedLengthSplits(a: nat, b: nat)
    ensures EncodedLength(a + b) <= EncodedLength(a) + EncodedLength(b)
  {}

  lemma {:induction false} FullChunksEncode(k: nat, extra: nat)
    ensures EncodedLength(k * RAW_CHUNK_SIZE + extra) == k * 32_768 + EncodedLength(extra)
  {
    if k > 0 {
      FullChunksEncode(k - 1, extra);
      var rest := (k - 1) * RAW_CHUNK_SIZE + extra;
      assert k * RAW_CHUNK_SIZE + extra == rest + RAW_CHUNK_SIZE;
      assert (rest + RAW_CHUNK_SIZE + 2) / 3 == (rest + 2) / 3 + 8192;
    }
  }

  // A lower bound on the size of a row from its payload alone.

  function NamesBytes(count: nat): nat {
    if count == 0 then 0 else NamesBytes(count - 1) + Utf16Bytes(ChunkName(count - 1))
  }

  lemma {:induction false} NamesBytesGrow(a: nat, b: nat)
    requires a <= b
    ensures NamesBytes(a) <= NamesBytes(b)
  {
    if a < b {
      NamesBytesGrow(a, b - 1);
    }
  }

  lemma {:induction false} RowBytesFromPayload(fixedBytes: nat, chunks: seq<Chunk>)
    ensures RowBytes(fixedBytes, chunks) >= fixedBytes + NamesBytes(|chunks|) + 2 * EncodedLength(Total(chunks))
  {
    if chunks != [] {
      var front, last := chunks[..|chunks| - 1], chunks[|chunks| - 1];
      RowBytesFromPayload(fixedBytes, front);
      EncodedLengthSplits(Total(front), |last|);
    }
  }

  lemma {:induction false} RowBytesShift(low: nat, high: nat, chunks: seq<Chunk>)
    ensures RowBytes(high, chunks) - high == RowBytes(low, chunks) - low
  {
    if chunks != [] {
      RowBytesShift(low, high, chunks[..|chunks| - 1]);
    }
  }

  lemma {:induction false} TotalIsBounded(chunks: seq<Chunk>)
    requires forall k :: 0 <= k < |chunks| ==> |chunks[k]| <= RAW_CHUNK_SIZE
    ensures Total(chunks) <= |chunks| * RAW_CHUNK_SIZE
  {
    if chunks != [] {
      TotalIsBounded(chunks[..|chunks| - 1]);
    }
  }

  // The row the simulation fills: full chunks, then one shorter chunk.

  function Zeros(length: nat): (chunk: Chunk)
    ensures |chunk| == length
  {
    seq(length, _ => 0 as Byte)
  }

  function FullChunks(count: nat): (chunks: seq<Chunk>)
    ensures |chunks| == count
    ensures forall k :: 0 <= k < count ==> |chunks[k]| == RAW_CHUNK_SIZE
  {
    if count == 0 then [] else FullChunks(count - 1) + [Zeros(RAW_CHUNK_SIZE)]
  }

  lemma {:induction false} FullChunksBytes(fixedBytes: nat, count: nat)
    ensures RowBytes(fixedBytes, FullChunks(count)) == fixedBytes + NamesBytes(count) + 65_536 * count
    ensures Total(FullChunks(count)) == count * RAW_CHUNK_SIZE
  {
    if count > 0 {
      FullChunksBytes(fixedBytes, count - 1);
      assert FullChunks(count)[..count - 1] == FullChunks(count - 1);
    }
  }

  /** With all allowed chunks full, the row is as full as it can be. */
  lemma AllChunksFull(fixedBytes: nat, count: nat)
    requires RowBytes(fixedBytes, FullChunks(count)) <= MAX_ROW_PROPERTY_BYTES
    ensures IsCapacity(fixedBytes, count, count * RAW_CHUNK_SIZE)
  {
    FullChunksBytes(fixedBytes, count);
    assert Fits(fixedBytes, count, FullChunks(count));
    forall chunks | Fits(fixedBytes, count, chunks)
      ensures Total(chunks) <= count * RAW_CHUNK_SIZE
    {
      TotalIsBounded(chunks);
    }
  }

  /** `low` is the longest chunk that still fits behind `count` full ones; no chunk at all counts as zero. */
  ghost predicate LongestExtra(rowBytes: nat, count: nat, low: nat) {
    && low <= RAW_CHUNK_SIZE
    && (low > 0 ==> TryExtend(rowBytes, count, low).Some?)
    && (low < RAW_CHUNK_SIZE ==> TryExtend(rowBytes, count, low + 1).None?)
  }

  lemma EncodingBeyond(count: nat, extra: nat, total: nat)
    requires total >= count * RAW_CHUNK_SIZE + extra
    ensures EncodedLength(total) >= count * 32_768 + EncodedLength(extra)
  {
    FullChunksEncode(count, extra);
    EncodedLengthGrows(count * RAW_CHUNK_SIZE + extra, total);
  }

  /** More payload than full chunks and `extra` bytes takes more room than those do. */
  lemma BytesBeyond(fixedBytes: nat, count: nat, extra: nat, chunks: seq<Chunk>)
    requires |chunks| > count && Total(chunks) >= count * RAW_CHUNK_SIZE + extra
    ensures RowBytes(fixedBytes, chunks) >= RowBytes(fixedBytes, FullChunks(count)) + ChunkBytes(count, extra)
  {
    FullChunksBytes(fixedBytes, count);
    RowBytesFromPayload(fixedBytes, chunks);
    NamesBytesGrow(count + 1, |chunks|);
    EncodingBeyond(count, extra, Total(chunks));
  }

  lemma NextOverflows(rowBytes: nat, count: nat, low: nat)
    requires low < RAW_CHUNK_SIZE && LongestExtra(rowBytes, count, low)
    ensures rowBytes + ChunkBytes(count, low + 1) > MAX_ROW_PROPERTY_BYTES
  {
    FullChunkEncoding(low + 1);
  }

  /** Full chunks and one longest extra chunk carry more than any other choice of chunks. */
  lemma GreedyIsLargest(fixedBytes: nat, maxChunks: nat, count: nat, low: nat, chunks: seq<Chunk>)
    requires low < RAW_CHUNK_SIZE && LongestExtra(RowBytes(fixedBytes, FullChunks(count)), count, low)
    requires Fits(fixedBytes, maxChunks, chunks)
    ensures Total(chunks) <= count * RAW_CHUNK_SIZE + low
  {
    if |chunks| <= count {
      TotalIsBounded(chunks);
    } else if Total(chunks) > count * RAW_CHUNK_SIZE + low {
      NextOverflows(RowBytes(fixedBytes, FullChunks(count)), count, low);
      BytesBeyond(fixedBytes, count, low + 1, chunks);
      assert false;
    }
  }

  lemma GreedyIsCapacity(fixedBytes: nat, maxChunks: nat, count: nat, low: nat)
    requires count < maxChunks && RowBytes(fixedBytes, FullChunks(count)) <= MAX_ROW_PROPERTY_BYTES
    requires low < RAW_CHUNK_SIZE && LongestExtra(RowBytes(fixedBytes, FullChunks(count)), count, low)
    ensures IsCapacity(fixedBytes, maxChunks, count * RAW_CHUNK_SIZE + low)
  {
    var full := FullChunks(count);
    var best := if low == 0 then full else full + [Zeros(low)];
    FullChunksBytes(fixedBytes, count);
    RowBytesExtend(fixedBytes, full, Zeros(low));
    assert (full + [Zeros(low)])[..count] == full;
    assert Fits(fixedBytes, maxChunks, best) && Total(best) == count * RAW_CHUNK_SIZE + low;
    forall chunks | Fits(fixedBytes, maxChunks, chunks)
      ensures Total(chunks) <= count * RAW_CHUNK_SIZE + low
    {
      GreedyIsLargest(fixedBytes, maxChunks, count, low, chunks);
    }
  }

  function SimulatedId(): BlockHash {
    seq(32, _ => 0 as Byte)
  }

  /** Fills a row with full chunks and then searches for the longest chunk that still fits. */
  method SimulatedRowCapacityBytes(rowIndex: nat, maxChunks: nat) returns (capacity: nat)
    requires rowIndex <= I64_MAX
    ensures IsCapacity(FixedRowBytes(SimulatedId(), rowIndex), maxChunks, capacity)
  {
    FixedRowBytesBound(SimulatedId(), rowIndex);
    capacity := SimulateFilling(FixedRowBytes(SimulatedId(), rowIndex), maxChunks);
  }

  method SimulateFilling(fixedBytes: nat, maxChunks: nat) returns (capacity: nat)
    requires fixedBytes <= MAX_ROW_PROPERTY_BYTES
    ensures IsCapacity(fixedBytes, maxChunks, capacity)
  {
    var totalLength := 0;
    var propertyBytes := fixedBytes;
    var chunkCount := 0;
    while chunkCount < maxChunks
      invariant chunkCount <= maxChunks && totalLength == chunkCount * RAW_CHUNK_SIZE
      invariant propertyBytes == RowBytes(fixedBytes, FullChunks(chunkCount)) <= MAX_ROW_PROPERTY_BYTES
    {
      var nextBytes := TryExtend(propertyBytes, chunkCount, RAW_CHUNK_SIZE);
      if nextBytes.None? {
        break;
      }
      RowBytesExtend(fixedBytes, FullChunks(chunkCount), Zeros(RAW_CHUNK_SIZE));
      propertyBytes := nextBytes.value;
      chunkCount := chunkCount + 1;
      totalLength := totalLength + RAW_CHUNK_SIZE;
    }
    if chunkCount == maxChunks {
      AllChunksFull(fixedBytes, chunkCount);
      return totalLength;
    }
    var low := SearchLongestExtra(propertyBytes, chunkCount);
    GreedyIsCapacity(fixedBytes, maxChunks, chunkCount, low);
    return totalLength + low;
  }

  method SearchLongestExtra(propertyBytes: nat, chunkCount: nat) returns (low: nat)
    ensures LongestExtra(propertyBytes, chunkCount, low)
  {
    low := 0;
    var high := RAW_CHUNK_SIZE;
    while low < high
      invariant 0 <= low <= high <= RAW_CHUNK_SIZE
      invariant low > 0 ==> TryExtend(propertyBytes, chunkCount, low).Some?
      invariant high < RAW_CHUNK_SIZE ==> TryExtend(propertyBytes, chunkCount, high + 1).None?
    {
      var candidate := (low + high + 1) / 2;
      if TryExtend(propertyBytes, chunkCount, candidate).Some? {
        low := candidate;
      } else {
        high := candidate - 1;
      }
    }
  }

  /** Searches down from a bound that nothing exceeds; the empty row is always there to stop at. */
  ghost function LargestUpTo(fixedBytes: nat, maxChunks: nat, bound: nat): (payload: nat)
    requires fixedBytes <= MAX_ROW_PROPERTY_BYTES
    requires forall chunks :: Fits(fixedBytes, maxChunks, chunks) ==> Total(chunks) <= bound
    ensures IsCapacity(fixedBytes, maxChunks, payload)
  {
    assert Fits(fixedBytes, maxChunks, []) && Total([]) == 0;
    if exists chunks :: Fits(fixedBytes, maxChunks, chunks) && Total(chunks) == bound then bound
    else LargestUpTo(fixedBytes, maxChunks, bound - 1)
  }

  ghost function Capacity(fixedBytes: nat, maxChunks: nat): (payload: nat)
    requires fixedBytes <= MAX_ROW_PROPERTY_BYTES
    ensures IsCapacity(fixedBytes, maxChunks, payload)
    ensures payload <= maxChunks * RAW_CHUNK_SIZE
  {
    AnyTotalIsBounded(fixedBytes, maxChunks);
    LargestUpTo(fixedBytes, maxChunks, maxChunks * RAW_CHUNK_SIZE)
  }

  lemma AnyTotalIsBounded(fixedBytes: nat, maxChunks: nat)
    ensures forall chunks :: Fits(fixedBytes, maxChunks, chunks) ==> Total(chunks) <= maxChunks * RAW_CHUNK_SIZE
  {
    forall chunks | Fits(fixedBytes, maxChunks, chunks)
      ensures Total(chunks) <= maxChunks * RAW_CHUNK_SIZE
    {
      TotalIsBounded(chunks);
    }
  }

  /** The limits a stored block is checked against: of a root row, and of any continuation row. */
  ghost function RootCapacity(maxChunks: nat): nat {
    FixedRowBytesBound(SimulatedId(), 0);
    Capacity(FixedRowBytes(SimulatedId(), 0), maxChunks)
  }

  ghost function ContinuationCapacity(maxChunks: nat): nat {
    FixedRowBytesBound(SimulatedId(), 1);
    Capacity(FixedRowBytes(SimulatedId(), 1), maxChunks)
  }

  lemma RootCapacityIs(maxChunks: nat, payload: nat)
    requires IsCapacity(FixedRowBytes(SimulatedId(), 0), maxChunks, payload)
    ensures RootCapacity(maxChunks) == payload
  {
    CapacityIsUnique(FixedRowBytes(SimulatedId(), 0), maxChunks, RootCapacity(maxChunks), payload);
  }

  lemma ContinuationCapacityIs(maxChunks: nat, payload: nat)
    requires IsCapacity(FixedRowBytes(SimulatedId(), 1), maxChunks, payload)
    ensures ContinuationCapacity(maxChunks) == payload
  {
    CapacityIsUnique(FixedRowBytes(SimulatedId(), 1), maxChunks, ContinuationCapacity(maxChunks), payload);
  }

  /** No root row of any block carries more than the simulated root row. */
  lemma RootPayload(id: BlockHash, chunks: seq<Chunk>)
    requires RowFits(FixedRowBytes(id, 0), chunks)
    ensures Total(chunks) <= RootCapacity(|chunks|)
  {
    FixedRowBytesBound(SimulatedId(), 0);
    assert Fits(FixedRowBytes(SimulatedId(), 0), |chunks|, chunks);
  }

  /** Later rows have longer keys, so no continuation row carries more than row one. */
  lemma ContinuationPayload(id: BlockHash, rowIndex: nat, chunks: seq<Chunk>)
    requires rowIndex > 0 && RowFits(FixedRowBytes(id, rowIndex), chunks)
    ensures Total(chunks) <= ContinuationCapacity(MAX_CHUNK_PROPERTY_COUNT)
  {
    var first := FixedRowBytes(SimulatedId(), 1);
    DecimalLengthGrows(1, rowIndex);
    PaddedLength(Decimal(1), CONTINUATION_ROW_SUFFIX_WIDTH);
    PaddedLength(Decimal(rowIndex), CONTINUATION_ROW_SUFFIX_WIDTH);
    FewChunks(FixedRowBytes(id, rowIndex), chunks);
    RowBytesShift(first, FixedRowBytes(id, rowIndex), chunks);
    FixedRowBytesBound(SimulatedId(), 1);
    assert Fits(first, MAX_CHUNK_PROPERTY_COUNT, chunks);
  }
}
