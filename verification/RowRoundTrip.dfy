/** Every block that can be stored is accepted and read back exactly. */
module RowRoundTrip {
  import opened Wrappers
  import opened Machine
  import opened Base64
  import opened BlockBasics
  import opened TableKeys
  import opened TableRows
  import opened RowEncoding
  import opened RowCapacity
  import opened RowDecoding

  // One row.

  lemma {:induction false} ChunkColumnsDecode(chunks: seq<Chunk>, from: nat)
    requires from <= |chunks|
    requires forall k :: 0 <= k < |chunks| ==> ChunkName(k) in ChunkProperties(chunks)
    ensures ChunkBytesFrom(ChunkProperties(chunks), from, |chunks|) == Ok(Flatten(chunks[from..]))
    decreases |chunks| - from
  {
    if from < |chunks| {
      ChunkPropertiesAre(chunks);
      RoundTrip(chunks[from]);
      ChunkColumnsDecode(chunks, from + 1);
      assert chunks[from..][1..] == chunks[from + 1..];
    }
  }

  lemma DescribedRowDecodes(row: Row, id: BlockHash, expected: Metadata, rowIndex: nat, chunks: seq<Chunk>)
    requires Describes(row, id, expected.totalLength, expected.rowCount, rowIndex, chunks)
    requires |chunks| <= MAX_CHUNK_PROPERTY_COUNT
    requires expected.totalLength == 0 <==> chunks == []
    ensures DecodedRow(id, row, rowIndex, expected) == Ok(Flatten(chunks))
  {
    ChunkPropertiesAre(chunks);
    assert chunks[0..] == chunks;
    ChunkColumnsDecode(chunks, 0);
    assert RowMetadata(row, rowIndex, expected) == Ok(|chunks|);
  }

  // All rows.

  function FlattenEach<T>(rows: seq<seq<seq<T>>>): (parts: seq<seq<T>>)
    ensures |parts| == |rows|
    ensures forall k :: 0 <= k < |rows| ==> parts[k] == Flatten(rows[k])
  {
    seq(|rows|, k requires 0 <= k < |rows| => Flatten(rows[k]))
  }

  lemma {:induction false} FlattenTwice<T>(rows: seq<seq<seq<T>>>)
    ensures Flatten(FlattenEach(rows)) == Flatten(Flatten(rows))
  {
    if rows != [] {
      FlattenTwice(rows[1..]);
      assert FlattenEach(rows)[1..] == FlattenEach(rows[1..]);
      FlattenConcatenates(rows[0], Flatten(rows[1..]));
    }
  }

  /** Flattening the packed rows twice gives the block's bytes back. */
  lemma PackedRowsAreTheBytes(id: BlockHash, bytes: seq<Byte>)
    requires |bytes| <= I64_MAX
    ensures Flatten(FlattenEach(PackedRows(id, bytes))) == bytes
  {
    BlockIsPackedWell(id, bytes);
    var packed := PackedRows(id, bytes);
    FlattenTwice(packed);
    ChunksAreTheBytes(bytes);
    if bytes == [] {
      assert packed[1..] == [];
      assert Flatten(packed) == packed[0];
    }
  }

  // The root row's capacity check.

  lemma {:induction false} TotalIsFlattenedLength(chunks: seq<Chunk>)
    ensures |Flatten(chunks)| == Total(chunks)
  {
    if chunks != [] {
      var front, last := chunks[..|chunks| - 1], chunks[|chunks| - 1];
      TotalIsFlattenedLength(front);
      assert chunks == front + [last];
      FlattenExtends(front, last);
    }
  }

  lemma TimesStep(count: nat, capacity: nat)
    requires count > 0
    ensures count * capacity == (count - 1) * capacity + capacity
  {}

  lemma {:induction false} PartsAreBounded(parts: seq<seq<Byte>>, capacity: nat)
    requires forall k :: 0 <= k < |parts| ==> |parts[k]| <= capacity
    ensures |Flatten(parts)| <= |parts| * capacity
  {
    if parts != [] {
      PartsAreBounded(parts[1..], capacity);
      TimesStep(|parts|, capacity);
    }
  }

  /** Greedy packing never makes more rows than the chunk size allows. */
  lemma RowCountIsPossible(id: BlockHash, bytes: seq<Byte>)
    requires |bytes| <= I64_MAX
    ensures |PackedRows(id, bytes)| <= MaximumPossibleRows(|bytes|)
  {
    BlockIsPackedWell(id, bytes);
    ChunksAreFull(bytes);
  }

  lemma PackedPartIsBounded(id: BlockHash, bytes: seq<Byte>, k: nat)
    requires |bytes| <= I64_MAX && k < |PackedRows(id, bytes)|
    ensures var chunks := PackedRows(id, bytes)[k];
      |Flatten(chunks)| <= if k == 0 then RootCapacity(|chunks|) else ContinuationCapacity(MAX_CHUNK_PROPERTY_COUNT)
  {
    BlockIsPackedWell(id, bytes);
    TotalIsFlattenedLength(PackedRows(id, bytes)[k]);
    if bytes != [] {
      RowFitsAt(FixedBytesOf(id), Chunks(bytes), PackedRows(id, bytes), k);
      if k == 0 {
        RootPayload(id, PackedRows(id, bytes)[k]);
      } else {
        ContinuationPayload(id, k, PackedRows(id, bytes)[k]);
      }
    }
  }

  lemma FirstAndRestAreBounded(parts: seq<seq<Byte>>, first: nat, rest: nat)
    requires parts != [] && |parts[0]| <= first
    requires forall k :: 0 < k < |parts| ==> |parts[k]| <= rest
    ensures |Flatten(parts)| <= first + (|parts| - 1) * rest
  {
    PartsAreBounded(parts[1..], rest);
  }

  lemma BlockIsWithinCapacity(id: BlockHash, bytes: seq<Byte>)
    requires |bytes| <= I64_MAX
    ensures var packed := PackedRows(id, bytes);
      |bytes| <= RootCapacity(|packed[0]|) + (|packed| - 1) * ContinuationCapacity(MAX_CHUNK_PROPERTY_COUNT)
  {
    var packed := PackedRows(id, bytes);
    var parts := FlattenEach(packed);
    var root, continuation := RootCapacity(|packed[0]|), ContinuationCapacity(MAX_CHUNK_PROPERTY_COUNT);
    forall k: nat | k < |parts|
      ensures |parts[k]| <= if k == 0 then root else continuation
    {
      PackedPartIsBounded(id, bytes, k);
    }
    FirstAndRestAreBounded(parts, root, continuation);
    PackedRowsAreTheBytes(id, bytes);
  }

  lemma ProductIsBounded(a: nat, b: nat, high: nat, top: nat)
    requires a <= high && b <= top
    ensures a * b <= high * top
  {
    assert a * b <= a * top && a * top <= high * top;
  }

  lemma CapacityDoesNotOverflow(rowCount: nat, chunkCount: nat)
    requires 0 < rowCount <= I32_MAX && chunkCount <= MAX_CHUNK_PROPERTY_COUNT
    ensures RootCapacity(chunkCount) + (rowCount - 1) * ContinuationCapacity(MAX_CHUNK_PROPERTY_COUNT) <= USIZE_MAX
  {
    FixedRowBytesBound(SimulatedId(), 0);
    FixedRowBytesBound(SimulatedId(), 1);
    ProductIsBounded(rowCount - 1, ContinuationCapacity(MAX_CHUNK_PROPERTY_COUNT), I32_MAX, 248 * 24_576);
  }

  lemma DescribedRootPasses(row: Row, id: BlockHash, totalLength: nat, rowCount: nat, chunks: seq<Chunk>)
    requires Describes(row, id, totalLength, rowCount, 0, chunks)
    requires 0 < rowCount <= MaximumPossibleRows(totalLength) && |chunks| <= MAX_CHUNK_PROPERTY_COUNT
    requires totalLength == 0 <==> chunks == []
    ensures RootColumns(id, row) == Ok(Columns(totalLength, rowCount, 0, |chunks|))
  {}

  lemma CapacityCheckPasses(c: Columns, root: nat, continuation: nat)
    requires c.rowCount > 0 && c.totalLength <= root + (c.rowCount - 1) * continuation <= USIZE_MAX
    ensures CheckCapacity(c, root, continuation) == Ok(Metadata(c.totalLength, c.rowCount))
  {}

  lemma CapacityIsEnough(id: BlockHash, bytes: seq<Byte>)
    requires |bytes| <= I64_MAX && |PackedRows(id, bytes)| <= I32_MAX
    ensures var packed := PackedRows(id, bytes);
      CheckCapacity(Columns(|bytes|, |packed|, 0, |packed[0]|), RootCapacity(|packed[0]|),
                    ContinuationCapacity(MAX_CHUNK_PROPERTY_COUNT)) == Ok(Metadata(|bytes|, |packed|))
  {
    var rowCount, chunkCount := |PackedRows(id, bytes)|, |PackedRows(id, bytes)[0]|;
    PackedRowIsSmall(id, bytes, 0);
    CapacityDoesNotOverflow(rowCount, chunkCount);
    BlockIsWithinCapacity(id, bytes);
    CapacityCheckPasses(Columns(|bytes|, rowCount, 0, chunkCount), RootCapacity(chunkCount),
                        ContinuationCapacity(MAX_CHUNK_PROPERTY_COUNT));
  }

  /** Every encoded root row passes the metadata checks, the capacity check included. */
  lemma EncodedRootIsAccepted(id: BlockHash, bytes: seq<Byte>)
    requires |bytes| <= I64_MAX && EncodeRows(id, bytes).Ok?
    ensures var rows := EncodeRows(id, bytes).value;
      |rows| > 0 && RootMetadata(id, rows[0]) == Ok(Metadata(|bytes|, |rows|))
  {
    EncodingSucceeds(id, bytes);
    RowCountIsPossible(id, bytes);
    PackedRowIsSmall(id, bytes, 0);
    CapacityIsEnough(id, bytes);
    var rows, packed := EncodeRows(id, bytes).value, PackedRows(id, bytes);
    DescribedRootPasses(rows[0], id, |bytes|, |packed|, packed[0]);
  }

  lemma PackedRowIsSmall(id: BlockHash, bytes: seq<Byte>, k: nat)
    requires |bytes| <= I64_MAX && k < |PackedRows(id, bytes)|
    ensures |PackedRows(id, bytes)[k]| <= MAX_CHUNK_PROPERTY_COUNT
    ensures bytes == [] <==> PackedRows(id, bytes)[k] == []
  {
    BlockIsPackedWell(id, bytes);
    if bytes != [] {
      RowFitsAt(FixedBytesOf(id), Chunks(bytes), PackedRows(id, bytes), k);
      FewChunks(FixedRowBytes(id, k), PackedRows(id, bytes)[k]);
    }
  }

  lemma EncodedRowDecodes(id: BlockHash, bytes: seq<Byte>, k: nat)
    requires |bytes| <= I64_MAX && EncodeRows(id, bytes).Ok? && k < |EncodeRows(id, bytes).value|
    ensures |EncodeRows(id, bytes).value| == |PackedRows(id, bytes)|
    ensures var rows := EncodeRows(id, bytes).value;
      DecodedRow(id, rows[k], k, Metadata(|bytes|, |rows|)) == Ok(Flatten(PackedRows(id, bytes)[k]))
  {
    EncodingSucceeds(id, bytes);
    PackedRowIsSmall(id, bytes, k);
    var rows := EncodeRows(id, bytes).value;
    DescribedRowDecodes(rows[k], id, Metadata(|bytes|, |rows|), k, PackedRows(id, bytes)[k]);
  }

  lemma AllRowsDecode(id: BlockHash, bytes: seq<Byte>)
    requires |bytes| <= I64_MAX && EncodeRows(id, bytes).Ok?
    ensures var rows := EncodeRows(id, bytes).value;
      Collect(DecodedRows(id, rows, Metadata(|bytes|, |rows|))) == Ok(FlattenEach(PackedRows(id, bytes)))
  {
    var rows, packed := EncodeRows(id, bytes).value, PackedRows(id, bytes);
    EncodingSucceeds(id, bytes);
    var results := DecodedRows(id, rows, Metadata(|bytes|, |rows|));
    forall k | 0 <= k < |rows|
      ensures results[k] == Ok(Flatten(packed[k]))
    {
      EncodedRowDecodes(id, bytes, k);
    }
    CollectValues(results);
    assert Collect(results).value == FlattenEach(packed);
  }

  /** What is stored is what is read: decoding the rows of a block gives exactly its bytes. */
  lemma BlockRoundTrip(id: BlockHash, bytes: seq<Byte>)
    requires |bytes| <= I64_MAX && EncodeRows(id, bytes).Ok?
    ensures DecodedBlock(id, EncodeRows(id, bytes).value) == Ok(bytes)
  {
    EncodedRootIsAccepted(id, bytes);
    AllRowsDecode(id, bytes);
    PackedRowsAreTheBytes(id, bytes);
  }
}
