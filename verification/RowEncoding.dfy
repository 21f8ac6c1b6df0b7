/** Building the table entities of a block, and the limits every built entity respects. */
module RowEncoding {
  import opened Wrappers
  import opened Machine
  import opened Base64
  import opened BlockBasics
  import opened TableKeys
  import opened TableRows

  /** The chunk columns of a row, `chunk0`, `chunk1`, and so on. */
  function ChunkProperties(chunks: seq<Chunk>): map<string, string> {
    if chunks == [] then map[]
    else ChunkProperties(chunks[..|chunks| - 1])[ChunkName(|chunks| - 1) := Encode(chunks[|chunks| - 1])]
  }

  lemma {:induction false} ChunkPropertiesAre(chunks: seq<Chunk>)
    ensures |ChunkProperties(chunks)| == |chunks|
    ensures forall k :: k >= |chunks| ==> ChunkName(k) !in ChunkProperties(chunks)
    ensures forall k :: 0 <= k < |chunks| ==>
      ChunkName(k) in ChunkProperties(chunks) && ChunkProperties(chunks)[ChunkName(k)] == Encode(chunks[k])
  {
    if chunks != [] {
      var last := |chunks| - 1;
      var front := ChunkProperties(chunks[..last]);
      ChunkPropertiesAre(chunks[..last]);
      assert ChunkName(last) !in front;
      forall k: nat | k != last
        ensures ChunkName(k) != ChunkName(last)
      {
        if ChunkName(k) == ChunkName(last) {
          ChunkNamesAreDistinct(k, last);
        }
      }
    }
  }

  // The size of an entity as the service counts it.

  /** Total size of the given columns, in any order. */
  ghost function PropertiesBytes(columns: map<string, string>): nat
    decreases |columns|
  {
    if columns == map[] then 0
    else
      var name :| name in columns;
      StringProperty(name, columns[name]) + PropertiesBytes(columns - {name})
  }

  lemma {:induction false} PropertiesBytesWithout(columns: map<string, string>, name: string)
    requires name in columns
    ensures PropertiesBytes(columns) == StringProperty(name, columns[name]) + PropertiesBytes(columns - {name})
    decreases |columns|
  {
    var first :| first in columns && PropertiesBytes(columns)
      == StringProperty(first, columns[first]) + PropertiesBytes(columns - {first});
    if first != name {
      PropertiesBytesWithout(columns - {first}, name);
      PropertiesBytesWithout(columns - {name}, first);
      assert columns - {first} - {name} == columns - {name} - {first};
    }
  }

  function OptionalBytes(name: string, column: Option<I32>): nat {
    if column.Some? then Utf16Bytes(name) + 4 else 0
  }

  function NamedColumnsBytes(row: Row): nat {
    StringProperty("PartitionKey", row.partitionKey) + StringProperty("RowKey", row.rowKey)
    + OptionalBytes("SchemaVersion", row.schemaVersion) + (if row.byteLen.Some? then Utf16Bytes("ByteLen") + 8 else 0)
    + OptionalBytes("RowCount", row.rowCount) + OptionalBytes("RowIndex", row.rowIndex)
    + OptionalBytes("ChunkCount", row.chunkCount)
  }

  ghost function EntityBytes(row: Row): nat {
    NamedColumnsBytes(row) + PropertiesBytes(row.chunks)
  }

  /** Adds up the columns one by one, whatever their order in the map. */
  method EncodedPropertyBytes(row: Row) returns (total: nat)
    ensures total == EntityBytes(row)
  {
    total := NamedColumnsBytes(row);
    var remaining := row.chunks;
    while remaining != map[]
      invariant total + PropertiesBytes(remaining) == EntityBytes(row)
      decreases |remaining|
    {
      var name :| name in remaining;
      PropertiesBytesWithout(remaining, name);
      total := total + StringProperty(name, remaining[name]);
      remaining := remaining - {name};
    }
  }

  // One entity.

  /** The row is the entity of these chunks: keys, metadata columns and chunk columns all agree. */
  ghost predicate Describes(row: Row, id: BlockHash, totalLength: nat, rowCount: nat, rowIndex: nat,
                            chunks: seq<Chunk>)
  {
    && row.partitionKey == PartitionKey(id)
    && row.rowKey == RowKey(id, rowIndex)
    && row.schemaVersion == Some(SCHEMA_VERSION)
    && row.byteLen.Some? && row.byteLen.value == totalLength
    && row.rowCount.Some? && row.rowCount.value == rowCount
    && row.rowIndex.Some? && row.rowIndex.value == rowIndex
    && row.chunkCount.Some? && row.chunkCount.value == |chunks|
    && row.chunks == ChunkProperties(chunks)
  }

  predicate EveryChunkFitsColumn(chunks: seq<Chunk>) {
    forall k :: 0 <= k < |chunks| ==> |Encode(chunks[k])| <= MAX_STRING_PROPERTY_CHARS
  }

  ghost function RowOf(id: BlockHash, totalLength: nat, rowCount: nat, rowIndex: nat, chunks: seq<Chunk>)
    : Result<Row, PutError>
  {
    if !EveryChunkFitsColumn(chunks) then Err(ChunkTooLong)
    else if totalLength > I64_MAX then Err(LengthOverflow)
    else if rowCount > I32_MAX then Err(TooManyRows)
    else if rowIndex > I32_MAX then Err(RowIndexOverflow)
    else if |ChunkProperties(chunks)| > I32_MAX then Err(TooManyChunks)
    else
      var columns := ChunkProperties(chunks);
      var row := Row(PartitionKey(id), RowKey(id, rowIndex), Some(SCHEMA_VERSION), Some(totalLength), Some(rowCount),
                     Some(rowIndex), Some(|columns|), columns);
      if |row.chunks| + FIXED_ROW_PROPERTY_COUNT > MAX_PROPERTY_COUNT then Err(TooManyProperties)
      else if EntityBytes(row) > MAX_ROW_PROPERTY_BYTES then Err(RowTooLarge)
      else Ok(row)
  }

  method FromRowChunks(id: BlockHash, totalLength: nat, rowCount: nat, rowIndex: nat, chunks: seq<Chunk>)
    returns (row: Result<Row, PutError>)
    ensures row == RowOf(id, totalLength, rowCount, rowIndex, chunks)
  {
    var columns: map<string, string> := map[];
    for index := 0 to |chunks|
      invariant columns == ChunkProperties(chunks[..index])
      invariant EveryChunkFitsColumn(chunks[..index])
    {
      var encoded := Encode(chunks[index]);
      if |encoded| > MAX_STRING_PROPERTY_CHARS {
        return Err(ChunkTooLong);
      }
      assert chunks[..index + 1][..index] == chunks[..index];
      columns := columns[ChunkName(index) := encoded];
    }
    assert chunks[..|chunks|] == chunks;
    if totalLength > I64_MAX {
      return Err(LengthOverflow);
    }
    if rowCount > I32_MAX {
      return Err(TooManyRows);
    }
    if rowIndex > I32_MAX {
      return Err(RowIndexOverflow);
    }
    if |columns| > I32_MAX {
      return Err(TooManyChunks);
    }
    var entity := Row(PartitionKey(id), RowKey(id, rowIndex), Some(SCHEMA_VERSION), Some(totalLength),
                      Some(rowCount), Some(rowIndex), Some(|columns|), columns);
    if |columns| + FIXED_ROW_PROPERTY_COUNT > MAX_PROPERTY_COUNT {
      return Err(TooManyProperties);
    }
    var propertyBytes := EncodedPropertyBytes(entity);
    if propertyBytes > MAX_ROW_PROPERTY_BYTES {
      return Err(RowTooLarge);
    }
    return Ok(entity);
  }

  // All entities of a block.

  ghost function RowResults(id: BlockHash, totalLength: nat, packed: seq<seq<Chunk>>)
    : (results: seq<Result<Row, PutError>>)
    ensures |results| == |packed|
  {
    seq(|packed|, RowResultAt(id, totalLength, packed))
  }

  ghost function RowResultAt(id: BlockHash, totalLength: nat, packed: seq<seq<Chunk>>)
    : nat -> Result<Row, PutError>
  {
    (k: nat) => if k < |packed| then RowOf(id, totalLength, |packed|, k, packed[k]) else Err(TooManyRows)
  }

  ghost function EncodeRows(id: BlockHash, bytes: seq<Byte>): Result<seq<Row>, PutError> {
    Collect(RowResults(id, |bytes|, PackedRows(id, bytes)))
  }

  /** The size the packing kept track of is the size of the entity that is built. */
  lemma {:induction false} PackedSizeIsEntitySize(fixed: nat, chunks: seq<Chunk>)
    ensures fixed + PropertiesBytes(ChunkProperties(chunks)) == RowBytes(fixed, chunks)
  {
    if chunks != [] {
      var last := |chunks| - 1;
      var front := ChunkProperties(chunks[..last]);
      PackedSizeIsEntitySize(fixed, chunks[..last]);
      ChunkPropertiesAre(chunks[..last]);
      assert ChunkName(last) !in front;
      var columns := ChunkProperties(chunks);
      PropertiesBytesWithout(columns, ChunkName(last));
      assert columns - {ChunkName(last)} == front;
      EncodedLengthIsExact(chunks[last]);
    }
  }

  lemma RowOfFits(id: BlockHash, totalLength: nat, rowCount: nat, rowIndex: nat, chunks: seq<Chunk>)
    requires RowFits(FixedRowBytes(id, rowIndex), chunks)
    requires totalLength <= I64_MAX && rowCount <= I32_MAX && rowIndex <= I32_MAX
    ensures RowOf(id, totalLength, rowCount, rowIndex, chunks).Ok?
    ensures Describes(RowOf(id, totalLength, rowCount, rowIndex, chunks).value, id, totalLength, rowCount, rowIndex,
                      chunks)
  {
    forall k | 0 <= k < |chunks|
      ensures |Encode(chunks[k])| <= MAX_STRING_PROPERTY_CHARS
    {
      EncodedLengthIsExact(chunks[k]);
      FullChunkEncoding(|chunks[k]|);
    }
    ChunkPropertiesAre(chunks);
    FewChunks(FixedRowBytes(id, rowIndex), chunks);
    PackedSizeIsEntitySize(FixedRowBytes(id, rowIndex), chunks);
  }

  /** The packing of a whole block: in order, within limits, and never more rows than chunks. */
  lemma BlockIsPackedWell(id: BlockHash, bytes: seq<Byte>)
    requires |bytes| <= I64_MAX
    ensures bytes == [] ==> PackedRows(id, bytes) == [[]]
    ensures bytes != [] ==> PackedWell(FixedBytesOf(id), 0, Chunks(bytes), PackedRows(id, bytes))
    ensures |PackedRows(id, bytes)| <= |bytes| + 1
  {
    ChunksAreFull(bytes);
    var chunks := Chunks(bytes);
    if bytes != [] {
      assert [] + chunks == chunks;
      FixedBytesAreSmall(id);
      PackFits(FixedBytesOf(id), 0, [], chunks);
    }
  }

  /** A packed row becomes an entity unless there are too many rows to count. */
  lemma PackedRowEncodes(id: BlockHash, bytes: seq<Byte>, k: nat)
    requires |bytes| <= I64_MAX && k < |PackedRows(id, bytes)| <= I32_MAX
    ensures var packed := PackedRows(id, bytes);
      var row := RowOf(id, |bytes|, |packed|, k, packed[k]);
      row.Ok? && Describes(row.value, id, |bytes|, |packed|, k, packed[k])
  {
    BlockIsPackedWell(id, bytes);
    var packed := PackedRows(id, bytes);
    if bytes == [] {
      FixedRowBytesBound(id, 0);
    } else {
      RowFitsAt(FixedBytesOf(id), Chunks(bytes), packed, k);
    }
    RowOfFits(id, |bytes|, |packed|, k, packed[k]);
  }

  lemma TooManyRowsFail(id: BlockHash, bytes: seq<Byte>)
    requires |bytes| <= I64_MAX && |PackedRows(id, bytes)| > I32_MAX
    ensures EncodeRows(id, bytes) == Err(TooManyRows)
  {
    BlockIsPackedWell(id, bytes);
    var packed := PackedRows(id, bytes);
    RowFitsAt(FixedBytesOf(id), Chunks(bytes), packed, 0);
    RowOfFits(id, |bytes|, 1, 0, packed[0]);
    CollectError(RowResults(id, |bytes|, packed), 0);
  }

  /**
   Encoding succeeds exactly when the number of rows fits the row-count column, and then row `k` holds
   the `k`th group of chunks.
   */
  lemma EncodingSucceeds(id: BlockHash, bytes: seq<Byte>)
    requires |bytes| <= I64_MAX
    ensures EncodeRows(id, bytes).Ok? <==> |PackedRows(id, bytes)| <= I32_MAX
    ensures EncodeRows(id, bytes).Err? ==> EncodeRows(id, bytes) == Err(TooManyRows)
    ensures EncodeRows(id, bytes).Ok? ==>
      var packed, rows := PackedRows(id, bytes), EncodeRows(id, bytes).value;
      && |rows| == |packed|
      && forall k :: 0 <= k < |rows| ==> Describes(rows[k], id, |bytes|, |rows|, k, packed[k])
  {
    var packed := PackedRows(id, bytes);
    if |packed| <= I32_MAX {
      var results := RowResults(id, |bytes|, packed);
      forall k | 0 <= k < |packed|
        ensures results[k].Ok? && Describes(results[k].value, id, |bytes|, |packed|, k, packed[k])
      {
        PackedRowEncodes(id, bytes, k);
      }
      CollectValues(results);
    } else {
      TooManyRowsFail(id, bytes);
    }
  }

  /** Every row of an encoded block meets the property-count and byte limits. */
  lemma EncodedRowsMeetLimits(id: BlockHash, bytes: seq<Byte>, k: nat)
    requires |bytes| <= I64_MAX && EncodeRows(id, bytes).Ok? && k < |EncodeRows(id, bytes).value|
    ensures var row := EncodeRows(id, bytes).value[k];
      && |row.chunks| + FIXED_ROW_PROPERTY_COUNT <= MAX_PROPERTY_COUNT
      && EntityBytes(row) <= MAX_ROW_PROPERTY_BYTES
      && forall name :: name in row.chunks ==> |row.chunks[name]| <= MAX_STRING_PROPERTY_CHARS
  {
    EncodingSucceeds(id, bytes);
    PackedRowEncodes(id, bytes, k);
    ColumnsAreShort(PackedRows(id, bytes)[k]);
  }

  lemma {:induction false} ColumnsAreShort(chunks: seq<Chunk>)
    requires EveryChunkFitsColumn(chunks)
    ensures forall name :: name in ChunkProperties(chunks) ==>
      |ChunkProperties(chunks)[name]| <= MAX_STRING_PROPERTY_CHARS
  {
    if chunks != [] {
      ColumnsAreShort(chunks[..|chunks| - 1]);
    }
  }

  /** The loop that closes a row when the next chunk does not fit computes the greedy packing. */
  method RowsFromBlockBytes(id: BlockHash, bytes: seq<Byte>) returns (result: Result<seq<Row>, PutError>)
    requires |bytes| <= I64_MAX
    ensures result == EncodeRows(id, bytes)
  {
    var chunkRows := PackChunks(id, bytes);
    result := EntitiesOf(id, |bytes|, chunkRows);
  }

  method EntitiesOf(id: BlockHash, totalLength: nat, chunkRows: seq<seq<Chunk>>)
    returns (result: Result<seq<Row>, PutError>)
    ensures result == Collect(RowResults(id, totalLength, chunkRows))
  {
    var rows: seq<Row> := [];
    ghost var results := RowResults(id, totalLength, chunkRows);
    for rowIndex := 0 to |chunkRows|
      invariant |rows| == rowIndex
      invariant forall k :: 0 <= k < rowIndex ==> results[k] == Ok(rows[k])
    {
      var row := FromRowChunks(id, totalLength, |chunkRows|, rowIndex, chunkRows[rowIndex]);
      assert results[rowIndex] == row;
      if row.Err? {
        CollectError(results, rowIndex);
        return Err(row.error);
      }
      rows := rows + [row.value];
    }
    CollectValues(results);
    assert rows == Collect(results).value;
    return Ok(rows);
  }

  /** State of the packing loop: what is packed so far, continued greedily, is the packing of all chunks. */
  ghost predicate Packing(fixed: nat -> nat, goal: seq<seq<Chunk>>, closed: seq<seq<Chunk>>, current: seq<Chunk>,
                          currentBytes: nat, rest: seq<Chunk>)
  {
    && currentBytes == RowBytes(fixed(|closed|), current)
    && (current == [] ==> closed == [])
    && closed + Pack(fixed, |closed|, current, rest) == goal
  }

  lemma PackExtends(fixed: nat -> nat, goal: seq<seq<Chunk>>, closed: seq<seq<Chunk>>, current: seq<Chunk>,
                    currentBytes: nat, rest: seq<Chunk>)
    requires rest != [] && Packing(fixed, goal, closed, current, currentBytes, rest)
    requires TryExtend(currentBytes, |current|, |rest[0]|).Some?
    ensures Packing(fixed, goal, closed, current + [rest[0]], TryExtend(currentBytes, |current|, |rest[0]|).value,
                    rest[1..])
  {
    RowBytesExtend(fixed(|closed|), current, rest[0]);
  }

  /** The next chunk does not fit: the row is closed and the chunk starts a row of its own. */
  lemma PackCloses(fixed: nat -> nat, goal: seq<seq<Chunk>>, closed: seq<seq<Chunk>>, current: seq<Chunk>,
                   currentBytes: nat, rest: seq<Chunk>)
    requires rest != [] && Packing(fixed, goal, closed, current, currentBytes, rest)
    requires SmallFixedBytes(fixed) && |closed| < I64_MAX && |rest[0]| <= RAW_CHUNK_SIZE
    requires TryExtend(currentBytes, |current|, |rest[0]|).None?
    ensures current != []
    ensures TryExtend(fixed(|closed| + 1), 0, |rest[0]|).Some?
    ensures Packing(fixed, goal, closed + [current], [rest[0]], TryExtend(fixed(|closed| + 1), 0, |rest[0]|).value,
                    rest[1..])
  {
    FreshRowBytes(fixed, |closed|, rest[0]);
    FreshRowBytes(fixed, |closed| + 1, rest[0]);
    var more := Pack(fixed, |closed| + 1, [rest[0]], rest[1..]);
    assert closed + ([current] + more) == (closed + [current]) + more;
  }

  lemma FreshRowBytes(fixed: nat -> nat, rowIndex: nat, chunk: Chunk)
    requires SmallFixedBytes(fixed) && rowIndex <= I64_MAX && |chunk| <= RAW_CHUNK_SIZE
    ensures TryExtend(fixed(rowIndex), 0, |chunk|) == Some(RowBytes(fixed(rowIndex), [chunk]))
  {
    FreshRowTakesChunk(fixed, rowIndex, |chunk|);
    RowBytesExtend(fixed(rowIndex), [], chunk);
    assert [] + [chunk] == [chunk];
  }

  method PackChunks(id: BlockHash, bytes: seq<Byte>) returns (chunkRows: seq<seq<Chunk>>)
    requires |bytes| <= I64_MAX
    ensures chunkRows == PackedRows(id, bytes)
  {
    ChunksAreFull(bytes);
    FixedBytesAreSmall(id);
    chunkRows := PackGreedily(FixedBytesOf(id), Chunks(bytes));
  }

  method PackGreedily(fixed: nat -> nat, chunks: seq<Chunk>) returns (chunkRows: seq<seq<Chunk>>)
    requires SmallFixedBytes(fixed) && |chunks| <= I64_MAX
    requires forall k :: 0 <= k < |chunks| ==> |chunks[k]| <= RAW_CHUNK_SIZE
    ensures chunkRows == Pack(fixed, 0, [], chunks)
  {
    chunkRows := [];
    var currentRow: seq<Chunk> := [];
    var currentBytes := fixed(0);
    ghost var goal := Pack(fixed, 0, [], chunks);
    assert [] + goal == goal;
    assert chunks[0..] == chunks;
    for next := 0 to |chunks|
      invariant |chunkRows| <= next
      invariant Packing(fixed, goal, chunkRows, currentRow, currentBytes, chunks[next..])
    {
      var chunk := chunks[next];
      ghost var rest := chunks[next..];
      assert rest[0] == chunk && rest[1..] == chunks[next + 1..];
      var extended := TryExtend(currentBytes, |currentRow|, |chunk|);
      if extended.Some? {
        PackExtends(fixed, goal, chunkRows, currentRow, currentBytes, rest);
        currentRow := currentRow + [chunk];
        currentBytes := extended.value;
      } else {
        PackCloses(fixed, goal, chunkRows, currentRow, currentBytes, rest);
        if currentRow == [] {
          assert false;
        }
        chunkRows := chunkRows + [currentRow];
        currentRow := [chunk];
        var started := TryExtend(fixed(|chunkRows|), 0, |chunk|);
        currentBytes := started.value;
      }
    }
    chunkRows := chunkRows + [currentRow];
  }
}
