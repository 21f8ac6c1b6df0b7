/** Reading a block back from its rows: metadata checks, chunk columns, and the round trip. */
module RowDecoding {
  import opened Wrappers
  import opened Machine
  import opened Base64
  import opened BlockBasics
  import opened TableKeys
  import opened TableRows
  import opened RowCapacity

  datatype DecodeError =
    | NoRows
    | UnexpectedKeys
    | MissingColumn
    | NegativeColumn
    | UnsupportedSchema
    | NoRowCount
    | UnexpectedRowIndex
    | TooManyDeclaredChunks
    | EmptyBlockWithChunks
    | BlockWithoutChunks
    | TooManyDeclaredRows
    | CapacityOverflow
    | LengthBeyondCapacity
    | LengthDisagrees
    | RowCountDisagrees
    | MissingChunk
    | InvalidBase64

  datatype Metadata = Metadata(totalLength: nat, rowCount: nat)

  function Column(column: Option<int>): Result<nat, DecodeError> {
    match column
    case None => Err(MissingColumn)
    case Some(n) => if n < 0 then Err(NegativeColumn) else Ok(n)
  }

  predicate HasIdentity(row: Row, id: BlockHash, rowIndex: nat) {
    row.partitionKey == PartitionKey(id) && row.rowKey == RowKey(id, rowIndex)
  }

  function MaximumPossibleRows(totalLength: nat): nat {
    if totalLength == 0 then 1 else (totalLength + RAW_CHUNK_SIZE - 1) / RAW_CHUNK_SIZE
  }

  /** The four numbers of a row, read in the order length, row count, row index, chunk count. */
  datatype Columns = Columns(totalLength: nat, rowCount: nat, rowIndex: nat, chunkCount: nat)

  function ReadColumns(row: Row): Result<Columns, DecodeError> {
    var totalLength :- Column(row.byteLen);
    var rowCount :- Column(row.rowCount);
    var rowIndex :- Column(row.rowIndex);
    var chunkCount :- Column(row.chunkCount);
    Ok(Columns(totalLength, rowCount, rowIndex, chunkCount))
  }

  /** The checks of a root row that need no capacity table. */
  function RootColumns(id: BlockHash, row: Row): (r: Result<Columns, DecodeError>)
    ensures r.Ok? ==> r.value.rowCount > 0 && r.value.chunkCount <= MAX_CHUNK_PROPERTY_COUNT
  {
    if !HasIdentity(row, id, 0) then Err(UnexpectedKeys)
    else
      match ReadColumns(row)
      case Err(error) => Err(error)
      case Ok(c) =>
        if row.schemaVersion.None? then Err(MissingColumn)
        else if row.schemaVersion.value != SCHEMA_VERSION then Err(UnsupportedSchema)
        else if c.rowCount == 0 then Err(NoRowCount)
        else if c.rowIndex != 0 then Err(UnexpectedRowIndex)
        else if c.chunkCount > MAX_CHUNK_PROPERTY_COUNT then Err(TooManyDeclaredChunks)
        else if c.totalLength == 0 && (c.rowCount != 1 || c.chunkCount != 0) then Err(EmptyBlockWithChunks)
        else if c.totalLength != 0 && c.chunkCount == 0 then Err(BlockWithoutChunks)
        else if c.rowCount > MaximumPossibleRows(c.totalLength) then Err(TooManyDeclaredRows)
        else Ok(c)
  }

  /** The length must fit the root row and as many continuation rows as declared. */
  function CheckCapacity(c: Columns, rootCapacity: nat, continuationCapacity: nat): Result<Metadata, DecodeError>
    requires c.rowCount > 0
  {
    match CheckedMul(c.rowCount - 1, continuationCapacity)
    case None => Err(CapacityOverflow)
    case Some(continuations) =>
      match CheckedAdd(rootCapacity, continuations)
      case None => Err(CapacityOverflow)
      case Some(maximum) =>
        if c.totalLength > maximum then Err(LengthBeyondCapacity) else Ok(Metadata(c.totalLength, c.rowCount))
  }

  ghost function RootMetadata(id: BlockHash, row: Row): Result<Metadata, DecodeError> {
    match RootColumns(id, row)
    case Err(error) => Err(error)
    case Ok(c) => CheckCapacity(c, RootCapacity(c.chunkCount), ContinuationCapacity(MAX_CHUNK_PROPERTY_COUNT))
  }

  method DecodeRootMetadata(id: BlockHash, row: Row) returns (result: Result<Metadata, DecodeError>)
    ensures result == RootMetadata(id, row)
    ensures result.Ok? ==> result.value.rowCount > 0
  {
    var columns := RootColumns(id, row);
    if columns.Err? {
      return Err(columns.error);
    }
    result := CompareWithCapacity(columns.value);
  }

  method CompareWithCapacity(c: Columns) returns (result: Result<Metadata, DecodeError>)
    requires c.rowCount > 0
    ensures result
         == CheckCapacity(c, RootCapacity(c.chunkCount), ContinuationCapacity(MAX_CHUNK_PROPERTY_COUNT))
    ensures result.Ok? ==> result.value.rowCount > 0
  {
    var rootCapacity := SimulatedRowCapacityBytes(0, c.chunkCount);
    var continuationCapacity := SimulatedRowCapacityBytes(1, MAX_CHUNK_PROPERTY_COUNT);
    RootCapacityIs(c.chunkCount, rootCapacity);
    ContinuationCapacityIs(MAX_CHUNK_PROPERTY_COUNT, continuationCapacity);
    return CheckCapacity(c, rootCapacity, continuationCapacity);
  }

  /** The checks of one row of the set; returns its number of chunks. */
  function RowMetadata(row: Row, rowIndex: nat, expected: Metadata): Result<nat, DecodeError> {
    if row.schemaVersion.None? then Err(MissingColumn)
    else if row.schemaVersion.value != SCHEMA_VERSION then Err(UnsupportedSchema)
    else
      var totalLength :- Column(row.byteLen);
      if totalLength != expected.totalLength then Err(LengthDisagrees)
      else
        var rowCount :- Column(row.rowCount);
        if rowCount != expected.rowCount then Err(RowCountDisagrees)
        else
          var index :- Column(row.rowIndex);
          if index != rowIndex then Err(UnexpectedRowIndex) else ChunkCountColumn(row, expected)
  }

  function ChunkCountColumn(row: Row, expected: Metadata): Result<nat, DecodeError> {
    match Column(row.chunkCount)
    case Err(error) => Err(error)
    case Ok(count) =>
      if count > MAX_CHUNK_PROPERTY_COUNT then Err(TooManyDeclaredChunks)
      else if expected.totalLength == 0 && count != 0 then Err(EmptyBlockWithChunks)
      else if expected.totalLength != 0 && count == 0 then Err(BlockWithoutChunks)
      else Ok(count)
  }

  predicate HasChunkColumns(columns: map<string, string>, count: nat) {
    |columns| >= count && forall k :: 0 <= k < count ==> ChunkName(k) in columns
  }

  /** The decoded bytes of the chunk columns from `from` on. */
  function ChunkBytesFrom(columns: map<string, string>, from: nat, count: nat): Result<seq<Byte>, DecodeError>
    requires from <= count && forall k :: 0 <= k < count ==> ChunkName(k) in columns
    decreases count - from
  {
    if from == count then Ok([])
    else
      match Decode(columns[ChunkName(from)])
      case None => Err(InvalidBase64)
      case Some(chunk) =>
        match ChunkBytesFrom(columns, from + 1, count)
        case Err(error) => Err(error)
        case Ok(rest) => Ok(chunk + rest)
  }

  function DecodedRow(id: BlockHash, row: Row, rowIndex: nat, expected: Metadata): Result<seq<Byte>, DecodeError> {
    if !HasIdentity(row, id, rowIndex) then Err(UnexpectedKeys)
    else
      match RowMetadata(row, rowIndex, expected)
      case Err(error) => Err(error)
      case Ok(count) =>
        if !HasChunkColumns(row.chunks, count) then Err(MissingChunk)
        else ChunkBytesFrom(row.chunks, 0, count)
  }

  function DecodedRowAt(id: BlockHash, rows: seq<Row>, expected: Metadata): nat -> Result<seq<Byte>, DecodeError> {
    (k: nat) => if k < |rows| then DecodedRow(id, rows[k], k, expected) else Err(NoRows)
  }

  function DecodedRows(id: BlockHash, rows: seq<Row>, expected: Metadata)
    : (parts: seq<Result<seq<Byte>, DecodeError>>)
    ensures |parts| == |rows|
  {
    seq(|rows|, DecodedRowAt(id, rows, expected))
  }

  ghost function DecodedBlock(id: BlockHash, rows: seq<Row>): Result<seq<Byte>, DecodeError> {
    if rows == [] then Err(NoRows)
    else
      match RootMetadata(id, rows[0])
      case Err(error) => Err(error)
      case Ok(metadata) =>
        if |rows| != metadata.rowCount then Err(RowCountDisagrees)
        else
          match Collect(DecodedRows(id, rows, metadata))
          case Err(error) => Err(error)
          case Ok(parts) =>
            if |Flatten(parts)| != metadata.totalLength then Err(LengthDisagrees) else Ok(Flatten(parts))
  }

  lemma FlattenExtends<T>(parts: seq<seq<T>>, part: seq<T>)
    ensures Flatten(parts + [part]) == Flatten(parts) + part
  {
    FlattenConcatenates(parts, [part]);
    assert [part][1..] == [];
  }

  lemma {:induction false} FlattenConcatenates<T>(a: seq<seq<T>>, b: seq<seq<T>>)
    ensures Flatten(a + b) == Flatten(a) + Flatten(b)
  {
    if a == [] {
      assert a + b == b;
    } else {
      FlattenConcatenates(a[1..], b);
      assert (a + b)[0] == a[0] && (a + b)[1..] == a[1..] + b;
      assert a[0] + (Flatten(a[1..]) + Flatten(b)) == (a[0] + Flatten(a[1..])) + Flatten(b);
    }
  }

  method ExtendDecodedRowBytes(columns: map<string, string>, count: nat, bytes: seq<Byte>)
    returns (result: Result<seq<Byte>, DecodeError>)
    ensures !HasChunkColumns(columns, count) ==> result == Err(MissingChunk)
    ensures HasChunkColumns(columns, count) ==>
      result == match ChunkBytesFrom(columns, 0, count) case Err(error) => Err(error) case Ok(more) => Ok(bytes + more)
  {
    if |columns| < count {
      return Err(MissingChunk);
    }
    for index := 0 to count
      invariant forall k :: 0 <= k < index ==> ChunkName(k) in columns
    {
      if ChunkName(index) !in columns {
        return Err(MissingChunk);
      }
    }
    var extended := bytes;
    for index := 0 to count
      invariant match ChunkBytesFrom(columns, index, count)
                case Err(error) => ChunkBytesFrom(columns, 0, count) == Err(error)
                case Ok(more) => ChunkBytesFrom(columns, 0, count).Ok?
                                 && bytes + ChunkBytesFrom(columns, 0, count).value == extended + more
    {
      var decoded := Decode(columns[ChunkName(index)]);
      if decoded.None? {
        return Err(InvalidBase64);
      }
      extended := extended + decoded.value;
    }
    assert extended + [] == extended;
    return Ok(extended);
  }

  /** Row by row, stopping at the first row that disagrees with the root. */
  method DecodeBlockBytes(id: BlockHash, rows: seq<Row>) returns (result: Result<seq<Byte>, DecodeError>)
    ensures result == DecodedBlock(id, rows)
  {
    if |rows| == 0 {
      return Err(NoRows);
    }
    var metadata := DecodeRootMetadata(id, rows[0]);
    if metadata.Err? {
      return Err(metadata.error);
    }
    if |rows| != metadata.value.rowCount {
      return Err(RowCountDisagrees);
    }
    var bytes := DecodeAllRows(id, rows, metadata.value);
    if bytes.Err? {
      return Err(bytes.error);
    }
    if |bytes.value| != metadata.value.totalLength {
      return Err(LengthDisagrees);
    }
    return bytes;
  }

  /** Checks one row and appends its bytes. */
  method DecodeOneRow(id: BlockHash, row: Row, rowIndex: nat, expected: Metadata, bytes: seq<Byte>)
    returns (result: Result<seq<Byte>, DecodeError>)
    ensures result == match DecodedRow(id, row, rowIndex, expected)
                      case Err(error) => Err(error)
                      case Ok(part) => Ok(bytes + part)
  {
    if !HasIdentity(row, id, rowIndex) {
      return Err(UnexpectedKeys);
    }
    var count := RowMetadata(row, rowIndex, expected);
    if count.Err? {
      return Err(count.error);
    }
    result := ExtendDecodedRowBytes(row.chunks, count.value, bytes);
  }

  /** The first rows decoded to `parts`, which make up `bytes`. */
  ghost predicate Decoding(results: seq<Result<seq<Byte>, DecodeError>>, parts: seq<seq<Byte>>, bytes: seq<Byte>) {
    && |parts| <= |results| && bytes == Flatten(parts)
    && forall k :: 0 <= k < |parts| ==> results[k] == Ok(parts[k])
  }

  lemma DecodingNext(results: seq<Result<seq<Byte>, DecodeError>>, parts: seq<seq<Byte>>, bytes: seq<Byte>,
                     part: seq<Byte>)
    requires Decoding(results, parts, bytes) && |parts| < |results| && results[|parts|] == Ok(part)
    ensures Decoding(results, parts + [part], bytes + part)
  {
    FlattenExtends(parts, part);
  }

  lemma DecodingStops(results: seq<Result<seq<Byte>, DecodeError>>, parts: seq<seq<Byte>>, bytes: seq<Byte>)
    requires Decoding(results, parts, bytes) && |parts| < |results| && results[|parts|].Err?
    ensures Collect(results) == Err(results[|parts|].error)
  {
    CollectError(results, |parts|);
  }

  lemma DecodingDone(results: seq<Result<seq<Byte>, DecodeError>>, parts: seq<seq<Byte>>, bytes: seq<Byte>)
    requires Decoding(results, parts, bytes) && |parts| == |results|
    ensures Collect(results) == Ok(parts) && bytes == Flatten(parts)
  {
    CollectValues(results);
    assert parts == Collect(results).value;
  }

  method DecodeAllRows(id: BlockHash, rows: seq<Row>, expected: Metadata)
    returns (result: Result<seq<Byte>, DecodeError>)
    ensures result == match Collect(DecodedRows(id, rows, expected))
                      case Err(error) => Err(error)
                      case Ok(parts) => Ok(Flatten(parts))
  {
    ghost var results := DecodedRows(id, rows, expected);
    ghost var parts: seq<seq<Byte>> := [];
    var bytes: seq<Byte> := [];
    for rowIndex := 0 to |rows|
      invariant |parts| == rowIndex && Decoding(results, parts, bytes)
    {
      assert results[rowIndex] == DecodedRow(id, rows[rowIndex], rowIndex, expected);
      var extended := DecodeOneRow(id, rows[rowIndex], rowIndex, expected, bytes);
      if extended.Err? {
        DecodingStops(results, parts, bytes);
        return Err(extended.error);
      }
      DecodingNext(results, parts, bytes, results[rowIndex].value);
      parts := parts + [results[rowIndex].value];
      bytes := extended.value;
    }
    DecodingDone(results, parts, bytes);
    return Ok(bytes);
  }

  // What a block that was accepted looks like.

  /** Column by column, row `k` of a block with these bytes in this many rows. */
  ghost predicate Consistent(id: BlockHash, row: Row, k: nat, totalLength: nat, rowCount: nat) {
    && row.partitionKey == PartitionKey(id) && row.rowKey == RowKey(id, k)
    && row.schemaVersion == Some(3) && row.byteLen == Some(totalLength)
    && row.rowCount == Some(rowCount) && row.rowIndex == Some(k)
    && row.chunkCount.Some? && 0 <= row.chunkCount.value <= 248
    && (row.chunkCount.value == 0 <==> totalLength == 0)
    && forall c :: 0 <= c < row.chunkCount.value ==> ChunkName(c) in row.chunks
  }

  lemma DecodedRowIsConsistent(id: BlockHash, row: Row, k: nat, expected: Metadata)
    requires DecodedRow(id, row, k, expected).Ok?
    ensures Consistent(id, row, k, expected.totalLength, expected.rowCount)
  {}

  /** Every row of a block that decodes is named for it, numbered, and agrees with the bytes it gives. */
  lemma DecodedIsConsistent(id: BlockHash, rows: seq<Row>, bytes: seq<Byte>, k: nat)
    requires DecodedBlock(id, rows) == Ok(bytes) && k < |rows|
    ensures Consistent(id, rows[k], k, |bytes|, |rows|)
  {
    var metadata := RootMetadata(id, rows[0]).value;
    CollectedOk(DecodedRows(id, rows, metadata), k);
    assert DecodedRows(id, rows, metadata)[k] == DecodedRow(id, rows[k], k, metadata);
    DecodedRowIsConsistent(id, rows[k], k, metadata);
  }

  lemma {:induction false} CollectedOk<T, E>(results: seq<Result<T, E>>, k: nat)
    requires Collect(results).Ok? && k < |results|
    ensures results[k].Ok?
  {
    if k > 0 {
      CollectedOk(results[1..], k - 1);
    }
  }

  lemma CapacityKept(c: Columns, rootCapacity: nat, continuationCapacity: nat)
    requires c.rowCount > 0 && CheckCapacity(c, rootCapacity, continuationCapacity).Ok?
    ensures CheckCapacity(c, rootCapacity, continuationCapacity).value == Metadata(c.totalLength, c.rowCount)
    ensures c.totalLength <= rootCapacity + (c.rowCount - 1) * continuationCapacity
  {}

  lemma FewRows(totalLength: nat, rowCount: nat)
    requires 0 < rowCount <= MaximumPossibleRows(totalLength)
    ensures if totalLength == 0 then rowCount == 1 else (rowCount - 1) * 24_576 < totalLength
  {}

  lemma RootColumnsRead(id: BlockHash, row: Row)
    requires RootColumns(id, row).Ok?
    ensures var c := RootColumns(id, row).value;
      && row.chunkCount == Some(c.chunkCount) && 0 < c.rowCount <= MaximumPossibleRows(c.totalLength)
  {}

  /** It has no more bytes than its rows can carry, and no more rows than it has bytes for. */
  lemma DecodedFits(id: BlockHash, rows: seq<Row>, bytes: seq<Byte>)
    requires DecodedBlock(id, rows) == Ok(bytes)
    ensures rows != [] && rows[0].chunkCount.Some? && rows[0].chunkCount.value >= 0
    ensures |bytes| <= RootCapacity(rows[0].chunkCount.value) + (|rows| - 1) * ContinuationCapacity(248)
    ensures if |bytes| == 0 then |rows| == 1 else (|rows| - 1) * 24_576 < |bytes|
  {
    var c := RootColumns(id, rows[0]).value;
    RootColumnsRead(id, rows[0]);
    CapacityKept(c, RootCapacity(c.chunkCount), ContinuationCapacity(MAX_CHUNK_PROPERTY_COUNT));
    FewRows(c.totalLength, c.rowCount);
    assert RootMetadata(id, rows[0]) == Ok(Metadata(c.totalLength, c.rowCount));
    assert |bytes| == c.totalLength && |rows| == c.rowCount;
  }
}
