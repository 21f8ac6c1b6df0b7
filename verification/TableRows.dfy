/** Laying out one block as the rows of an Azure table: greedy packing under property-count and byte limits. */
module TableRows {
  import opened Wrappers
  import opened Machine
  import opened Base64
  import opened BlockBasics
  import opened TableKeys

  const SCHEMA_VERSION := 3
  const MAX_ROW_PROPERTY_BYTES := 1_000_000
  const MAX_PROPERTY_COUNT := 255
  const FIXED_ROW_PROPERTY_COUNT := 7
  const MAX_CHUNK_PROPERTY_COUNT := 248
  const MAX_STRING_PROPERTY_CHARS := 32_768
  const RAW_CHUNK_SIZE := 24_576

  type Chunk = seq<Byte>

  /** One entity of the table; the named columns may be missing in an entity that was read back. */
  datatype Row = Row(
    partitionKey: string,
    rowKey: string,
    schemaVersion: Option<I32>,
    byteLen: Option<I64>,
    rowCount: Option<I32>,
    rowIndex: Option<I32>,
    chunkCount: Option<I32>,
    chunks: map<string, string>
  )

  datatype PutError =
    | ChunkTooLong
    | LengthOverflow
    | TooManyRows
    | RowIndexOverflow
    | TooManyChunks
    | TooManyProperties
    | RowTooLarge

  // Sizes, counted as the service does: two bytes per UTF-16 code unit of names and strings.

  function Utf16Bytes(text: string): nat {
    2 * |text|
  }

  function StringProperty(name: string, value: string): nat {
    Utf16Bytes(name) + Utf16Bytes(value)
  }

  function FixedRowBytes(id: BlockHash, rowIndex: nat): nat {
    StringProperty("PartitionKey", PartitionKey(id)) + StringProperty("RowKey", RowKey(id, rowIndex))
    + (Utf16Bytes("SchemaVersion") + 4) + (Utf16Bytes("ByteLen") + 8) + (Utf16Bytes("RowCount") + 4)
    + (Utf16Bytes("RowIndex") + 4) + (Utf16Bytes("ChunkCount") + 4)
  }

  function FixedBytesOf(id: BlockHash): nat -> nat {
    (rowIndex: nat) => FixedRowBytes(id, rowIndex)
  }

  function ChunkBytes(index: nat, rawLength: nat): nat {
    Utf16Bytes(ChunkName(index)) + 2 * EncodedLength(rawLength)
  }

  /** The row's size with one more chunk, when the chunk and the row stay within their limits. */
  function TryExtend(currentBytes: nat, chunkIndex: nat, rawLength: nat): Option<nat> {
    if EncodedLength(rawLength) > MAX_STRING_PROPERTY_CHARS then None
    else if currentBytes + ChunkBytes(chunkIndex, rawLength) > MAX_ROW_PROPERTY_BYTES then None
    else Some(currentBytes + ChunkBytes(chunkIndex, rawLength))
  }

  /** Size of a row that holds these chunks beside its fixed columns. */
  function RowBytes(fixed: nat, chunks: seq<Chunk>): nat {
    if chunks == [] then fixed
    else RowBytes(fixed, chunks[..|chunks| - 1]) + ChunkBytes(|chunks| - 1, |chunks[|chunks| - 1]|)
  }

  lemma RowBytesExtend(fixed: nat, chunks: seq<Chunk>, chunk: Chunk)
    ensures RowBytes(fixed, chunks + [chunk]) == RowBytes(fixed, chunks) + ChunkBytes(|chunks|, |chunk|)
  {
    assert (chunks + [chunk])[..|chunks|] == chunks;
  }

  // Chunks and their greedy packing.

  function Chunks(bytes: seq<Byte>): seq<Chunk> {
    if |bytes| == 0 then []
    else if |bytes| <= RAW_CHUNK_SIZE then [bytes]
    else [bytes[..RAW_CHUNK_SIZE]] + Chunks(bytes[RAW_CHUNK_SIZE..])
  }

  function Flatten<T>(parts: seq<seq<T>>): seq<T> {
    if parts == [] then [] else parts[0] + Flatten(parts[1..])
  }

  lemma {:induction false} ChunksAreTheBytes(bytes: seq<Byte>)
    ensures Flatten(Chunks(bytes)) == bytes
  {
    if |bytes| > RAW_CHUNK_SIZE {
      ChunksAreTheBytes(bytes[RAW_CHUNK_SIZE..]);
      assert Chunks(bytes)[1..] == Chunks(bytes[RAW_CHUNK_SIZE..]);
    } else if |bytes| > 0 {
      assert Chunks(bytes)[1..] == [];
    }
  }

  /** Every chunk but the last is full, and none is empty. */
  ghost predicate FullButLast(chunks: seq<Chunk>) {
    forall k :: 0 <= k < |chunks| ==>
      0 < |chunks[k]| <= RAW_CHUNK_SIZE && (k < |chunks| - 1 ==> |chunks[k]| == RAW_CHUNK_SIZE)
  }

  lemma {:induction false} ChunksAreFull(bytes: seq<Byte>)
    ensures FullButLast(Chunks(bytes))
    ensures |bytes| <= |Chunks(bytes)| * RAW_CHUNK_SIZE < |bytes| + RAW_CHUNK_SIZE
  {
    if |bytes| > RAW_CHUNK_SIZE {
      ChunksAreFull(bytes[RAW_CHUNK_SIZE..]);
    }
  }

  /**
   Starts a new row exactly when the next chunk does not fit the current one; `fixed` gives the size of
   the named columns of each row.
   */
  function Pack(fixed: nat -> nat, rowIndex: nat, current: seq<Chunk>, rest: seq<Chunk>): (rows: seq<seq<Chunk>>)
    ensures |rows| > 0
    decreases |rest|
  {
    if rest == [] then [current]
    else if TryExtend(RowBytes(fixed(rowIndex), current), |current|, |rest[0]|).Some? then
      Pack(fixed, rowIndex, current + [rest[0]], rest[1..])
    else
      [current] + Pack(fixed, rowIndex + 1, [rest[0]], rest[1..])
  }

  function PackedRows(id: BlockHash, bytes: seq<Byte>): seq<seq<Chunk>> {
    Pack(FixedBytesOf(id), 0, [], Chunks(bytes))
  }

  /** What the packing guarantees of one row. */
  ghost predicate RowFits(fixedBytes: nat, chunks: seq<Chunk>) {
    && FullButLast(chunks)
    && RowBytes(fixedBytes, chunks) <= MAX_ROW_PROPERTY_BYTES
  }

  lemma FixedRowBytesBound(id: BlockHash, rowIndex: nat)
    requires rowIndex <= I64_MAX
    ensures FixedRowBytes(id, rowIndex) <= 400
  {
    assert PowerOfTen(7) == 10_000_000;
    assert PowerOfTen(13) == 10_000_000_000_000;
    assert PowerOfTen(19) == 10_000_000_000_000_000_000;
    DecimalLength(rowIndex, 19);
    PaddedLength(Decimal(rowIndex), CONTINUATION_ROW_SUFFIX_WIDTH);
  }

  /** The named columns of the root row take 288 bytes, those of other rows ten and more for the row number. */
  lemma FixedRowBytesAre(id: BlockHash, rowIndex: nat)
    ensures FixedRowBytes(id, 0) == 288
    ensures 0 < rowIndex < 10_000 ==> FixedRowBytes(id, rowIndex) == 298
    ensures rowIndex >= 10_000 ==> FixedRowBytes(id, rowIndex) == 290 + 2 * |Decimal(rowIndex)|
  {
    if 0 < rowIndex < 10_000 {
      DecimalLength(rowIndex, 4);
    } else if rowIndex >= 10_000 {
      DecimalLengthGrows(10_000, rowIndex);
      assert |Decimal(10_000)| == 5;
    }
    PaddedLength(Decimal(rowIndex), CONTINUATION_ROW_SUFFIX_WIDTH);
  }

  /** A full chunk takes 64 KiB and the two bytes of each character of its name. */
  lemma FullChunkBytes(index: nat)
    ensures ChunkBytes(index, 24_576) == 65_536 + 10 + 2 * |Decimal(index)|
  {}

  ghost predicate SmallFixedBytes(fixed: nat -> nat) {
    forall rowIndex: nat :: rowIndex <= I64_MAX ==> fixed(rowIndex) <= 400
  }

  lemma FixedBytesAreSmall(id: BlockHash)
    ensures SmallFixedBytes(FixedBytesOf(id))
  {
    forall rowIndex: nat | rowIndex <= I64_MAX
      ensures FixedBytesOf(id)(rowIndex) <= 400
    {
      FixedRowBytesBound(id, rowIndex);
    }
  }

  lemma FullChunkEncoding(rawLength: nat)
    requires rawLength <= RAW_CHUNK_SIZE
    ensures EncodedLength(rawLength) <= MAX_STRING_PROPERTY_CHARS
  {}

  /** A chunk always fits a row of its own, so the fallback for an oversized chunk is never taken. */
  lemma FreshRowTakesChunk(fixed: nat -> nat, rowIndex: nat, chunkLength: nat)
    requires SmallFixedBytes(fixed) && rowIndex <= I64_MAX && chunkLength <= RAW_CHUNK_SIZE
    ensures TryExtend(fixed(rowIndex), 0, chunkLength).Some?
  {
    FullChunkEncoding(chunkLength);
  }

  /** `p` holds of every element, paired with its place counted from `start`. */
  ghost predicate AllFrom<T(!new)>(p: (nat, T) -> bool, start: nat, items: seq<T>)
    decreases |items|
  {
    items != [] ==> p(start, items[0]) && AllFrom(p, start + 1, items[1..])
  }

  lemma {:induction false} AllFromAt<T(!new)>(p: (nat, T) -> bool, start: nat, items: seq<T>, k: nat)
    requires AllFrom(p, start, items) && k < |items|
    ensures p(start + k, items[k])
    decreases k
  {
    if k > 0 {
      AllFromAt(p, start + 1, items[1..], k - 1);
    }
  }

  ghost function FilledRow(fixed: nat -> nat): (nat, seq<Chunk>) -> bool {
    (rowIndex: nat, chunks: seq<Chunk>) => chunks != [] && RowFits(fixed(rowIndex), chunks)
  }

  /** The rows hold the chunks in order, every row is within its limits, and none is empty. */
  ghost predicate PackedWell(fixed: nat -> nat, rowIndex: nat, chunks: seq<Chunk>, rows: seq<seq<Chunk>>) {
    |rows| <= |chunks| && Flatten(rows) == chunks && AllFrom(FilledRow(fixed), rowIndex, rows)
  }

  lemma OneRowPacked(fixed: nat -> nat, rowIndex: nat, chunks: seq<Chunk>)
    requires chunks != [] && RowFits(fixed(rowIndex), chunks)
    ensures PackedWell(fixed, rowIndex, chunks, [chunks])
  {
    assert [chunks][1..] == [];
    assert chunks + [] == chunks;
  }

  lemma AnotherRowPacked(fixed: nat -> nat, rowIndex: nat, first: seq<Chunk>, rest: seq<Chunk>, rows: seq<seq<Chunk>>)
    requires first != [] && RowFits(fixed(rowIndex), first) && PackedWell(fixed, rowIndex + 1, rest, rows)
    ensures PackedWell(fixed, rowIndex, first + rest, [first] + rows)
  {
    assert ([first] + rows)[1..] == rows;
  }

  lemma RowFitsAt(fixed: nat -> nat, chunks: seq<Chunk>, rows: seq<seq<Chunk>>, k: nat)
    requires PackedWell(fixed, 0, chunks, rows) && k < |rows|
    ensures rows[k] != [] && RowFits(fixed(k), rows[k])
  {
    AllFromAt(FilledRow(fixed), 0, rows, k);
  }

  /** Greedy packing meets the limits whatever the number of chunks. */
  lemma {:induction false} PackFits(fixed: nat -> nat, rowIndex: nat, current: seq<Chunk>, rest: seq<Chunk>)
    requires FullButLast(current + rest) && RowFits(fixed(rowIndex), current)
    requires SmallFixedBytes(fixed) && rowIndex + |rest| <= I64_MAX
    requires current == [] ==> rest != []
    ensures PackedWell(fixed, rowIndex, current + rest, Pack(fixed, rowIndex, current, rest))
    decreases |rest|
  {
    if rest == [] {
      assert current + rest == current;
      OneRowPacked(fixed, rowIndex, current);
    } else if TryExtend(RowBytes(fixed(rowIndex), current), |current|, |rest[0]|).Some? {
      assert (current + [rest[0]]) + rest[1..] == current + rest;
      RowBytesExtend(fixed(rowIndex), current, rest[0]);
      PrefixIsFull(current + [rest[0]], rest[1..]);
      PackFits(fixed, rowIndex, current + [rest[0]], rest[1..]);
    } else {
      if current == [] {
        assert (current + rest)[0] == rest[0];
        FreshRowTakesChunk(fixed, rowIndex, |rest[0]|);
      }
      PackNextRow(fixed, rowIndex, current, rest);
      PackFits(fixed, rowIndex + 1, [rest[0]], rest[1..]);
      assert [rest[0]] + rest[1..] == rest;
      AnotherRowPacked(fixed, rowIndex, current, rest, Pack(fixed, rowIndex + 1, [rest[0]], rest[1..]));
    }
  }

  lemma PrefixIsFull(front: seq<Chunk>, back: seq<Chunk>)
    requires FullButLast(front + back)
    ensures FullButLast(front) && FullButLast(back)
  {
    forall k | 0 <= k < |front|
      ensures 0 < |front[k]| <= RAW_CHUNK_SIZE && (k < |front| - 1 ==> |front[k]| == RAW_CHUNK_SIZE)
    {
      assert front[k] == (front + back)[k];
    }
    forall k | 0 <= k < |back|
      ensures 0 < |back[k]| <= RAW_CHUNK_SIZE && (k < |back| - 1 ==> |back[k]| == RAW_CHUNK_SIZE)
    {
      assert back[k] == (front + back)[|front| + k];
    }
  }

  lemma PackNextRow(fixed: nat -> nat, rowIndex: nat, current: seq<Chunk>, rest: seq<Chunk>)
    requires FullButLast(current + rest) && rest != []
    requires SmallFixedBytes(fixed) && rowIndex < I64_MAX
    ensures FullButLast([rest[0]] + rest[1..])
    ensures RowFits(fixed(rowIndex + 1), [rest[0]])
  {
    assert [rest[0]] + rest[1..] == rest;
    PrefixIsFull(current, rest);
    assert FullButLast([rest[0]]);
    FreshRowTakesChunk(fixed, rowIndex + 1, |rest[0]|);
    RowBytesExtend(fixed(rowIndex + 1), [], rest[0]);
    assert [] + [rest[0]] == [rest[0]];
  }

  /** Full chunks are so long that a row within the byte limit holds few of them. */
  lemma {:induction false} RowBytesGrow(fixed: nat, chunks: seq<Chunk>)
    requires forall k :: 0 <= k < |chunks| ==> |chunks[k]| == RAW_CHUNK_SIZE
    ensures RowBytes(fixed, chunks) >= fixed + 65_536 * |chunks|
  {
    if chunks != [] {
      RowBytesGrow(fixed, chunks[..|chunks| - 1]);
    }
  }

  lemma FewChunks(fixedBytes: nat, chunks: seq<Chunk>)
    requires RowFits(fixedBytes, chunks)
    ensures |chunks| <= MAX_CHUNK_PROPERTY_COUNT
  {
    if chunks != [] {
      RowBytesGrow(fixedBytes, chunks[..|chunks| - 1]);
    }
  }

  // Greedy packing needs the fewest rows.

  lemma ChunkBytesGrow(lower: nat, higher: nat, rawLength: nat)
    requires lower <= higher
    ensures ChunkBytes(lower, rawLength) <= ChunkBytes(higher, rawLength)
  {
    DecimalLengthGrows(lower, higher);
  }

  lemma {:induction false} RowBytesOfPrefix(fixed: nat, chunks: seq<Chunk>, n: nat)
    requires n <= |chunks|
    ensures RowBytes(fixed, chunks[..n]) <= RowBytes(fixed, chunks)
    decreases |chunks|
  {
    if n < |chunks| {
      RowBytesOfPrefix(fixed, chunks[..|chunks| - 1], n);
      assert chunks[..|chunks| - 1][..n] == chunks[..n];
    } else {
      assert chunks[..n] == chunks;
    }
  }

  /** Chunks that move up take shorter names. */
  lemma {:induction false} RowBytesOfSuffix(fixed: nat, chunks: seq<Chunk>, n: nat)
    requires n <= |chunks|
    ensures RowBytes(fixed, chunks[n..]) <= RowBytes(fixed, chunks)
    decreases |chunks|
  {
    if n < |chunks| {
      var front, last := chunks[..|chunks| - 1], chunks[|chunks| - 1];
      RowBytesOfSuffix(fixed, front, n);
      assert chunks[n..] == front[n..] + [last];
      RowBytesExtend(fixed, front[n..], last);
      ChunkBytesGrow(|front[n..]|, |front|, |last|);
    } else {
      RowBytesOfPrefix(fixed, chunks, 0);
      assert chunks[n..] == chunks[..0];
    }
  }

  lemma RowBytesOfInfix(fixed: nat, before: seq<Chunk>, chunks: seq<Chunk>, after: seq<Chunk>)
    ensures RowBytes(fixed, chunks) <= RowBytes(fixed, before + chunks + after)
  {
    var row := before + chunks + after;
    RowBytesOfSuffix(fixed, row, |before|);
    assert row[|before|..] == chunks + after;
    RowBytesOfPrefix(fixed, chunks + after, |chunks|);
    assert (chunks + after)[..|chunks|] == chunks;
  }

  lemma FullRow(fixed: nat, current: seq<Chunk>, next: Chunk)
    requires |next| <= RAW_CHUNK_SIZE && TryExtend(RowBytes(fixed, current), |current|, |next|).None?
    ensures RowBytes(fixed, current + [next]) > MAX_ROW_PROPERTY_BYTES
  {
    FullChunkEncoding(|next|);
    RowBytesExtend(fixed, current, next);
  }

  /** A row that starts where the next one could or before, and reaches further, holds this one's extension. */
  lemma ReachesInto(row: seq<Chunk>, more: seq<Chunk>, before: seq<Chunk>, current: seq<Chunk>, rest: seq<Chunk>)
    returns (after: seq<Chunk>)
    requires row + more == before + (current + rest) && |row| > |before| + |current| && rest != []
    ensures row == before + (current + [rest[0]]) + after
  {
    var n := |before| + |current|;
    after := row[n + 1..];
    var extended := before + (current + [rest[0]]);
    assert (before + (current + rest))[..n + 1] == extended;
    assert row[..n + 1] == (row + more)[..n + 1];
  }

  /** Where the greedy row is full, no other row can start at the same chunk or before and reach further. */
  lemma FurtherRow(fixed: nat, before: seq<Chunk>, current: seq<Chunk>, rest: seq<Chunk>, row: seq<Chunk>,
                   more: seq<Chunk>)
    requires row + more == before + (current + rest) && |row| > |before| + |current|
    requires rest != [] && |rest[0]| <= RAW_CHUNK_SIZE
    requires TryExtend(RowBytes(fixed, current), |current|, |rest[0]|).None?
    ensures RowBytes(fixed, row) > MAX_ROW_PROPERTY_BYTES
  {
    var after := ReachesInto(row, more, before, current, rest);
    FullRow(fixed, current, rest[0]);
    RowBytesOfInfix(fixed, before, current + [rest[0]], after);
  }

  /** Every row is within the limits. */
  ghost predicate WithinLimits(fixed: nat -> nat, rowIndex: nat, rows: seq<seq<Chunk>>) {
    forall k :: 0 <= k < |rows| ==> RowBytes(fixed(rowIndex + k), rows[k]) <= MAX_ROW_PROPERTY_BYTES
  }

  /**
   However the chunks are laid out in rows within the limits, in their order: greedy packing needs no more rows,
   even if the other layout has other chunks to place in front.
   */
  lemma {:induction false} PackIsFewest(fixed: nat -> nat, rowIndex: nat, before: seq<Chunk>, current: seq<Chunk>,
                                        rest: seq<Chunk>, other: seq<seq<Chunk>>)
    requires current + rest != [] && forall k :: 0 <= k < |rest| ==> |rest[k]| <= RAW_CHUNK_SIZE
    requires Flatten(other) == before + (current + rest) && WithinLimits(fixed, rowIndex, other)
    ensures |Pack(fixed, rowIndex, current, rest)| <= |other|
    decreases |rest|
  {
    if rest == [] {
      assert other != [];
    } else if TryExtend(RowBytes(fixed(rowIndex), current), |current|, |rest[0]|).Some? {
      assert (current + [rest[0]]) + rest[1..] == current + rest;
      PackIsFewest(fixed, rowIndex, before, current + [rest[0]], rest[1..], other);
    } else {
      var row, more := other[0], Flatten(other[1..]);
      if |row| > |before| + |current| {
        assert RowBytes(fixed(rowIndex + 0), row) <= MAX_ROW_PROPERTY_BYTES;
        FurtherRow(fixed(rowIndex), before, current, rest, row, more);
      }
      LaterRows(fixed, rowIndex, other);
      assert more == (before + current)[|row|..] + ([rest[0]] + rest[1..]) by {
        assert forall k :: 0 <= k < |more| ==> more[k] == Flatten(other)[|row| + k];
      }
      PackIsFewest(fixed, rowIndex + 1, (before + current)[|row|..], [rest[0]], rest[1..], other[1..]);
    }
  }

  lemma LaterRows(fixed: nat -> nat, rowIndex: nat, rows: seq<seq<Chunk>>)
    requires WithinLimits(fixed, rowIndex, rows) && rows != []
    ensures WithinLimits(fixed, rowIndex + 1, rows[1..])
  {
    forall k | 0 <= k < |rows[1..]|
      ensures RowBytes(fixed(rowIndex + 1 + k), rows[1..][k]) <= MAX_ROW_PROPERTY_BYTES
    {
      var j := k + 1;
      assert RowBytes(fixed(rowIndex + j), rows[j]) <= MAX_ROW_PROPERTY_BYTES;
    }
  }
}
