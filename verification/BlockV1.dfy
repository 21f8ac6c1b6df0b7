/**
 Version-1 blocks: normal form, serialization, and the parser that accepts nothing
 but its output.
 */
module BlockV1 {
  import opened Wrappers
  import opened Machine
  import opened BlockBasics
  import opened Cbor
  import opened CanonicalValue
  import opened BlockFields
  import opened BlockEntries
  import opened Permutation
  import EbcpDescriptor

  const VERSION_1 := 1

  const VERSION_KEY := 0
  const LEVEL_KEY := 1
  const EMBEDDING_SPEC_KEY := 2
  const ENTRIES_KEY := 3
  const EXT_KEY := 15

  datatype Block =
    | Branch(version: U64, level: U64, spec: EmbeddingSpec, branch: BranchParts)
    | Leaf(version: U64, level: U64, spec: EmbeddingSpec, leaf: LeafParts)

  // Normal form.

  function Normalize(block: Block): Result<Block, BlockError> {
    if block.version != VERSION_1 then Err(UnsupportedVersion(block.version))
    else if block.Branch? then
      if block.level == 0 then Err(InvalidBlockLevel(block.level))
      else
        var _ :- ValidateSpec(block.spec);
        var parts :- NormalizeBranchParts(block.spec, block.branch);
        Ok(block.(branch := parts))
    else
      if block.level != 0 then Err(InvalidBlockLevel(block.level))
      else
        var _ :- ValidateSpec(block.spec);
        if EbcpDescriptor.IsEbcpEncoding(block.spec.encoding) then Err(NonConforming)
        else
          var parts :- NormalizeLeafParts(block.leaf);
          Ok(block.(leaf := parts))
  }

  predicate IsNormal(block: Block) {
    Normalize(block) == Ok(block)
  }

  /** Normalizing rewrites the block it is given; entries are sorted in place. */
  method NormalizeBlock(block: Block) returns (result: Result<Block, BlockError>)
    ensures result == Normalize(block)
  {
    if block.version != VERSION_1 {
      return Err(UnsupportedVersion(block.version));
    }
    if (block.level == 0) != block.Leaf? {
      return Err(InvalidBlockLevel(block.level));
    }
    var validated := ValidateSpec(block.spec);
    if validated.Err? {
      return Err(validated.error);
    }
    if block.Leaf? {
      if EbcpDescriptor.IsEbcpEncoding(block.spec.encoding) {
        return Err(NonConforming);
      }
      var leaf := NormalizeLeafParts(block.leaf);
      if leaf.Err? {
        return Err(leaf.error);
      }
      return Ok(block.(leaf := leaf.value));
    }
    var ext := NormalizeOptionalMap(block.branch.ext);
    if ext.Err? {
      return Err(ext.error);
    }
    var checked := EbcpDescriptor.CheckBranchEmbeddings(block.spec, ext.value,
                                                        Apply(EmbeddingOf, block.branch.entries));
    if checked.Err? {
      return Err(checked.error);
    }
    var entries := NormalizeBranchEntries(block.branch.entries);
    if entries.Err? {
      return Err(entries.error);
    }
    return Ok(block.(branch := BranchParts(entries.value, ext.value)));
  }

  // Value form.

  function EntriesValue(block: Block): Value {
    if block.Branch? then Array(Apply(BranchEntryValue, block.branch.entries))
    else Array(Apply(LeafEntryValue, block.leaf.entries))
  }

  function ExtOf(block: Block): Option<seq<Pair>> {
    if block.Branch? then block.branch.ext else block.leaf.ext
  }

  function Pairs(version: U64, level: U64, spec: Value, entries: Value, ext: Option<seq<Pair>>): seq<Pair> {
    match ext
    case None =>
      [Field(VERSION_KEY, Int(version)), Field(LEVEL_KEY, Int(level)), Field(EMBEDDING_SPEC_KEY, spec),
       Field(ENTRIES_KEY, entries)]
    case Some(present) =>
      [Field(VERSION_KEY, Int(version)), Field(LEVEL_KEY, Int(level)), Field(EMBEDDING_SPEC_KEY, spec),
       Field(ENTRIES_KEY, entries), Field(EXT_KEY, Map(present))]
  }

  function BlockPairs(block: Block): seq<Pair> {
    Pairs(block.version, block.level, SpecValue(block.spec), EntriesValue(block), ExtOf(block))
  }

  function BlockValue(block: Block): Result<Value, BlockError> {
    Canonicalize(Map(BlockPairs(block)))
  }

  function ParseExt(fields: Fields): Result<Option<seq<Pair>>, BlockError> {
    OptionalMapField(fields, EXT_KEY)
  }

  function ParseParts(version: U64, level: U64, spec: EmbeddingSpec, entries: Value, ext: Option<seq<Pair>>)
    : Result<Block, BlockError>
  {
    if level == 0 then
      var parsed :- ParseEach(ParseLeafEntry, entries);
      Normalize(Leaf(version, level, spec, LeafParts(parsed, ext)))
    else
      var parsed :- ParseEach(ParseBranchEntry, entries);
      Normalize(Branch(version, level, spec, BranchParts(parsed, ext)))
  }

  function ParseFields(all: Fields): Result<Block, BlockError> {
    var version :- RequiredU64(all, VERSION_KEY);
    if version != VERSION_1 then Err(UnsupportedVersion(version))
    else
      var fields := all - {VERSION_KEY};
      var _ :- RejectUnknownKeys(fields, {LEVEL_KEY, EMBEDDING_SPEC_KEY, ENTRIES_KEY, EXT_KEY});
      var level :- RequiredU64(fields, LEVEL_KEY);
      var specField :- Required(fields, EMBEDDING_SPEC_KEY);
      var spec :- ParseSpec(specField);
      var ext :- ParseExt(fields);
      var entries :- Required(fields, ENTRIES_KEY);
      ParseParts(version, level, spec, entries, ext)
  }

  function ParseBlock(v: Value): Result<Block, BlockError> {
    var fields :- IntegerKeyedMap(v);
    ParseFields(fields)
  }

  // Bytes.

  function Serialize(block: Block): Result<seq<Byte>, BlockError> {
    var normal :- Normalize(block);
    var v :- BlockValue(normal);
    Ok(Encode(v))
  }

  function DecodeSingleValue(bytes: seq<Byte>): Result<Value, BlockError> {
    match Decode(bytes) case None => Err(MalformedCbor) case Some(v) => Ok(v)
  }

  function DeserializeValue(v: Value, bytes: seq<Byte>): Result<Block, BlockError> {
    var block :- ParseBlock(v);
    var serialized :- Serialize(block);
    if serialized != bytes then Err(NonConforming) else Ok(block)
  }

  function Deserialize(hash: seq<Byte> -> BlockHash, bytes: seq<Byte>, expected: BlockHash): Result<Block, BlockError> {
    if hash(bytes) != expected then Err(HashMismatch)
    else
      var v :- DecodeSingleValue(bytes);
      DeserializeValue(v, bytes)
  }

  // What normalization keeps.

  /** Normalizing twice is normalizing once. */
  lemma NormalizeIsIdempotent(block: Block)
    requires Normalize(block).Ok?
    ensures IsNormal(Normalize(block).value)
  {
    if block.Branch? {
      BranchPartsIdempotent(block.spec, block.branch);
    } else {
      LeafPartsIdempotent(block.leaf);
    }
  }

  lemma EntriesRoundTripInBlock(block: Block)
    requires IsNormal(block)
    ensures IsCanonical(EntriesValue(block)) && IsCanonicalExt(ExtOf(block))
    ensures block.Branch? ==> ParseEach(ParseBranchEntry, EntriesValue(block)) == Ok(block.branch.entries)
    ensures block.Leaf? ==> ParseEach(ParseLeafEntry, EntriesValue(block)) == Ok(block.leaf.entries)
  {
    if block.Branch? {
      BranchPartsIdempotent(block.spec, block.branch);
      forall e | e in block.branch.entries
        ensures ParseBranchEntry(BranchEntryValue(e)) == Ok(e) && IsCanonical(BranchEntryValue(e))
      {
        BranchEntryRoundTrip(e);
      }
      EntriesRoundTrip(ParseBranchEntry, BranchEntryValue, block.branch.entries);
    } else {
      LeafPartsIdempotent(block.leaf);
      forall e | e in block.leaf.entries
        ensures ParseLeafEntry(LeafEntryValue(e)) == Ok(e) && IsCanonical(LeafEntryValue(e))
      {
        assert e == block.leaf.entries[0];
        LeafEntryRoundTrip(e);
      }
      EntriesRoundTrip(ParseLeafEntry, LeafEntryValue, block.leaf.entries);
    }
  }

  /** The fields of a block as they are read back. */
  function FieldMap(version: U64, level: U64, spec: Value, entries: Value, ext: Option<seq<Pair>>): Fields {
    match ext
    case None =>
      map[VERSION_KEY := Int(version), LEVEL_KEY := Int(level), EMBEDDING_SPEC_KEY := spec, ENTRIES_KEY := entries]
    case Some(present) =>
      map[VERSION_KEY := Int(version), LEVEL_KEY := Int(level), EMBEDDING_SPEC_KEY := spec, ENTRIES_KEY := entries,
          EXT_KEY := Map(present)]
  }

  lemma PairsRoundTrip(version: U64, level: U64, spec: Value, entries: Value, ext: Option<seq<Pair>>)
    requires IsCanonical(spec) && IsCanonical(entries) && IsCanonicalExt(ext)
    ensures IntegerKeyedMap(Map(Pairs(version, level, spec, entries, ext)))
         == Ok(FieldMap(version, level, spec, entries, ext))
    ensures IsCanonicalMap(Pairs(version, level, spec, entries, ext))
  {
    var base, fields := Pairs(version, level, spec, entries, None), FieldMap(version, level, spec, entries, None);
    BasePairs(version, level, spec, entries);
    if ext.None? {
      FieldsRead(base, fields);
    } else {
      AppendField(base, fields, EXT_KEY, Map(ext.value));
      assert Pairs(version, level, spec, entries, ext) == base + [Field(EXT_KEY, Map(ext.value))];
      FieldsRead(base + [Field(EXT_KEY, Map(ext.value))], fields[EXT_KEY := Map(ext.value)]);
    }
  }

  lemma BasePairs(version: U64, level: U64, spec: Value, entries: Value)
    ensures var base := Pairs(version, level, spec, entries, None);
      SmallKeys(base) && Lists(base, FieldMap(version, level, spec, entries, None))
  {}

  lemma FieldMapParses(level: U64, specValue: Value, spec: EmbeddingSpec, entries: Value, ext: Option<seq<Pair>>)
    requires ParseSpec(specValue) == Ok(spec) && IsCanonicalExt(ext)
    ensures ParseFields(FieldMap(VERSION_1, level, specValue, entries, ext))
         == ParseParts(VERSION_1, level, spec, entries, ext)
  {
    var fields := FieldMap(VERSION_1, level, specValue, entries, ext) - {VERSION_KEY};
    assert fields.Keys <= {LEVEL_KEY, EMBEDDING_SPEC_KEY, ENTRIES_KEY, EXT_KEY};
    assert ParseExt(fields) == Ok(ext);
  }

  lemma PartsRoundTrip(block: Block)
    requires IsNormal(block)
    ensures ParseParts(block.version, block.level, block.spec, EntriesValue(block), ExtOf(block)) == Ok(block)
  {
    EntriesRoundTripInBlock(block);
  }

  /** Parsing the value of a normal block gives the block. */
  lemma ParseRoundTrip(block: Block)
    requires IsNormal(block)
    ensures BlockValue(block).Ok? && ParseBlock(BlockValue(block).value) == Ok(block)
  {
    EntriesRoundTripInBlock(block);
    SpecRoundTrip(block.spec);
    PairsRoundTrip(block.version, block.level, SpecValue(block.spec), EntriesValue(block), ExtOf(block));
    FieldMapParses(block.level, SpecValue(block.spec), block.spec, EntriesValue(block), ExtOf(block));
    PartsRoundTrip(block);
  }

  /** A block serializes exactly when its version, level, encoding and parts are in order. */
  lemma NormalizesExactly(block: Block)
    ensures Normalize(block).Ok? <==>
      && block.version == 1 && ValidateSpec(block.spec).Ok?
      && match block
         case Branch(_, level, spec, parts) => level > 0 && NormalizeBranchParts(spec, parts).Ok?
         case Leaf(_, level, spec, parts) =>
           level == 0 && !EbcpDescriptor.IsEbcpEncoding(spec.encoding) && NormalizeLeafParts(parts).Ok?
  {}

  /** The extension map comes last, when there is one. */
  function ExtPairs(ext: Option<seq<Pair>>): seq<Pair> {
    match ext case None => [] case Some(present) => [Pair(Int(15), Map(present))]
  }

  /** What is written: a map from 0 to the version, 1 to the level, 2 to the specification, 3 to the entries. */
  lemma SerializedLayout(block: Block)
    requires Normalize(block).Ok?
    ensures var normal := Normalize(block).value;
      Serialize(block)
      == Ok(Encode(Map([Pair(Int(0), Int(1)), Pair(Int(1), Int(normal.level)), Pair(Int(2), SpecValue(normal.spec)),
                        Pair(Int(3), EntriesValue(normal))] + ExtPairs(ExtOf(normal)))))
  {
    var normal := Normalize(block).value;
    NormalizeIsIdempotent(block);
    EntriesRoundTripInBlock(normal);
    SpecRoundTrip(normal.spec);
    PairsRoundTrip(normal.version, normal.level, SpecValue(normal.spec), EntriesValue(normal), ExtOf(normal));
    assert BlockPairs(normal)
        == [Pair(Int(0), Int(1)), Pair(Int(1), Int(normal.level)), Pair(Int(2), SpecValue(normal.spec)),
            Pair(Int(3), EntriesValue(normal))] + ExtPairs(ExtOf(normal));
  }

  // Main results.

  /** Whatever serializes is read back as its normal form. */
  lemma DeserializeSerialize(hash: seq<Byte> -> BlockHash, block: Block)
    requires Serialize(block).Ok? && |Serialize(block).value| <= USIZE_MAX
    ensures var bytes := Serialize(block).value;
      Deserialize(hash, bytes, hash(bytes)) == Normalize(block)
  {
    var normal := Normalize(block).value;
    NormalizeIsIdempotent(block);
    ParseRoundTrip(normal);
    DecodeEncode(BlockValue(normal).value);
  }

  lemma ParsedBlockIsNormal(v: Value)
    requires ParseBlock(v).Ok?
    ensures IsNormal(ParseBlock(v).value)
  {
    var fields := IntegerKeyedMap(v).value;
    ParsedFieldsAreNormal(fields);
  }

  lemma ParsedFieldsAreNormal(all: Fields)
    requires ParseFields(all).Ok?
    ensures IsNormal(ParseFields(all).value)
  {
    var version := RequiredU64(all, VERSION_KEY).value;
    var fields := all - {VERSION_KEY};
    var level := RequiredU64(fields, LEVEL_KEY).value;
    var spec := ParseSpec(fields[EMBEDDING_SPEC_KEY]).value;
    var ext := ParseExt(fields).value;
    var entries := fields[ENTRIES_KEY];
    if level == 0 {
      NormalizeIsIdempotent(Leaf(version, level, spec, LeafParts(ParseEach(ParseLeafEntry, entries).value, ext)));
    } else {
      NormalizeIsIdempotent(Branch(version, level, spec, BranchParts(ParseEach(ParseBranchEntry, entries).value, ext)));
    }
  }

  /** What is accepted is the serialization of the block returned, which is already in normal form. */
  lemma AcceptedIsSerialized(hash: seq<Byte> -> BlockHash, bytes: seq<Byte>, expected: BlockHash)
    requires Deserialize(hash, bytes, expected).Ok?
    ensures var block := Deserialize(hash, bytes, expected).value;
      IsNormal(block) && Serialize(block) == Ok(bytes)
  {
    ParsedBlockIsNormal(Decode(bytes).value);
  }

  /** The parser accepts exactly the serializations, under the hash of their bytes. */
  lemma AcceptsExactlySerializations(hash: seq<Byte> -> BlockHash, bytes: seq<Byte>, expected: BlockHash)
    requires |bytes| <= USIZE_MAX
    ensures Deserialize(hash, bytes, expected).Ok?
       <==> hash(bytes) == expected && exists block :: Serialize(block) == Ok(bytes)
  {
    if Deserialize(hash, bytes, expected).Ok? {
      AcceptedIsSerialized(hash, bytes, expected);
    }
    if hash(bytes) == expected && exists block :: Serialize(block) == Ok(bytes) {
      var block :| Serialize(block) == Ok(bytes);
      DeserializeSerialize(hash, block);
    }
  }

  /** One block, one byte form: blocks have the same bytes exactly when they have the same normal form. */
  lemma SameBytesSameBlock(a: Block, b: Block)
    requires Serialize(a).Ok? && Serialize(b).Ok?
    requires |Serialize(a).value| <= USIZE_MAX && |Serialize(b).value| <= USIZE_MAX
    ensures Serialize(a) == Serialize(b) <==> Normalize(a) == Normalize(b)
  {
    var hash := (bytes: seq<Byte>) => ZeroHash();
    DeserializeSerialize(hash, a);
    DeserializeSerialize(hash, b);
  }

  function ZeroHash(): BlockHash {
    seq(32, _ => 0 as Byte)
  }

  /** Two blocks that differ in the order of branch entries and of map pairs only. */
  ghost predicate ReorderedBlock(a: Block, b: Block) {
    && a.version == b.version && a.level == b.level && a.spec == b.spec
    && ((a.Branch? && b.Branch?
         && multiset(a.branch.entries) == multiset(b.branch.entries) && ReorderedExt(a.branch.ext, b.branch.ext))
        || (a.Leaf? && b.Leaf?
            && ReorderedLeafEntries(a.leaf.entries, b.leaf.entries) && ReorderedExt(a.leaf.ext, b.leaf.ext)))
  }

  lemma NormalizeIgnoresOrder(a: Block, b: Block)
    requires ReorderedBlock(a, b)
    ensures Normalize(a) == Normalize(b)
  {
    if a.Branch? {
      BranchPartsIgnoreOrder(a.spec, a.branch, b.branch);
    } else {
      LeafPartsIgnoreOrder(a.leaf, b.leaf);
    }
  }

  /** The order in which a block is put together does not show in its bytes. */
  lemma SerializeIgnoresOrder(a: Block, b: Block)
    requires ReorderedBlock(a, b)
    ensures Serialize(a) == Serialize(b)
  {
    NormalizeIgnoresOrder(a, b);
  }
}
