/**
 Version-2 blocks: a type name and a content value; the types `branch` and `leaf` have a
 fixed content.
 */
module BlockV2 {
  import opened Wrappers
  import opened Machine
  import opened BlockBasics
  import opened Cbor
  import opened CanonicalValue
  import opened BlockFields
  import opened BlockEntries
  import opened Permutation
  import EbcpDescriptor

  const VERSION_2 := 2

  const VERSION_KEY := 0
  const TYPE_KEY := 1
  const CONTENT_KEY := 2

  const LEVEL_KEY := 1
  const EMBEDDING_SPEC_KEY := 2
  const ENTRIES_KEY := 3
  const EXT_KEY := 15

  const BRANCH_TYPE := Ascii("branch")
  const LEAF_TYPE := Ascii("leaf")

  datatype Block = Block(version: U64, typeName: seq<Byte>, content: Value)

  datatype TypedBlock =
    | TypedBranch(level: U64, spec: EmbeddingSpec, branch: BranchParts)
    | TypedLeaf(spec: EmbeddingSpec, leaf: LeafParts)
    | Custom(typeName: seq<Byte>, content: Value)

  // The content of branches and leaves.

  /** The extension field, if present, comes behind all others. */
  function WithExt(base: seq<Pair>, ext: Option<seq<Pair>>): seq<Pair> {
    if ext.Some? then base + [Field(EXT_KEY, Map(ext.value))] else base
  }

  function BranchPairs(level: U64, spec: Value, entries: Value, ext: Option<seq<Pair>>): seq<Pair> {
    WithExt([Field(LEVEL_KEY, Int(level)), Field(EMBEDDING_SPEC_KEY, spec), Field(ENTRIES_KEY, entries)], ext)
  }

  function LeafPairs(spec: Value, entries: Value, ext: Option<seq<Pair>>): seq<Pair> {
    WithExt([Field(EMBEDDING_SPEC_KEY, spec), Field(ENTRIES_KEY, entries)], ext)
  }

  function BranchContent(level: U64, spec: EmbeddingSpec, parts: BranchParts): Value {
    Map(BranchPairs(level, SpecValue(spec), Array(Apply(BranchEntryValue, parts.entries)), parts.ext))
  }

  function LeafContent(spec: EmbeddingSpec, parts: LeafParts): Value {
    Map(LeafPairs(SpecValue(spec), Array(Apply(LeafEntryValue, parts.entries)), parts.ext))
  }

  function ParseExt(fields: Fields): Result<Option<seq<Pair>>, BlockError> {
    OptionalMapField(fields, EXT_KEY)
  }

  // Normal form.

  function NormalizeBranchContent(content: Value): Result<Value, BlockError> {
    var fields :- IntegerKeyedMap(content);
    var _ :- RejectUnknownKeys(fields, {LEVEL_KEY, EMBEDDING_SPEC_KEY, ENTRIES_KEY, EXT_KEY});
    var level :- RequiredU64(fields, LEVEL_KEY);
    if level == 0 then Err(InvalidBlockLevel(level))
    else
      var specField :- Required(fields, EMBEDDING_SPEC_KEY);
      var spec :- ParseSpec(specField);
      var _ :- ValidateSpec(spec);
      var entries :- Required(fields, ENTRIES_KEY);
      NormalizeBranchRest(level, spec, entries, fields)
  }

  function NormalizeBranchRest(level: U64, spec: EmbeddingSpec, entriesField: Value, fields: Fields)
    : Result<Value, BlockError>
  {
    var entries :- ParseEach(ParseBranchEntry, entriesField);
    var ext :- ParseExt(fields);
    var parts :- NormalizeBranchParts(spec, BranchParts(entries, ext));
    Ok(BranchContent(level, spec, parts))
  }

  function NormalizeLeafContent(content: Value): Result<Value, BlockError> {
    var fields :- IntegerKeyedMap(content);
    var _ :- RejectUnknownKeys(fields, {EMBEDDING_SPEC_KEY, ENTRIES_KEY, EXT_KEY});
    var specField :- Required(fields, EMBEDDING_SPEC_KEY);
    var spec :- ParseSpec(specField);
    var _ :- ValidateSpec(spec);
    if EbcpDescriptor.IsEbcpEncoding(spec.encoding) then Err(NonConforming)
    else
      var entries :- Required(fields, ENTRIES_KEY);
      NormalizeLeafRest(spec, entries, fields)
  }

  function NormalizeLeafRest(spec: EmbeddingSpec, entriesField: Value, fields: Fields): Result<Value, BlockError> {
    var entries :- ParseEach(ParseLeafEntry, entriesField);
    var ext :- ParseExt(fields);
    var parts :- NormalizeLeafParts(LeafParts(entries, ext));
    Ok(LeafContent(spec, parts))
  }

  function NormalizeContent(typeName: seq<Byte>, content: Value): Result<Value, BlockError> {
    if typeName == BRANCH_TYPE then NormalizeBranchContent(content)
    else if typeName == LEAF_TYPE then NormalizeLeafContent(content)
    else Canonicalize(content)
  }

  function Normalize(block: Block): Result<Block, BlockError> {
    if block.version != VERSION_2 then Err(UnsupportedVersion(block.version))
    else if block.typeName == [] then Err(NonConforming)
    else
      var content :- NormalizeContent(block.typeName, block.content);
      Ok(block.(content := content))
  }

  predicate IsNormal(block: Block) {
    Normalize(block) == Ok(block)
  }

  function BuildBranch(level: U64, spec: EmbeddingSpec, parts: BranchParts): Result<Block, BlockError> {
    Normalize(Block(VERSION_2, BRANCH_TYPE, BranchContent(level, spec, parts)))
  }

  function BuildLeaf(spec: EmbeddingSpec, parts: LeafParts): Result<Block, BlockError> {
    Normalize(Block(VERSION_2, LEAF_TYPE, LeafContent(spec, parts)))
  }

  function BuildCustom(typeName: seq<Byte>, content: Value): Result<Block, BlockError> {
    if typeName == BRANCH_TYPE || typeName == LEAF_TYPE then Err(NonConforming)
    else Normalize(Block(VERSION_2, typeName, content))
  }

  // Typed view.

  function ClassifyBranch(content: Value): Result<TypedBlock, BlockError> {
    var fields :- IntegerKeyedMap(content);
    var level :- RequiredU64(fields, LEVEL_KEY);
    var specField :- Required(fields, EMBEDDING_SPEC_KEY);
    var spec :- ParseSpec(specField);
    var entriesField :- Required(fields, ENTRIES_KEY);
    var entries :- ParseEach(ParseBranchEntry, entriesField);
    var ext :- ParseExt(fields);
    Ok(TypedBranch(level, spec, BranchParts(entries, ext)))
  }

  function ClassifyLeaf(content: Value): Result<TypedBlock, BlockError> {
    var fields :- IntegerKeyedMap(content);
    var specField :- Required(fields, EMBEDDING_SPEC_KEY);
    var spec :- ParseSpec(specField);
    var entriesField :- Required(fields, ENTRIES_KEY);
    var entries :- ParseEach(ParseLeafEntry, entriesField);
    var ext :- ParseExt(fields);
    Ok(TypedLeaf(spec, LeafParts(entries, ext)))
  }

  function Classify(block: Block): Result<TypedBlock, BlockError> {
    if block.typeName == BRANCH_TYPE then ClassifyBranch(block.content)
    else if block.typeName == LEAF_TYPE then ClassifyLeaf(block.content)
    else Ok(Custom(block.typeName, block.content))
  }

  // Bytes.

  function BlockPairs(block: Block): seq<Pair> {
    [Field(VERSION_KEY, Int(block.version)), Field(TYPE_KEY, Text(block.typeName)), Field(CONTENT_KEY, block.content)]
  }

  function BlockValue(block: Block): Result<Value, BlockError> {
    Canonicalize(Map(BlockPairs(block)))
  }

  function ParseFields(all: Fields): Result<Block, BlockError> {
    var version :- RequiredU64(all, VERSION_KEY);
    if version != VERSION_2 then Err(UnsupportedVersion(version))
    else
      var fields := all - {VERSION_KEY};
      var _ :- RejectUnknownKeys(fields, {TYPE_KEY, CONTENT_KEY});
      var typeName :- RequiredText(fields, TYPE_KEY);
      var content :- Required(fields, CONTENT_KEY);
      Normalize(Block(version, typeName, content))
  }

  function ParseBlock(v: Value): Result<Block, BlockError> {
    var fields :- IntegerKeyedMap(v);
    ParseFields(fields)
  }

  function Serialize(block: Block): Result<seq<Byte>, BlockError> {
    var normal :- Normalize(block);
    var v :- BlockValue(normal);
    Ok(Encode(v))
  }

  function DeserializeValue(v: Value, bytes: seq<Byte>): Result<Block, BlockError> {
    var block :- ParseBlock(v);
    var serialized :- Serialize(block);
    if serialized != bytes then Err(NonConforming) else Ok(block)
  }

  function Deserialize(hash: seq<Byte> -> BlockHash, bytes: seq<Byte>, expected: BlockHash): Result<Block, BlockError> {
    if hash(bytes) != expected then Err(HashMismatch)
    else
      match Decode(bytes)
      case None => Err(MalformedCbor)
      case Some(v) => DeserializeValue(v, bytes)
  }

  // Reading content back.

  lemma {:induction false} TypeNamesDiffer()
    ensures BRANCH_TYPE != LEAF_TYPE && BRANCH_TYPE != [] && LEAF_TYPE != []
  {
    assert |BRANCH_TYPE| == 6 && |LEAF_TYPE| == 4;
  }

  function ExtField(fields: Fields, ext: Option<seq<Pair>>): Fields {
    if ext.Some? then fields[EXT_KEY := Map(ext.value)] else fields
  }

  lemma {:induction false} ExtPairsRead(base: seq<Pair>, fields: Fields, ext: Option<seq<Pair>>)
    requires SmallKeys(base) && Lists(base, fields) && EXT_KEY !in fields
    requires base != [] ==> base[|base| - 1].key.n < EXT_KEY
    ensures IntegerKeyedMap(Map(WithExt(base, ext))) == Ok(ExtField(fields, ext))
    ensures (forall i :: 0 <= i < |base| ==> IsCanonical(base[i].value)) && IsCanonicalExt(ext) ==>
      IsCanonicalMap(WithExt(base, ext))
  {
    if ext.Some? {
      AppendField(base, fields, EXT_KEY, Map(ext.value));
    }
    FieldsRead(WithExt(base, ext), ExtField(fields, ext));
  }

  lemma {:induction false} BranchPairsRead(level: U64, spec: Value, entries: Value, ext: Option<seq<Pair>>)
    ensures IntegerKeyedMap(Map(BranchPairs(level, spec, entries, ext)))
         == Ok(ExtField(map[LEVEL_KEY := Int(level), EMBEDDING_SPEC_KEY := spec, ENTRIES_KEY := entries], ext))
    ensures IsCanonical(spec) && IsCanonical(entries) && IsCanonicalExt(ext) ==>
      IsCanonicalMap(BranchPairs(level, spec, entries, ext))
  {
    var fields := map[LEVEL_KEY := Int(level), EMBEDDING_SPEC_KEY := spec, ENTRIES_KEY := entries];
    ExtPairsRead([Field(LEVEL_KEY, Int(level)), Field(EMBEDDING_SPEC_KEY, spec), Field(ENTRIES_KEY, entries)], fields,
                 ext);
  }

  lemma {:induction false} LeafPairsRead(spec: Value, entries: Value, ext: Option<seq<Pair>>)
    ensures IntegerKeyedMap(Map(LeafPairs(spec, entries, ext)))
         == Ok(ExtField(map[EMBEDDING_SPEC_KEY := spec, ENTRIES_KEY := entries], ext))
    ensures IsCanonical(spec) && IsCanonical(entries) && IsCanonicalExt(ext) ==>
      IsCanonicalMap(LeafPairs(spec, entries, ext))
  {
    var fields := map[EMBEDDING_SPEC_KEY := spec, ENTRIES_KEY := entries];
    ExtPairsRead([Field(EMBEDDING_SPEC_KEY, spec), Field(ENTRIES_KEY, entries)], fields, ext);
  }

  lemma {:induction false} ExtReads(fields: Fields, ext: Option<seq<Pair>>)
    requires EXT_KEY !in fields
    ensures ParseExt(ExtField(fields, ext)) == NormalizeOptionalMap(ext)
  {}

  lemma {:induction false} BranchEntriesRead(entries: seq<BranchEntry>)
    ensures ParseEach(ParseBranchEntry, Array(Apply(BranchEntryValue, entries))) == Ok(entries)
    ensures IsCanonical(Array(Apply(BranchEntryValue, entries)))
  {
    forall e | e in entries
      ensures ParseBranchEntry(BranchEntryValue(e)) == Ok(e) && IsCanonical(BranchEntryValue(e))
    {
      BranchEntryRoundTrip(e);
    }
    EntriesRoundTrip(ParseBranchEntry, BranchEntryValue, entries);
  }

  lemma {:induction false} CanonicalLeafEntriesRead(entries: seq<LeafEntry>)
    requires forall i :: 0 <= i < |entries| ==> IsCanonicalMap(entries[i].metadata)
    ensures ParseEach(ParseLeafEntry, Array(Apply(LeafEntryValue, entries))) == Ok(entries)
    ensures IsCanonical(Array(Apply(LeafEntryValue, entries)))
  {
    forall e | e in entries
      ensures ParseLeafEntry(LeafEntryValue(e)) == Ok(e) && IsCanonical(LeafEntryValue(e))
    {
      LeafEntryRoundTrip(e);
    }
    EntriesRoundTrip(ParseLeafEntry, LeafEntryValue, entries);
  }

  lemma {:induction false} BranchRestNormalizes(level: U64, spec: EmbeddingSpec, parts: BranchParts, fields: Fields)
    requires EXT_KEY !in fields
    ensures NormalizeBranchRest(level, spec, Array(Apply(BranchEntryValue, parts.entries)), ExtField(fields, parts.ext))
         == match NormalizeBranchParts(spec, parts)
            case Err(error) => Err(error)
            case Ok(normal) => Ok(BranchContent(level, spec, normal))
  {
    var items := Array(Apply(BranchEntryValue, parts.entries));
    BranchEntriesRead(parts.entries);
    assert ParseEach(ParseBranchEntry, items) == Ok(parts.entries);
    ExtReads(fields, parts.ext);
    BranchExtNormalizesOnce(spec, parts);
  }

  /** Reading the extension map already normalizes it; normalizing it again changes nothing. */
  lemma {:induction false} BranchExtNormalizesOnce(spec: EmbeddingSpec, parts: BranchParts)
    ensures NormalizeOptionalMap(parts.ext).Err? ==>
      NormalizeBranchParts(spec, parts) == Err(NormalizeOptionalMap(parts.ext).error)
    ensures NormalizeOptionalMap(parts.ext).Ok? ==>
      NormalizeBranchParts(spec, parts.(ext := NormalizeOptionalMap(parts.ext).value))
      == NormalizeBranchParts(spec, parts)
  {
    if NormalizeOptionalMap(parts.ext).Ok? {
      NormalizedExt(parts.ext);
    }
  }

  function BranchFields(level: U64, spec: EmbeddingSpec, parts: BranchParts): Fields {
    ExtField(map[LEVEL_KEY := Int(level), EMBEDDING_SPEC_KEY := SpecValue(spec),
                 ENTRIES_KEY := Array(Apply(BranchEntryValue, parts.entries))], parts.ext)
  }

  lemma BranchFieldsRead(level: U64, spec: EmbeddingSpec, parts: BranchParts)
    ensures var fields := BranchFields(level, spec, parts);
      && IntegerKeyedMap(BranchContent(level, spec, parts)) == Ok(fields)
      && fields.Keys <= {LEVEL_KEY, EMBEDDING_SPEC_KEY, ENTRIES_KEY, EXT_KEY}
      && LEVEL_KEY in fields && fields[LEVEL_KEY] == Int(level)
      && EMBEDDING_SPEC_KEY in fields && fields[EMBEDDING_SPEC_KEY] == SpecValue(spec)
      && ENTRIES_KEY in fields && fields[ENTRIES_KEY] == Array(Apply(BranchEntryValue, parts.entries))
      && ParseExt(fields) == NormalizeOptionalMap(parts.ext)
  {
    var entries := Array(Apply(BranchEntryValue, parts.entries));
    var fields := map[LEVEL_KEY := Int(level), EMBEDDING_SPEC_KEY := SpecValue(spec), ENTRIES_KEY := entries];
    BranchPairsRead(level, SpecValue(spec), entries, parts.ext);
    ExtReads(fields, parts.ext);
    ExtFieldKeeps(fields, parts.ext);
  }

  lemma {:induction false} BranchContentReads(level: U64, spec: EmbeddingSpec, parts: BranchParts)
    ensures NormalizeBranchContent(BranchContent(level, spec, parts))
         == if level == 0 then Err(InvalidBlockLevel(level))
            else if ValidateSpec(spec).Err? then Err(NonConforming)
            else NormalizeBranchRest(level, spec, Array(Apply(BranchEntryValue, parts.entries)),
                                     BranchFields(level, spec, parts))
  {
    BranchFieldsRead(level, spec, parts);
    SpecRoundTrip(spec);
    BranchFieldsNormalize(BranchContent(level, spec, parts), level, SpecValue(spec), spec,
                          Array(Apply(BranchEntryValue, parts.entries)), BranchFields(level, spec, parts));
  }

  /** A branch built from its parts has the normal form of those parts as its content. */
  lemma {:induction false} BranchContentNormalizes(level: U64, spec: EmbeddingSpec, parts: BranchParts)
    ensures var r := NormalizeBranchContent(BranchContent(level, spec, parts));
      if level > 0 && ValidateSpec(spec).Ok? && NormalizeBranchParts(spec, parts).Ok?
      then r == Ok(BranchContent(level, spec, NormalizeBranchParts(spec, parts).value)) else r.Err?
  {
    BranchContentReads(level, spec, parts);
    BranchRestNormalizes(level, spec, parts,
                         map[LEVEL_KEY := Int(level), EMBEDDING_SPEC_KEY := SpecValue(spec),
                             ENTRIES_KEY := Array(Apply(BranchEntryValue, parts.entries))]);
  }

  lemma {:induction false} ExtFieldKeeps(fields: Fields, ext: Option<seq<Pair>>)
    requires EXT_KEY !in fields
    ensures ExtField(fields, ext).Keys <= fields.Keys + {EXT_KEY}
    ensures forall k :: k in fields ==> k in ExtField(fields, ext) && ExtField(fields, ext)[k] == fields[k]
  {}

  lemma {:induction false} BranchFieldsNormalize(content: Value, level: U64, specValue: Value, spec: EmbeddingSpec,
                                                 entries: Value,
                              fields: Fields)
    requires IntegerKeyedMap(content) == Ok(fields) && ParseSpec(specValue) == Ok(spec)
    requires fields.Keys <= {LEVEL_KEY, EMBEDDING_SPEC_KEY, ENTRIES_KEY, EXT_KEY}
    requires LEVEL_KEY in fields && fields[LEVEL_KEY] == Int(level)
    requires EMBEDDING_SPEC_KEY in fields && fields[EMBEDDING_SPEC_KEY] == specValue
    requires ENTRIES_KEY in fields && fields[ENTRIES_KEY] == entries
    ensures NormalizeBranchContent(content)
         == if level == 0 then Err(InvalidBlockLevel(level))
            else if ValidateSpec(spec).Err? then Err(NonConforming)
            else NormalizeBranchRest(level, spec, entries, fields)
  {}

  lemma {:induction false} LeafEntriesRead(entries: seq<LeafEntry>)
    requires |entries| == 1
    ensures ParseEach(ParseLeafEntry, Array(Apply(LeafEntryValue, entries)))
         == match NormalizeMap(entries[0].metadata)
            case Err(error) => Err(error)
            case Ok(metadata) => Ok([entries[0].(metadata := metadata)])
  {
    var items := Apply(LeafEntryValue, entries);
    var results := Apply(ParseLeafEntry, items);
    LeafEntryRoundTrip(entries[0]);
    assert results == [ParseLeafEntry(LeafEntryValue(entries[0]))];
    CollectOne(ParseLeafEntry(LeafEntryValue(entries[0])));
  }

  lemma {:induction false} MetadataNormalizesOnce(parts: LeafParts)
    requires |parts.entries| == 1 && NormalizeMap(parts.entries[0].metadata).Ok? && NormalizeOptionalMap(parts.ext).Ok?
    ensures var metadata := NormalizeMap(parts.entries[0].metadata).value;
      NormalizeLeafParts(LeafParts([parts.entries[0].(metadata := metadata)], NormalizeOptionalMap(parts.ext).value))
      == NormalizeLeafParts(parts)
  {
    NormalizedExt(parts.ext);
    NormalizedMapIsCanonical(parts.entries[0].metadata);
  }

  lemma {:induction false} LeafRestNormalizes(spec: EmbeddingSpec, parts: LeafParts, fields: Fields)
    requires EXT_KEY !in fields
    ensures var r := NormalizeLeafRest(spec, Array(Apply(LeafEntryValue, parts.entries)), ExtField(fields, parts.ext));
      if NormalizeLeafParts(parts).Ok? then r == Ok(LeafContent(spec, NormalizeLeafParts(parts).value)) else r.Err?
  {
    ExtReads(fields, parts.ext);
    if |parts.entries| == 1 {
      LeafEntriesRead(parts.entries);
      if NormalizeMap(parts.entries[0].metadata).Ok? && NormalizeOptionalMap(parts.ext).Ok? {
        MetadataNormalizesOnce(parts);
      }
    }
  }

  lemma {:induction false} LeafFieldsNormalize(content: Value, specValue: Value, spec: EmbeddingSpec, entries: Value,
                                               fields: Fields)
    requires IntegerKeyedMap(content) == Ok(fields) && ParseSpec(specValue) == Ok(spec)
    requires fields.Keys <= {EMBEDDING_SPEC_KEY, ENTRIES_KEY, EXT_KEY}
    requires EMBEDDING_SPEC_KEY in fields && fields[EMBEDDING_SPEC_KEY] == specValue
    requires ENTRIES_KEY in fields && fields[ENTRIES_KEY] == entries
    ensures NormalizeLeafContent(content)
         == if ValidateSpec(spec).Err? || EbcpDescriptor.IsEbcpEncoding(spec.encoding) then Err(NonConforming)
            else NormalizeLeafRest(spec, entries, fields)
  {}

  predicate IsLeafSpec(spec: EmbeddingSpec) {
    ValidateSpec(spec).Ok? && !EbcpDescriptor.IsEbcpEncoding(spec.encoding)
  }

  function LeafFields(spec: EmbeddingSpec, parts: LeafParts): Fields {
    ExtField(map[EMBEDDING_SPEC_KEY := SpecValue(spec), ENTRIES_KEY := Array(Apply(LeafEntryValue, parts.entries))],
             parts.ext)
  }

  lemma LeafFieldsRead(spec: EmbeddingSpec, parts: LeafParts)
    ensures var fields := LeafFields(spec, parts);
      && IntegerKeyedMap(LeafContent(spec, parts)) == Ok(fields)
      && fields.Keys <= {EMBEDDING_SPEC_KEY, ENTRIES_KEY, EXT_KEY}
      && EMBEDDING_SPEC_KEY in fields && fields[EMBEDDING_SPEC_KEY] == SpecValue(spec)
      && ENTRIES_KEY in fields && fields[ENTRIES_KEY] == Array(Apply(LeafEntryValue, parts.entries))
      && ParseExt(fields) == NormalizeOptionalMap(parts.ext)
  {
    var entries := Array(Apply(LeafEntryValue, parts.entries));
    var fields := map[EMBEDDING_SPEC_KEY := SpecValue(spec), ENTRIES_KEY := entries];
    LeafPairsRead(SpecValue(spec), entries, parts.ext);
    ExtReads(fields, parts.ext);
    ExtFieldKeeps(fields, parts.ext);
  }

  /** A leaf built from its parts has the normal form of those parts as its content. */
  lemma {:induction false} LeafContentNormalizes(spec: EmbeddingSpec, parts: LeafParts)
    ensures var r := NormalizeLeafContent(LeafContent(spec, parts));
      if IsLeafSpec(spec) && NormalizeLeafParts(parts).Ok?
      then r == Ok(LeafContent(spec, NormalizeLeafParts(parts).value)) else r.Err?
  {
    var entries := Array(Apply(LeafEntryValue, parts.entries));
    LeafFieldsRead(spec, parts);
    SpecRoundTrip(spec);
    LeafRestNormalizes(spec, parts, map[EMBEDDING_SPEC_KEY := SpecValue(spec), ENTRIES_KEY := entries]);
    LeafFieldsNormalize(LeafContent(spec, parts), SpecValue(spec), spec, entries, LeafFields(spec, parts));
  }

  // Every normalized content is the content of normal parts.

  ghost predicate NormalBranch(level: U64, spec: EmbeddingSpec, parts: BranchParts) {
    level > 0 && ValidateSpec(spec).Ok? && NormalizeBranchParts(spec, parts) == Ok(parts) && IsCanonicalExt(parts.ext)
  }

  ghost predicate NormalLeaf(spec: EmbeddingSpec, parts: LeafParts) {
    && IsLeafSpec(spec) && NormalizeLeafParts(parts) == Ok(parts) && IsCanonicalExt(parts.ext)
    && |parts.entries| == 1 && IsCanonicalMap(parts.entries[0].metadata)
  }

  lemma {:induction false} BranchContentShape(content: Value)
    returns (level: U64, spec: EmbeddingSpec, parts: BranchParts)
    requires NormalizeBranchContent(content).Ok?
    ensures NormalizeBranchContent(content) == Ok(BranchContent(level, spec, parts)) && NormalBranch(level, spec, parts)
  {
    var fields := IntegerKeyedMap(content).value;
    level := RequiredU64(fields, LEVEL_KEY).value;
    spec := ParseSpec(fields[EMBEDDING_SPEC_KEY]).value;
    var entries := ParseEach(ParseBranchEntry, fields[ENTRIES_KEY]).value;
    var raw := BranchParts(entries, ParseExt(fields).value);
    parts := NormalizeBranchParts(spec, raw).value;
    BranchPartsIdempotent(spec, raw);
  }

  lemma {:induction false} LeafContentShape(content: Value) returns (spec: EmbeddingSpec, parts: LeafParts)
    requires NormalizeLeafContent(content).Ok?
    ensures NormalizeLeafContent(content) == Ok(LeafContent(spec, parts)) && NormalLeaf(spec, parts)
  {
    var fields := IntegerKeyedMap(content).value;
    spec := ParseSpec(fields[EMBEDDING_SPEC_KEY]).value;
    var entries := ParseEach(ParseLeafEntry, fields[ENTRIES_KEY]).value;
    var raw := LeafParts(entries, ParseExt(fields).value);
    parts := NormalizeLeafParts(raw).value;
    LeafPartsIdempotent(raw);
  }

  lemma {:induction false} BranchContentIsCanonical(level: U64, spec: EmbeddingSpec, parts: BranchParts)
    requires IsCanonicalExt(parts.ext)
    ensures IsCanonical(BranchContent(level, spec, parts))
  {
    SpecRoundTrip(spec);
    BranchEntriesRead(parts.entries);
    BranchPairsRead(level, SpecValue(spec), Array(Apply(BranchEntryValue, parts.entries)), parts.ext);
  }

  lemma {:induction false} LeafFieldsAreCanonical(spec: EmbeddingSpec, entries: seq<LeafEntry>, ext: Option<seq<Pair>>)
    requires IsCanonicalExt(ext) && forall i :: 0 <= i < |entries| ==> IsCanonicalMap(entries[i].metadata)
    ensures IsCanonicalMap(LeafPairs(SpecValue(spec), Array(Apply(LeafEntryValue, entries)), ext))
  {
    SpecRoundTrip(spec);
    CanonicalLeafEntriesRead(entries);
    LeafPairsRead(SpecValue(spec), Array(Apply(LeafEntryValue, entries)), ext);
  }

  lemma {:induction false} LeafContentIsCanonical(spec: EmbeddingSpec, parts: LeafParts)
    requires NormalLeaf(spec, parts)
    ensures IsCanonical(LeafContent(spec, parts))
  {
    LeafFieldsAreCanonical(spec, parts.entries, parts.ext);
  }

  lemma {:induction false} NormalContent(typeName: seq<Byte>, content: Value)
    requires NormalizeContent(typeName, content).Ok?
    ensures var normal := NormalizeContent(typeName, content).value;
      IsCanonical(normal) && NormalizeContent(typeName, normal) == Ok(normal)
  {
    TypeNamesDiffer();
    if typeName == BRANCH_TYPE {
      var level, spec, parts := BranchContentShape(content);
      BranchContentIsCanonical(level, spec, parts);
      BranchContentNormalizes(level, spec, parts);
    } else if typeName == LEAF_TYPE {
      var spec, parts := LeafContentShape(content);
      LeafContentIsCanonical(spec, parts);
      LeafContentNormalizes(spec, parts);
    } else {
      CanonicalizeIsIdempotent(content);
    }
  }

  /** Normalizing twice is normalizing once. */
  lemma {:induction false} NormalizeIsIdempotent(block: Block)
    requires Normalize(block).Ok?
    ensures IsNormal(Normalize(block).value) && IsCanonical(Normalize(block).value.content)
  {
    NormalContent(block.typeName, block.content);
  }

  // Main results.

  /** Parsing the value of a normal block gives the block. */
  lemma {:induction false} ParseRoundTrip(block: Block)
    requires IsNormal(block) && IsCanonical(block.content)
    ensures BlockValue(block).Ok? && ParseBlock(BlockValue(block).value) == Ok(block)
  {
    var all := map[VERSION_KEY := Int(block.version), TYPE_KEY := Text(block.typeName), CONTENT_KEY := block.content];
    FieldsRead([Field(VERSION_KEY, Int(block.version)), Field(TYPE_KEY, Text(block.typeName)),
                Field(CONTENT_KEY, block.content)], all);
    FieldsParse(all, block);
  }

  lemma {:induction false} FieldsParse(all: Fields, block: Block)
    requires all == map[VERSION_KEY := Int(block.version), TYPE_KEY := Text(block.typeName),
                        CONTENT_KEY := block.content]
    requires block.version == VERSION_2
    ensures ParseFields(all) == Normalize(block)
  {
    var fields := all - {VERSION_KEY};
    assert fields.Keys <= {TYPE_KEY, CONTENT_KEY};
    assert fields[TYPE_KEY] == Text(block.typeName) && fields[CONTENT_KEY] == block.content;
  }

  /** Whatever serializes is read back as its normal form. */
  lemma {:induction false} DeserializeSerialize(hash: seq<Byte> -> BlockHash, block: Block)
    requires Serialize(block).Ok? && |Serialize(block).value| <= USIZE_MAX
    ensures var bytes := Serialize(block).value;
      Deserialize(hash, bytes, hash(bytes)) == Normalize(block)
  {
    var normal := Normalize(block).value;
    NormalizeIsIdempotent(block);
    ParseRoundTrip(normal);
    DecodeEncode(BlockValue(normal).value);
  }

  /** The extension map comes last, when there is one. */
  function ExtPairs(ext: Option<seq<Pair>>): seq<Pair> {
    match ext case None => [] case Some(present) => [Pair(Int(15), Map(present))]
  }

  /** The content of a branch maps 1 to the level, 2 to the specification, 3 to the entries; a leaf has no level. */
  lemma ContentLayouts(level: U64, spec: EmbeddingSpec, branch: BranchParts, leaf: LeafParts)
    ensures BranchContent(level, spec, branch)
         == Map([Pair(Int(1), Int(level)), Pair(Int(2), SpecValue(spec)),
                 Pair(Int(3), Array(Apply(BranchEntryValue, branch.entries)))] + ExtPairs(branch.ext))
    ensures LeafContent(spec, leaf)
         == Map([Pair(Int(2), SpecValue(spec)), Pair(Int(3), Array(Apply(LeafEntryValue, leaf.entries)))]
                + ExtPairs(leaf.ext))
  {}

  /** What is written: a map from 0 to the version, 1 to the type name, 2 to the normal content. */
  lemma {:induction false} SerializedLayout(block: Block)
    requires Normalize(block).Ok?
    ensures Serialize(block)
         == Ok(Encode(Map([Pair(Int(0), Int(2)), Pair(Int(1), Text(block.typeName)),
                           Pair(Int(2), Normalize(block).value.content)])))
  {
    var normal := Normalize(block).value;
    NormalizeIsIdempotent(block);
    var fields := [Field(VERSION_KEY, Int(normal.version)), Field(TYPE_KEY, Text(normal.typeName)),
                   Field(CONTENT_KEY, normal.content)];
    FieldsRead(fields, map[VERSION_KEY := Int(normal.version), TYPE_KEY := Text(normal.typeName),
                           CONTENT_KEY := normal.content]);
    assert BlockPairs(normal) == fields;
    assert IsCanonical(Map(fields));
  }

  /** The names of the two types with a fixed content; any other name stands for custom content. */
  lemma TypeNames()
    ensures BRANCH_TYPE == [98, 114, 97, 110, 99, 104] && LEAF_TYPE == [108, 101, 97, 102]
  {}

  lemma {:induction false} ParsedBlockIsNormal(v: Value)
    requires ParseBlock(v).Ok?
    ensures IsNormal(ParseBlock(v).value)
  {
    var all := IntegerKeyedMap(v).value;
    var fields := all - {VERSION_KEY};
    NormalizeIsIdempotent(Block(RequiredU64(all, VERSION_KEY).value, RequiredText(fields, TYPE_KEY).value,
                                fields[CONTENT_KEY]));
  }

  /** What is accepted is the serialization of the block returned, which is already in normal form. */
  lemma {:induction false} AcceptedIsSerialized(hash: seq<Byte> -> BlockHash, bytes: seq<Byte>, expected: BlockHash)
    requires Deserialize(hash, bytes, expected).Ok?
    ensures var block := Deserialize(hash, bytes, expected).value;
      IsNormal(block) && Serialize(block) == Ok(bytes)
  {
    ParsedBlockIsNormal(Decode(bytes).value);
  }

  /** The parser accepts exactly the serializations, under the hash of their bytes. */
  lemma {:induction false} AcceptsExactlySerializations(hash: seq<Byte> -> BlockHash, bytes: seq<Byte>,
                                                        expected: BlockHash)
    requires |bytes| <= USIZE_MAX
    ensures Deserialize(hash, bytes, expected).Ok?
       <==> hash(bytes) == expected && exists block :: Serialize(block) == Ok(bytes)
  {
    if Deserialize(hash, bytes, expected).Ok? {
      AcceptedIsSerialized(hash, bytes, expected);
    }
    if hash(bytes) == expected && exists block :: Serialize(block) == Ok(bytes) {
      var block :| Serialize(block) == Ok(bytes);
      DeserializeSerialize(hash, block);
    }
  }

  /** A branch that could be built classifies as its normalized parts. */
  lemma {:induction false} ClassifyBuiltBranch(level: U64, spec: EmbeddingSpec, parts: BranchParts)
    ensures BuildBranch(level, spec, parts).Ok?
       <==> level > 0 && ValidateSpec(spec).Ok? && NormalizeBranchParts(spec, parts).Ok?
    ensures BuildBranch(level, spec, parts).Ok? ==>
      Classify(BuildBranch(level, spec, parts).value)
      == Ok(TypedBranch(level, spec, NormalizeBranchParts(spec, parts).value))
  {
    TypeNamesDiffer();
    BranchContentNormalizes(level, spec, parts);
    if BuildBranch(level, spec, parts).Ok? {
      BranchPartsIdempotent(spec, parts);
      ClassifyBranchContent(level, spec, NormalizeBranchParts(spec, parts).value);
    }
  }

  lemma BranchFieldsClassify(content: Value, level: U64, specValue: Value, spec: EmbeddingSpec, entriesValue: Value,
                             parts: BranchParts, fields: Fields)
    requires IntegerKeyedMap(content) == Ok(fields) && ParseSpec(specValue) == Ok(spec)
    requires ParseEach(ParseBranchEntry, entriesValue) == Ok(parts.entries) && ParseExt(fields) == Ok(parts.ext)
    requires LEVEL_KEY in fields && fields[LEVEL_KEY] == Int(level)
    requires EMBEDDING_SPEC_KEY in fields && fields[EMBEDDING_SPEC_KEY] == specValue
    requires ENTRIES_KEY in fields && fields[ENTRIES_KEY] == entriesValue
    ensures ClassifyBranch(content) == Ok(TypedBranch(level, spec, parts))
  {}

  lemma {:induction false} ClassifyBranchContent(level: U64, spec: EmbeddingSpec, parts: BranchParts)
    requires IsCanonicalExt(parts.ext)
    ensures ClassifyBranch(BranchContent(level, spec, parts)) == Ok(TypedBranch(level, spec, parts))
  {
    BranchFieldsRead(level, spec, parts);
    SpecRoundTrip(spec);
    BranchEntriesRead(parts.entries);
    BranchFieldsClassify(BranchContent(level, spec, parts), level, SpecValue(spec), spec,
                         Array(Apply(BranchEntryValue, parts.entries)), parts, BranchFields(level, spec, parts));
  }

  /** A leaf that could be built classifies as its normalized parts. */
  lemma {:induction false} ClassifyBuiltLeaf(spec: EmbeddingSpec, parts: LeafParts)
    ensures BuildLeaf(spec, parts).Ok? <==> IsLeafSpec(spec) && NormalizeLeafParts(parts).Ok?
    ensures BuildLeaf(spec, parts).Ok? ==>
      Classify(BuildLeaf(spec, parts).value) == Ok(TypedLeaf(spec, NormalizeLeafParts(parts).value))
  {
    TypeNamesDiffer();
    LeafContentNormalizes(spec, parts);
    if BuildLeaf(spec, parts).Ok? {
      LeafPartsIdempotent(parts);
      ClassifyLeafContent(spec, NormalizeLeafParts(parts).value);
    }
  }

  lemma {:induction false} ClassifyLeafContent(spec: EmbeddingSpec, parts: LeafParts)
    requires NormalLeaf(spec, parts)
    ensures ClassifyLeaf(LeafContent(spec, parts)) == Ok(TypedLeaf(spec, parts))
  {
    LeafFieldsRead(spec, parts);
    SpecRoundTrip(spec);
    CanonicalLeafEntriesRead(parts.entries);
  }

  function Rebuild(typed: TypedBlock): Result<Block, BlockError> {
    match typed
    case TypedBranch(level, spec, parts) => BuildBranch(level, spec, parts)
    case TypedLeaf(spec, parts) => BuildLeaf(spec, parts)
    case Custom(typeName, content) => BuildCustom(typeName, content)
  }

  /** Every normal block has a typed view, and building from the view gives the block back. */
  lemma {:induction false} RebuildClassified(block: Block)
    requires IsNormal(block)
    ensures Classify(block).Ok? && Rebuild(Classify(block).value) == Ok(block)
  {
    TypeNamesDiffer();
    if block.typeName == BRANCH_TYPE {
      var level, spec, parts := BranchContentShape(block.content);
      ClassifyBranchContent(level, spec, parts);
    } else if block.typeName == LEAF_TYPE {
      var spec, parts := LeafContentShape(block.content);
      ClassifyLeafContent(spec, parts);
    }
  }

  // Order does not matter.

  lemma {:induction false} BuildBranchIgnoresOrder(level: U64, spec: EmbeddingSpec, a: BranchParts, b: BranchParts)
    requires multiset(a.entries) == multiset(b.entries) && ReorderedExt(a.ext, b.ext)
    ensures BuildBranch(level, spec, a).Ok? <==> BuildBranch(level, spec, b).Ok?
    ensures BuildBranch(level, spec, a).Ok? ==> BuildBranch(level, spec, a) == BuildBranch(level, spec, b)
  {
    TypeNamesDiffer();
    BranchPartsIgnoreOrder(spec, a, b);
    BranchContentNormalizes(level, spec, a);
    BranchContentNormalizes(level, spec, b);
  }

  lemma {:induction false} BuildLeafIgnoresOrder(spec: EmbeddingSpec, a: LeafParts, b: LeafParts)
    requires ReorderedLeafEntries(a.entries, b.entries) && ReorderedExt(a.ext, b.ext)
    ensures BuildLeaf(spec, a).Ok? <==> BuildLeaf(spec, b).Ok?
    ensures BuildLeaf(spec, a).Ok? ==> BuildLeaf(spec, a) == BuildLeaf(spec, b)
  {
    TypeNamesDiffer();
    LeafPartsIgnoreOrder(a, b);
    LeafContentNormalizes(spec, a);
    LeafContentNormalizes(spec, b);
  }

  lemma {:induction false} CustomIgnoresOrder(typeName: seq<Byte>, a: Value, b: Value)
    requires typeName != BRANCH_TYPE && typeName != LEAF_TYPE && Reordered(a, b)
    ensures Serialize(Block(VERSION_2, typeName, a)) == Serialize(Block(VERSION_2, typeName, b))
  {
    ReorderedValues(a, b);
  }
}
