/**
 Blocks of either version behind one reader: the version field decides which
 parser runs.
 */
module VersionedBlock {
  import opened Wrappers
  import opened Machine
  import opened BlockBasics
  import opened Cbor
  import opened BlockFields
  import BlockV1
  import BlockV2

  datatype Block = V1(v1: BlockV1.Block) | V2(v2: BlockV2.Block)

  const VERSION_KEY := 0

  /** Looks for the version among the remaining pairs; every key must be an unsigned integer. */
  function DetectFrom(pairs: seq<Pair>, version: Option<U64>): Result<U64, BlockError> {
    if pairs == [] then
      (match version case None => Err(MissingField(VERSION_KEY)) case Some(n) => Ok(n))
    else if !pairs[0].key.Int? || pairs[0].key.n < 0 then Err(InvalidFieldKey)
    else if pairs[0].key.n != VERSION_KEY then DetectFrom(pairs[1..], version)
    else if version.Some? then Err(NonConforming)
    else if !pairs[0].value.Int? || pairs[0].value.n < 0 then Err(InvalidEntryShape)
    else DetectFrom(pairs[1..], Some(pairs[0].value.n))
  }

  function DetectVersion(v: Value): Result<U64, BlockError> {
    if v.Map? then DetectFrom(v.pairs, None) else Err(InvalidEntryShape)
  }

  function Serialize(block: Block): Result<seq<Byte>, BlockError> {
    match block
    case V1(v1) => BlockV1.Serialize(v1)
    case V2(v2) => BlockV2.Serialize(v2)
  }

  function Normalize(block: Block): Result<Block, BlockError> {
    match block
    case V1(v1) =>
      var normal :- BlockV1.Normalize(v1);
      Ok(V1(normal))
    case V2(v2) =>
      var normal :- BlockV2.Normalize(v2);
      Ok(V2(normal))
  }

  function DeserializeValue(v: Value, bytes: seq<Byte>): Result<Block, BlockError> {
    var version :- DetectVersion(v);
    if version == BlockV1.VERSION_1 then
      var block :- BlockV1.DeserializeValue(v, bytes);
      Ok(V1(block))
    else if version == BlockV2.VERSION_2 then
      var block :- BlockV2.DeserializeValue(v, bytes);
      Ok(V2(block))
    else Err(UnsupportedVersion(version))
  }

  function Deserialize(hash: seq<Byte> -> BlockHash, bytes: seq<Byte>, expected: BlockHash): Result<Block, BlockError> {
    if hash(bytes) != expected then Err(HashMismatch)
    else
      match Decode(bytes)
      case None => Err(MalformedCbor)
      case Some(v) => DeserializeValue(v, bytes)
  }

  // The detector agrees with the parsers.

  lemma {:induction false} CollectedStay(pairs: seq<Pair>, fields: Fields, all: Fields)
    requires CollectFields(pairs, fields) == Ok(all)
    ensures forall k :: k in fields ==> k in all && all[k] == fields[k]
    decreases |pairs|
  {
    if pairs != [] {
      CollectedStay(pairs[1..], fields[pairs[0].key.n := pairs[0].value], all);
    }
  }

  lemma {:induction false} DetectsCollected(pairs: seq<Pair>, fields: Fields, all: Fields, version: Option<U64>)
    requires CollectFields(pairs, fields) == Ok(all)
    requires VERSION_KEY in all && all[VERSION_KEY].Int? && all[VERSION_KEY].n >= 0
    requires version == if VERSION_KEY in fields then Some(all[VERSION_KEY].n) else None
    ensures DetectFrom(pairs, version) == Ok(all[VERSION_KEY].n)
    decreases |pairs|
  {
    if pairs != [] {
      var next := fields[pairs[0].key.n := pairs[0].value];
      CollectedStay(pairs[1..], next, all);
      DetectsCollected(pairs[1..], next, all, if VERSION_KEY in next then Some(all[VERSION_KEY].n) else None);
    }
  }

  lemma {:induction false} DetectsField(v: Value, fields: Fields)
    requires IntegerKeyedMap(v) == Ok(fields) && RequiredU64(fields, VERSION_KEY).Ok?
    ensures DetectVersion(v) == RequiredU64(fields, VERSION_KEY)
  {
    DetectsCollected(v.pairs, map[], fields, None);
  }

  lemma {:induction false} ParsedVersion(v: Value)
    ensures BlockV1.ParseBlock(v).Ok? ==> DetectVersion(v) == Ok(BlockV1.VERSION_1)
    ensures BlockV2.ParseBlock(v).Ok? ==> DetectVersion(v) == Ok(BlockV2.VERSION_2)
  {
    if BlockV1.ParseBlock(v).Ok? || BlockV2.ParseBlock(v).Ok? {
      DetectsField(v, IntegerKeyedMap(v).value);
    }
  }

  // Main results.

  /** Whatever serializes is read back as its normal form, in its own version. */
  lemma {:induction false} DeserializeSerialize(hash: seq<Byte> -> BlockHash, block: Block)
    requires Serialize(block).Ok? && |Serialize(block).value| <= USIZE_MAX
    ensures var bytes := Serialize(block).value;
      Deserialize(hash, bytes, hash(bytes)) == Normalize(block)
  {
    var bytes := Serialize(block).value;
    if block.V1? {
      BlockV1.DeserializeSerialize(hash, block.v1);
    } else {
      BlockV2.DeserializeSerialize(hash, block.v2);
    }
    ParsedVersion(Decode(bytes).value);
  }

  /** The reader accepts exactly the serializations of either version, under the hash of their bytes. */
  lemma {:induction false} AcceptsExactlySerializations(hash: seq<Byte> -> BlockHash, bytes: seq<Byte>,
                                                        expected: BlockHash)
    requires |bytes| <= USIZE_MAX
    ensures Deserialize(hash, bytes, expected).Ok?
       <==> hash(bytes) == expected && exists block :: Serialize(block) == Ok(bytes)
  {
    if Deserialize(hash, bytes, expected).Ok? {
      var v := Decode(bytes).value;
      if DetectVersion(v) == Ok(BlockV1.VERSION_1) {
        BlockV1.AcceptedIsSerialized(hash, bytes, expected);
        assert Serialize(V1(BlockV1.Deserialize(hash, bytes, expected).value)) == Ok(bytes);
      } else {
        BlockV2.AcceptedIsSerialized(hash, bytes, expected);
        assert Serialize(V2(BlockV2.Deserialize(hash, bytes, expected).value)) == Ok(bytes);
      }
    }
    if hash(bytes) == expected && exists block :: Serialize(block) == Ok(bytes) {
      var block :| Serialize(block) == Ok(bytes);
      DeserializeSerialize(hash, block);
    }
  }

  /** Blocks share their bytes exactly when they have the same normal form; versions never mix. */
  lemma {:induction false} SameBytesSameBlock(a: Block, b: Block)
    requires Serialize(a).Ok? && Serialize(b).Ok?
    requires |Serialize(a).value| <= USIZE_MAX && |Serialize(b).value| <= USIZE_MAX
    ensures Serialize(a) == Serialize(b) <==> Normalize(a) == Normalize(b)
  {
    var hash := (bytes: seq<Byte>) => BlockV1.ZeroHash();
    DeserializeSerialize(hash, a);
    DeserializeSerialize(hash, b);
  }
}
