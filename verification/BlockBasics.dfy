/** What every part of the block format shares: content hashes and the ways a block is refused. */
module BlockBasics {
  import opened Machine

  type BlockHash = hash: seq<Byte> | |hash| == 32 witness seq(32, _ => 0 as Byte)

  /** Text given by its ASCII characters. */
  function Ascii(text: string): (bytes: seq<Byte>)
    ensures |bytes| == |text|
  {
    seq(|text|, i requires 0 <= i < |text| => text[i] as int % 256)
  }

  datatype EmbeddingSpec = EmbeddingSpec(dims: U64, encoding: seq<Byte>)

  /** The messages that go with the errors are not modelled. */
  datatype BlockError =
    | HashMismatch
    | MalformedCbor
    | UnsupportedVersion(version: int)
    | InvalidFieldKey
    | MissingField(key: nat)
    | InvalidBlockLevel(level: int)
    | InvalidEntryShape
    | NonConforming
    | UnsupportedValue
}
