/** The part of CBOR (RFC 8949) that blocks use. The encoder always writes the shortest form of section 4.2.1. */
module Cbor {
  // Integers, byte and text strings, arrays, maps, booleans and null; the decoder also reads longer heads.

  import opened Wrappers
  import opened Machine

  const TWO_64 := 0x1_0000_0000_0000_0000

  type CborInt = n: int | -0x1_0000_0000_0000_0000 <= n < 0x1_0000_0000_0000_0000

  /** Text is kept as its UTF-8 bytes. */
  datatype Value =
    | Int(n: CborInt)
    | Bytes(bytes: seq<Byte>)
    | Text(utf8: seq<Byte>)
    | Array(items: seq<Value>)
    | Map(pairs: seq<Pair>)
    | Bool(b: bool)
    | Null

  datatype Pair = Pair(key: Value, value: Value)

  // Encoding.

  /** The last `width` bytes of `n`, most significant first. */
  function BigEndian(n: nat, width: nat): (bytes: seq<Byte>)
    ensures |bytes| == width
  {
    if width == 0 then [] else BigEndian(n / 256, width - 1) + [n % 256]
  }

  function Power256(width: nat): nat {
    if width == 0 then 1 else 256 * Power256(width - 1)
  }

  /** Major type and argument, in as few bytes as possible. */
  function Head(major: nat, n: nat): (head: seq<Byte>)
    requires major < 7
    ensures |head| > 0
  {
    if n < 24 then [major * 32 + n]
    else if n < 0x100 then [major * 32 + 24] + BigEndian(n, 1)
    else if n < 0x1_0000 then [major * 32 + 25] + BigEndian(n, 2)
    else if n < 0x1_0000_0000 then [major * 32 + 26] + BigEndian(n, 4)
    else [major * 32 + 27] + BigEndian(n, 8)
  }

  function Encode(v: Value): (bytes: seq<Byte>)
    ensures |bytes| > 0
    decreases v
  {
    match v
    case Int(n) => if n >= 0 then Head(0, n) else Head(1, -1 - n)
    case Bytes(bytes) => Head(2, |bytes|) + bytes
    case Text(utf8) => Head(3, |utf8|) + utf8
    case Array(items) => Head(4, |items|) + EncodeItems(items)
    case Map(pairs) => Head(5, |pairs|) + EncodePairs(pairs)
    case Bool(b) => if b then [0xF5] else [0xF4]
    case Null => [0xF6]
  }

  function EncodeItems(items: seq<Value>): (bytes: seq<Byte>)
    ensures |bytes| >= |items|
    decreases items
  {
    if items == [] then [] else Encode(items[0]) + EncodeItems(items[1..])
  }

  function EncodePairs(pairs: seq<Pair>): (bytes: seq<Byte>)
    ensures |bytes| >= |pairs|
    decreases pairs
  {
    if pairs == [] then [] else EncodePair(pairs[0]) + EncodePairs(pairs[1..])
  }

  function EncodePair(pair: Pair): (bytes: seq<Byte>)
    ensures |bytes| > 0
    decreases pair
  {
    Encode(pair.key) + Encode(pair.value)
  }

  // Decoding.

  datatype Read<+T> = Read(value: T, rest: seq<Byte>)

  function FromBigEndian(bytes: seq<Byte>): nat {
    if bytes == [] then 0 else FromBigEndian(bytes[..|bytes| - 1]) * 256 + bytes[|bytes| - 1]
  }

  function ReadWide(bytes: seq<Byte>, width: nat): Option<Read<nat>> {
    if |bytes| < width then None else Some(Read(FromBigEndian(bytes[..width]), bytes[width..]))
  }

  /** The argument of a head whose first byte ended in `info`. */
  function ReadArgument(info: nat, bytes: seq<Byte>): Option<Read<nat>> {
    if info < 24 then Some(Read(info, bytes))
    else if info == 24 then ReadWide(bytes, 1)
    else if info == 25 then ReadWide(bytes, 2)
    else if info == 26 then ReadWide(bytes, 4)
    else if info == 27 then ReadWide(bytes, 8)
    else None
  }

  function ReadString(length: nat, bytes: seq<Byte>): Option<Read<seq<Byte>>> {
    if |bytes| < length then None else Some(Read(bytes[..length], bytes[length..]))
  }

  function Simple(first: Byte): Option<Value> {
    if first == 0xF4 then Some(Bool(false))
    else if first == 0xF5 then Some(Bool(true))
    else if first == 0xF6 then Some(Null)
    else None
  }

  /** Reads one value off the front. */
  function ReadValue(bytes: seq<Byte>): (read: Option<Read<Value>>)
    ensures read.Some? ==> |read.value.rest| < |bytes|
    decreases |bytes|, 0
  {
    if bytes == [] then None
    else if bytes[0] >= 224 then
      (match Simple(bytes[0]) case None => None case Some(v) => Some(Read(v, bytes[1..])))
    else
      match ReadArgument(bytes[0] % 32, bytes[1..])
      case None => None
      case Some(Read(n, rest)) => ReadBody(bytes[0] / 32, n, rest, |bytes|)
  }

  function ReadBody(major: nat, n: nat, rest: seq<Byte>, limit: nat): (read: Option<Read<Value>>)
    requires |rest| < limit
    ensures read.Some? ==> |read.value.rest| < limit
    decreases |rest|, 2
  {
    if major == 0 then (if n < TWO_64 then Some(Read(Int(n), rest)) else None)
    else if major == 1 then (if n < TWO_64 then Some(Read(Int(-1 - n), rest)) else None)
    else if major == 2 then
      (match ReadString(n, rest) case None => None case Some(Read(s, more)) => Some(Read(Bytes(s), more)))
    else if major == 3 then
      (match ReadString(n, rest) case None => None case Some(Read(s, more)) => Some(Read(Text(s), more)))
    else if major == 4 then
      (match ReadItems(n, rest) case None => None case Some(Read(items, more)) => Some(Read(Array(items), more)))
    else if major == 5 then
      (match ReadPairs(n, rest) case None => None case Some(Read(pairs, more)) => Some(Read(Map(pairs), more)))
    else None
  }

  function ReadItems(count: nat, bytes: seq<Byte>): (read: Option<Read<seq<Value>>>)
    ensures read.Some? ==> |read.value.rest| <= |bytes|
    decreases |bytes|, 1
  {
    if count == 0 then Some(Read([], bytes))
    else
      match ReadValue(bytes)
      case None => None
      case Some(Read(item, rest)) =>
        match ReadItems(count - 1, rest)
        case None => None
        case Some(Read(items, more)) => Some(Read([item] + items, more))
  }

  function ReadPairs(count: nat, bytes: seq<Byte>): (read: Option<Read<seq<Pair>>>)
    ensures read.Some? ==> |read.value.rest| <= |bytes|
    decreases |bytes|, 1
  {
    if count == 0 then Some(Read([], bytes))
    else
      match ReadValue(bytes)
      case None => None
      case Some(Read(key, rest)) =>
        match ReadValue(rest)
        case None => None
        case Some(Read(value, rest')) =>
          match ReadPairs(count - 1, rest')
          case None => None
          case Some(Read(pairs, more)) => Some(Read([Pair(key, value)] + pairs, more))
  }

  /** Exactly one value, nothing behind it. */
  function Decode(bytes: seq<Byte>): Option<Value> {
    match ReadValue(bytes)
    case None => None
    case Some(Read(v, rest)) => if rest == [] then Some(v) else None
  }

  // Decoding undoes encoding.

  lemma {:induction false} BigEndianRoundTrip(n: nat, width: nat)
    requires n < Power256(width)
    ensures FromBigEndian(BigEndian(n, width)) == n
  {
    if width > 0 {
      BigEndianRoundTrip(n / 256, width - 1);
      assert BigEndian(n, width)[..width - 1] == BigEndian(n / 256, width - 1);
    }
  }

  lemma WideRoundTrip(n: nat, width: nat, rest: seq<Byte>)
    requires n < Power256(width)
    ensures ReadWide(BigEndian(n, width) + rest, width) == Some(Read(n, rest))
  {
    BigEndianRoundTrip(n, width);
    assert (BigEndian(n, width) + rest)[..width] == BigEndian(n, width);
    assert (BigEndian(n, width) + rest)[width..] == rest;
  }

  lemma Powers()
    ensures Power256(1) == 0x100 && Power256(2) == 0x1_0000 && Power256(4) == 0x1_0000_0000
    ensures Power256(8) == TWO_64
  {
    assert Power256(4) == 0x1_0000_0000;
    assert Power256(6) == 0x1_0000_0000_0000;
  }

  lemma HeadRoundTrip(major: nat, n: nat, rest: seq<Byte>)
    requires major < 7 && n < TWO_64
    ensures var bytes := Head(major, n) + rest;
      && bytes[0] / 32 == major && ReadArgument(bytes[0] % 32, bytes[1..]) == Some(Read(n, rest))
  {
    Powers();
    var bytes := Head(major, n) + rest;
    assert bytes[1..] == Head(major, n)[1..] + rest;
    if n < 24 {
    } else if n < 0x100 {
      WideRoundTrip(n, 1, rest);
    } else if n < 0x1_0000 {
      WideRoundTrip(n, 2, rest);
    } else if n < 0x1_0000_0000 {
      WideRoundTrip(n, 4, rest);
    } else {
      WideRoundTrip(n, 8, rest);
    }
  }

  // The shape of a head.

  /** What the bytes stand for by their places: each one 256 times the weight of the next. */
  function PlaceValue(bytes: seq<Byte>): nat {
    if bytes == [] then 0 else bytes[0] as nat * Power256(|bytes| - 1) + PlaceValue(bytes[1..])
  }

  lemma {:induction false} PlaceValueAppend(bytes: seq<Byte>, last: Byte)
    ensures PlaceValue(bytes + [last]) == 256 * PlaceValue(bytes) + last
  {
    if bytes == [] {
      assert [last][1..] == [];
    } else {
      PlaceValueAppend(bytes[1..], last);
      assert (bytes + [last])[1..] == bytes[1..] + [last];
      assert bytes[0] as nat * Power256(|bytes|) == 256 * (bytes[0] as nat * Power256(|bytes| - 1));
    }
  }

  /** The most significant byte comes first. */
  lemma {:induction false} BigEndianPlaces(n: nat, width: nat)
    requires n < Power256(width)
    ensures PlaceValue(BigEndian(n, width)) == n
  {
    if width > 0 {
      BigEndianPlaces(n / 256, width - 1);
      PlaceValueAppend(BigEndian(n / 256, width - 1), n % 256);
    }
  }

  /** The major type is in the upper three bits; the size of the argument says where and how wide it is. */
  lemma HeadShape(major: nat, n: nat)
    requires major < 7 && n < TWO_64
    ensures var head := Head(major, n);
      && head[0] / 32 == major
      && |head| == (if n <= 23 then 1 else if n <= 0xFF then 2 else if n <= 0xFFFF then 3
                    else if n <= 0xFFFF_FFFF then 5 else 9)
      && head[0] % 32 == (if n <= 23 then n else if n <= 0xFF then 24 else if n <= 0xFFFF then 25
                          else if n <= 0xFFFF_FFFF then 26 else 27)
      && (n > 23 ==> PlaceValue(head[1..]) == n)
  {
    Powers();
    var head := Head(major, n);
    if n > 23 {
      var width := |head| - 1;
      assert head[1..] == BigEndian(n, width);
      BigEndianPlaces(n, width);
    }
  }

  lemma {:induction false} FromBigEndianBound(bytes: seq<Byte>)
    ensures FromBigEndian(bytes) < Power256(|bytes|)
  {
    if bytes != [] {
      FromBigEndianBound(bytes[..|bytes| - 1]);
    }
  }

  /** No other head with the same meaning is shorter. */
  lemma HeadIsShortest(major: nat, n: nat, other: seq<Byte>)
    requires major < 7 && n < TWO_64 && other != [] && other[0] / 32 == major
    requires ReadArgument(other[0] % 32, other[1..]) == Some(Read(n, []))
    ensures |Head(major, n)| <= |other|
  {
    Powers();
    HeadShape(major, n);
    var info, rest := other[0] % 32, other[1..];
    if info >= 24 {
      var width := if info == 24 then 1 else if info == 25 then 2 else if info == 26 then 4 else 8;
      assert rest[..width] == rest;
      FromBigEndianBound(rest);
    }
  }

  /** The first byte names the kind of a value, and strings are there byte by byte. */
  lemma EncodingByMajorType(v: Value)
    requires |Encode(v)| <= USIZE_MAX
    ensures match v
      case Int(n) => Encode(v)[0] / 32 == if n >= 0 then 0 else 1
      case Bytes(bytes) => Encode(v)[0] / 32 == 2 && Encode(v)[|Encode(v)| - |bytes|..] == bytes
      case Text(utf8) => Encode(v)[0] / 32 == 3 && Encode(v)[|Encode(v)| - |utf8|..] == utf8
      case Array(_) => Encode(v)[0] / 32 == 4
      case Map(_) => Encode(v)[0] / 32 == 5
      case Bool(b) => Encode(v) == [if b then 0xF5 else 0xF4]
      case Null => Encode(v) == [0xF6]
  {
    match v
    case Int(n) => HeadShape(if n >= 0 then 0 else 1, if n >= 0 then n else -1 - n);
    case Bytes(bytes) => HeadShape(2, |bytes|);
    case Text(utf8) => HeadShape(3, |utf8|);
    case Array(items) => HeadShape(4, |items|);
    case Map(pairs) => HeadShape(5, |pairs|);
    case _ =>
  }

  /** Integers encoded in appendix A of RFC 8949. */
  lemma StandardIntegers()
    ensures Encode(Int(0)) == [0x00] && Encode(Int(23)) == [0x17] && Encode(Int(24)) == [0x18, 0x18]
    ensures Encode(Int(1000)) == [0x19, 0x03, 0xE8] && Encode(Int(1000000)) == [0x1A, 0x00, 0x0F, 0x42, 0x40]
    ensures Encode(Int(-1)) == [0x20] && Encode(Int(-100)) == [0x38, 0x63] && Encode(Int(-1000)) == [0x39, 0x03, 0xE7]
  {
    OneByte(0);
    OneByte(3);
    OneByte(24);
    OneByte(99);
    assert BigEndian(1000, 2) == BigEndian(3, 1) + [0xE8];
    assert BigEndian(999, 2) == BigEndian(3, 1) + [0xE7];
    assert BigEndian(15, 2) == BigEndian(0, 1) + [0x0F];
    assert BigEndian(3906, 3) == BigEndian(15, 2) + [0x42];
    assert BigEndian(1000000, 4) == BigEndian(3906, 3) + [0x40];
  }

  lemma OneByte(b: Byte)
    ensures BigEndian(b, 1) == [b]
  {
    assert BigEndian(b / 256, 0) == [];
  }

  /** An array encoded there. */
  lemma StandardArray()
    ensures Encode(Array([Int(1), Int(2), Int(3)])) == [0x83, 0x01, 0x02, 0x03]
  {
    var items := [Int(1), Int(2), Int(3)];
    ItemsFrom(items, 0);
    ItemsFrom(items, 1);
    ItemsFrom(items, 2);
    assert items[0..] == items && items[3..] == [];
    assert EncodeItems(items) == [0x01] + ([0x02] + ([0x03] + EncodeItems(items[3..])));
    assert Encode(Array(items)) == Head(4, 3) + EncodeItems(items);
  }

  /** A map encoded there. */
  lemma StandardMap()
    ensures Encode(Map([Pair(Int(1), Int(2)), Pair(Int(3), Int(4))])) == [0xA2, 0x01, 0x02, 0x03, 0x04]
  {
    var pairs := [Pair(Int(1), Int(2)), Pair(Int(3), Int(4))];
    PairsFrom(pairs, 0);
    PairsFrom(pairs, 1);
    assert pairs[0..] == pairs && pairs[2..] == [];
    assert EncodePairs(pairs) == [0x01] + [0x02] + ([0x03] + [0x04] + EncodePairs(pairs[2..]));
    assert Encode(Map(pairs)) == Head(5, 2) + EncodePairs(pairs);
  }

  lemma ItemsFrom(items: seq<Value>, i: nat)
    requires i < |items|
    ensures EncodeItems(items[i..]) == Encode(items[i]) + EncodeItems(items[i + 1..])
  {
    assert items[i..][1..] == items[i + 1..];
  }

  lemma PairsFrom(pairs: seq<Pair>, i: nat)
    requires i < |pairs|
    ensures EncodePairs(pairs[i..])
         == Encode(pairs[i].key) + Encode(pairs[i].value) + EncodePairs(pairs[i + 1..])
  {
    assert pairs[i..][1..] == pairs[i + 1..];
  }

  lemma StringRoundTrip(s: seq<Byte>, rest: seq<Byte>)
    ensures ReadString(|s|, s + rest) == Some(Read(s, rest))
  {}

  /** One head in front of a body: reading it leaves exactly the body to read. */
  lemma HeadThenBody(major: nat, n: nat, body: seq<Byte>)
    requires major < 7 && n < TWO_64
    ensures ReadValue(Head(major, n) + body) == ReadBody(major, n, body, |Head(major, n) + body|)
  {
    HeadRoundTrip(major, n, body);
  }

  lemma IntRoundTrip(n: CborInt, rest: seq<Byte>)
    ensures ReadValue(Encode(Int(n)) + rest) == Some(Read(Int(n), rest))
  {
    if n >= 0 {
      HeadThenBody(0, n, rest);
    } else {
      HeadThenBody(1, -1 - n, rest);
    }
  }

  lemma BytesRoundTrip(bytes: seq<Byte>, rest: seq<Byte>)
    requires |bytes| <= USIZE_MAX
    ensures ReadValue(Encode(Bytes(bytes)) + rest) == Some(Read(Bytes(bytes), rest))
  {
    assert Encode(Bytes(bytes)) + rest == Head(2, |bytes|) + (bytes + rest);
    HeadThenBody(2, |bytes|, bytes + rest);
    StringRoundTrip(bytes, rest);
  }

  lemma TextRoundTrip(utf8: seq<Byte>, rest: seq<Byte>)
    requires |utf8| <= USIZE_MAX
    ensures ReadValue(Encode(Text(utf8)) + rest) == Some(Read(Text(utf8), rest))
  {
    assert Encode(Text(utf8)) + rest == Head(3, |utf8|) + (utf8 + rest);
    HeadThenBody(3, |utf8|, utf8 + rest);
    StringRoundTrip(utf8, rest);
  }

  lemma SimpleRoundTrip(v: Value, rest: seq<Byte>)
    requires v.Bool? || v.Null?
    ensures ReadValue(Encode(v) + rest) == Some(Read(v, rest))
  {
    assert (Encode(v) + rest)[1..] == rest;
  }

  /** Reading back an encoded value gives the value and whatever followed it. */
  lemma {:induction false} ValueRoundTrip(v: Value, rest: seq<Byte>)
    requires |Encode(v)| <= USIZE_MAX
    ensures ReadValue(Encode(v) + rest) == Some(Read(v, rest))
    decreases v
  {
    match v
    case Int(n) => IntRoundTrip(n, rest);
    case Bytes(bytes) => BytesRoundTrip(bytes, rest);
    case Text(utf8) => TextRoundTrip(utf8, rest);
    case Array(items) =>
      assert Encode(v) + rest == Head(4, |items|) + (EncodeItems(items) + rest);
      HeadThenBody(4, |items|, EncodeItems(items) + rest);
      ItemsRoundTrip(items, rest);
    case Map(pairs) =>
      assert Encode(v) + rest == Head(5, |pairs|) + (EncodePairs(pairs) + rest);
      HeadThenBody(5, |pairs|, EncodePairs(pairs) + rest);
      PairsRoundTrip(pairs, rest);
    case Bool(_) => SimpleRoundTrip(v, rest);
    case Null => SimpleRoundTrip(v, rest);
  }

  lemma {:induction false} ItemsRoundTrip(items: seq<Value>, rest: seq<Byte>)
    requires |EncodeItems(items)| <= USIZE_MAX
    ensures ReadItems(|items|, EncodeItems(items) + rest) == Some(Read(items, rest))
    decreases items
  {
    if items == [] {
      assert EncodeItems(items) + rest == rest;
    } else {
      var tail := EncodeItems(items[1..]) + rest;
      assert EncodeItems(items) + rest == Encode(items[0]) + tail;
      ValueRoundTrip(items[0], tail);
      ItemsRoundTrip(items[1..], rest);
      assert [items[0]] + items[1..] == items;
    }
  }

  lemma {:induction false} PairsRoundTrip(pairs: seq<Pair>, rest: seq<Byte>)
    requires |EncodePairs(pairs)| <= USIZE_MAX
    ensures ReadPairs(|pairs|, EncodePairs(pairs) + rest) == Some(Read(pairs, rest))
    decreases pairs
  {
    if pairs == [] {
      assert EncodePairs(pairs) + rest == rest;
    } else {
      var tail := EncodePairs(pairs[1..]) + rest;
      assert EncodePairs(pairs) + rest == Encode(pairs[0].key) + (Encode(pairs[0].value) + tail);
      PairRoundTrip(pairs[0], tail);
      PairsRoundTrip(pairs[1..], rest);
      assert [pairs[0]] + pairs[1..] == pairs;
    }
  }

  lemma {:induction false} PairRoundTrip(pair: Pair, rest: seq<Byte>)
    requires |EncodePair(pair)| <= USIZE_MAX
    ensures ReadValue(Encode(pair.key) + (Encode(pair.value) + rest)) == Some(Read(pair.key, Encode(pair.value) + rest))
    ensures ReadValue(Encode(pair.value) + rest) == Some(Read(pair.value, rest))
    decreases pair
  {
    ValueRoundTrip(pair.key, Encode(pair.value) + rest);
    ValueRoundTrip(pair.value, rest);
  }

  /** A value whose encoding fits in memory decodes to itself. */
  lemma DecodeEncode(v: Value)
    requires |Encode(v)| <= USIZE_MAX
    ensures Decode(Encode(v)) == Some(v)
  {
    assert Encode(v) + [] == Encode(v);
    ValueRoundTrip(v, []);
  }

  /** Encodings are prefix-free, so different values never share bytes. */
  lemma EncodingIsPrefixFree(a: Value, b: Value, restA: seq<Byte>, restB: seq<Byte>)
    requires |Encode(a)| <= USIZE_MAX && |Encode(b)| <= USIZE_MAX
    requires Encode(a) + restA == Encode(b) + restB
    ensures a == b && restA == restB
  {
    ValueRoundTrip(a, restA);
    ValueRoundTrip(b, restB);
  }
}
