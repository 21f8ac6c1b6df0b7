/** Quantized embedding payloads: codes of 1 to 31 bits, packed least significant bit first. */
module EbcpBits {
  import opened Wrappers
  import opened Machine
  import opened BlockBasics
  import opened Powers

  const MAX_SUPPORTED_BIT_WIDTH := 31

  type Bit = b: int | 0 <= b < 2

  // Numbers and their bits.

  function ShiftRight(v: nat, k: nat): nat {
    if k == 0 then v else ShiftRight(v / 2, k - 1)
  }

  function BitsOf(v: nat, width: nat): (bits: seq<Bit>)
    ensures |bits| == width
  {
    if width == 0 then [] else [v % 2] + BitsOf(v / 2, width - 1)
  }

  function ValueOf(bits: seq<Bit>): nat {
    if bits == [] then 0 else bits[0] + 2 * ValueOf(bits[1..])
  }

  lemma {:induction false} ValueOfBits(v: nat, width: nat)
    requires v < Power2(width)
    ensures ValueOf(BitsOf(v, width)) == v
  {
    if width > 0 {
      ValueOfBits(v / 2, width - 1);
      assert BitsOf(v, width)[1..] == BitsOf(v / 2, width - 1);
    }
  }

  lemma {:induction false} BitsOfValue(bits: seq<Bit>)
    ensures ValueOf(bits) < Power2(|bits|)
    ensures BitsOf(ValueOf(bits), |bits|) == bits
  {
    if bits != [] {
      BitsOfValue(bits[1..]);
      assert ValueOf(bits) % 2 == bits[0] && ValueOf(bits) / 2 == ValueOf(bits[1..]);
    }
  }

  lemma {:induction false} BitsOfShifted(v: nat, width: nat, k: nat)
    requires k <= width
    ensures BitsOf(v, width)[k..] == BitsOf(ShiftRight(v, k), width - k)
  {
    if k > 0 {
      BitsOfShifted(v / 2, width - 1, k - 1);
      assert BitsOf(v, width)[k..] == BitsOf(v / 2, width - 1)[k - 1..];
    }
  }

  lemma {:induction false} ValueOfAppend(bits: seq<Bit>, bit: Bit)
    ensures ValueOf(bits + [bit]) == ValueOf(bits) + if bit == 1 then Power2(|bits|) else 0
  {
    if bits == [] {
      assert [bit][1..] == [];
    } else {
      ValueOfAppend(bits[1..], bit);
      assert (bits + [bit])[1..] == bits[1..] + [bit];
    }
  }

  // Bytes and their bits.

  function PayloadBits(payload: seq<Byte>): (bits: seq<Bit>)
    ensures |bits| == 8 * |payload|
  {
    if payload == [] then [] else BitsOf(payload[0], 8) + PayloadBits(payload[1..])
  }

  lemma BitsFitByte(bits: seq<Bit>)
    requires |bits| == 8
    ensures ValueOf(bits) < 256
  {
    BitsOfValue(bits);
    Power2Of8();
  }

  function ToByte(bits: seq<Bit>): (b: Byte)
    requires |bits| == 8
    ensures b == ValueOf(bits)
  {
    BitsFitByte(bits);
    ValueOf(bits)
  }

  function BytesOf(bits: seq<Bit>): (payload: seq<Byte>)
    requires |bits| % 8 == 0
    ensures 8 * |payload| == |bits|
  {
    if bits == [] then [] else [ToByte(bits[..8])] + BytesOf(bits[8..])
  }

  lemma {:induction false} BytesOfBits(payload: seq<Byte>)
    ensures BytesOf(PayloadBits(payload)) == payload
  {
    if payload != [] {
      Power2Of8();
      ValueOfBits(payload[0], 8);
      BytesOfBits(payload[1..]);
      assert PayloadBits(payload)[..8] == BitsOf(payload[0], 8);
      assert PayloadBits(payload)[8..] == PayloadBits(payload[1..]);
    }
  }

  lemma {:induction false} BitsOfBytes(bits: seq<Bit>)
    requires |bits| % 8 == 0
    ensures PayloadBits(BytesOf(bits)) == bits
  {
    if bits != [] {
      BitsOfValue(bits[..8]);
      BitsOfBytes(bits[8..]);
      assert BytesOf(bits)[1..] == BytesOf(bits[8..]);
      assert bits == bits[..8] + bits[8..];
    }
  }

  /** The bit that shifting and masking one byte reads. */
  lemma {:induction false} BitInByte(payload: seq<Byte>, i: nat)
    requires i < 8 * |payload|
    ensures PayloadBits(payload)[i] == ShiftRight(payload[i / 8], i % 8) % 2
  {
    if i < 8 {
      BitsOfShifted(payload[0], 8, i);
      assert PayloadBits(payload)[i] == BitsOf(payload[0], 8)[i];
      assert BitsOf(payload[0], 8)[i] == BitsOf(payload[0], 8)[i..][0];
    } else {
      BitInByte(payload[1..], i - 8);
      assert payload[1..][(i - 8) / 8] == payload[i / 8];
    }
  }

  // Code vectors and their bits.

  type Widths = seq<nat>

  ghost predicate ValidWidths(widths: Widths) {
    forall i :: 0 <= i < |widths| ==> 1 <= widths[i] <= MAX_SUPPORTED_BIT_WIDTH
  }

  /** Widths that the 32-bit arithmetic on codes can take; a width of zero is refused while decoding. */
  ghost predicate NarrowWidths(widths: Widths) {
    forall i :: 0 <= i < |widths| ==> widths[i] <= MAX_SUPPORTED_BIT_WIDTH
  }

  function TotalBits(widths: Widths): nat {
    if widths == [] then 0 else widths[0] + TotalBits(widths[1..])
  }

  /** Every code fits its width. */
  ghost predicate CodesFit(widths: Widths, codes: seq<nat>) {
    |codes| == |widths| && forall i :: 0 <= i < |codes| ==> codes[i] < Power2(widths[i])
  }

  function CodeBits(widths: Widths, codes: seq<nat>): (bits: seq<Bit>)
    requires |codes| == |widths|
    ensures |bits| == TotalBits(widths)
  {
    if widths == [] then [] else BitsOf(codes[0], widths[0]) + CodeBits(widths[1..], codes[1..])
  }

  /** Cuts the bits into codes, first code first. */
  function CodesOf(widths: Widths, bits: seq<Bit>): (codes: seq<nat>)
    requires |bits| >= TotalBits(widths)
    ensures |codes| == |widths|
  {
    if widths == [] then [] else [ValueOf(bits[..widths[0]])] + CodesOf(widths[1..], bits[widths[0]..])
  }

  lemma SplitJoined(a: seq<Bit>, b: seq<Bit>, rest: seq<Bit>)
    ensures (a + b + rest)[..|a|] == a && (a + b + rest)[|a|..] == b + rest
  {}

  lemma {:induction false} CodesOfBits(widths: Widths, codes: seq<nat>, rest: seq<Bit>)
    requires CodesFit(widths, codes)
    ensures CodesOf(widths, CodeBits(widths, codes) + rest) == codes
  {
    if widths != [] {
      ValueOfBits(codes[0], widths[0]);
      CodesOfBits(widths[1..], codes[1..], rest);
      SplitJoined(BitsOf(codes[0], widths[0]), CodeBits(widths[1..], codes[1..]), rest);
    }
  }

  lemma {:induction false} CodesOfFit(widths: Widths, bits: seq<Bit>)
    requires |bits| >= TotalBits(widths)
    ensures CodesFit(widths, CodesOf(widths, bits))
  {
    if widths != [] {
      BitsOfValue(bits[..widths[0]]);
      CodesOfFit(widths[1..], bits[widths[0]..]);
    }
  }

  lemma TakeTwice<T>(s: seq<T>, a: nat, b: nat)
    requires a + b <= |s|
    ensures s[..a + b] == s[..a] + s[a..][..b]
  {}

  lemma {:induction false} BitsOfCodes(widths: Widths, bits: seq<Bit>)
    requires |bits| >= TotalBits(widths)
    ensures CodeBits(widths, CodesOf(widths, bits)) == bits[..TotalBits(widths)]
  {
    if widths != [] {
      var codes, rest := CodesOf(widths, bits), bits[widths[0]..];
      BitsOfValue(bits[..widths[0]]);
      BitsOfCodes(widths[1..], rest);
      TakeTwice(bits, widths[0], TotalBits(widths[1..]));
      assert codes[1..] == CodesOf(widths[1..], rest);
    }
  }

  // Payloads the length and padding checks accept.

  function ByteLength(bitLength: nat): nat {
    (bitLength + 7) / 8
  }

  /** No bit of the last byte is set above the used ones. */
  predicate PaddingIsZero(payload: seq<Byte>, bitLength: nat) {
    bitLength % 8 == 0 || payload == [] || ShiftRight(payload[|payload| - 1], bitLength % 8) == 0
  }

  predicate Accepts(payload: seq<Byte>, bitLength: nat) {
    |payload| == ByteLength(bitLength) && PaddingIsZero(payload, bitLength)
  }

  function Zeros(count: nat): (bits: seq<Bit>)
    ensures |bits| == count
  {
    if count == 0 then [] else [0] + Zeros(count - 1)
  }

  lemma {:induction false} ZeroBits(v: nat, width: nat)
    requires v < Power2(width)
    ensures BitsOf(v, width) == Zeros(width) <==> v == 0
  {
    if width > 0 {
      ZeroBits(v / 2, width - 1);
      assert BitsOf(v, width)[1..] == BitsOf(v / 2, width - 1);
      assert Zeros(width)[1..] == Zeros(width - 1);
    }
  }

  lemma {:induction false} ShiftedFits(v: nat, width: nat, k: nat)
    requires v < Power2(width) && k <= width
    ensures ShiftRight(v, k) < Power2(width - k)
  {
    if k > 0 {
      ShiftedFits(v / 2, width - 1, k - 1);
    }
  }

  lemma Regroup(first: seq<Bit>, middle: seq<Bit>, last: seq<Bit>)
    ensures first + (middle + last) == (first + middle) + last
  {}

  lemma {:induction false} LastByteBits(payload: seq<Byte>)
    requires payload != []
    ensures PayloadBits(payload) == PayloadBits(payload[..|payload| - 1]) + BitsOf(payload[|payload| - 1], 8)
  {
    var front, last := payload[..|payload| - 1], payload[|payload| - 1];
    if |payload| == 1 {
      assert PayloadBits(payload[1..]) == [];
      assert PayloadBits(front) == [];
    } else {
      var rest := payload[1..];
      LastByteBits(rest);
      assert rest[..|rest| - 1] == front[1..] && rest[|rest| - 1] == last && front[0] == payload[0];
      Regroup(BitsOf(payload[0], 8), PayloadBits(front[1..]), BitsOf(last, 8));
    }
  }

  lemma ByteTail(last: Byte, used: nat)
    requires used <= 8
    ensures BitsOf(last, 8)[used..] == Zeros(8 - used) <==> ShiftRight(last, used) == 0
  {
    Power2Of8();
    BitsOfShifted(last, 8, used);
    ShiftedFits(last, 8, used);
    ZeroBits(ShiftRight(last, used), 8 - used);
  }

  lemma DropInto(joined: seq<Bit>, a: seq<Bit>, b: seq<Bit>, start: nat, k: nat)
    requires joined == a + b && |a| == start && k <= |b|
    ensures joined[start + k..] == b[k..]
  {}

  lemma TailOfPayload(payload: seq<Byte>, bits: seq<Bit>, lastBits: seq<Bit>, start: nat, used: nat)
    requires payload != [] && bits == PayloadBits(payload) && lastBits == BitsOf(payload[|payload| - 1], 8)
    requires used <= 8 && start == 8 * (|payload| - 1)
    ensures bits[start + used..] == lastBits[used..]
  {
    LastByteBits(payload);
    DropInto(bits, PayloadBits(payload[..|payload| - 1]), lastBits, start, used);
  }

  lemma UsedBits(bitLength: nat)
    ensures bitLength % 8 != 0 ==> ByteLength(bitLength) > 0
                                   && bitLength == 8 * (ByteLength(bitLength) - 1) + bitLength % 8
    ensures bitLength % 8 == 0 ==> bitLength == 8 * ByteLength(bitLength)
  {}

  /** The padding check on the last byte says that all bits behind the payload are zero. */
  lemma PaddingIsZeroBits(payload: seq<Byte>, bitLength: nat)
    requires |payload| == ByteLength(bitLength)
    ensures PaddingIsZero(payload, bitLength)
        <==> PayloadBits(payload)[bitLength..] == Zeros(8 * |payload| - bitLength)
  {
    UsedBits(bitLength);
    if bitLength % 8 != 0 {
      var last := payload[|payload| - 1];
      TailOfPayload(payload, PayloadBits(payload), BitsOf(last, 8), bitLength - bitLength % 8, bitLength % 8);
      ByteTail(payload[|payload| - 1], bitLength % 8);
    }
  }

  /** As few bytes as have this many bits, and zeros in all bits behind them. */
  ghost predicate HoldsBits(payload: seq<Byte>, bitLength: nat) {
    && bitLength <= 8 * |payload| < bitLength + 8
    && forall i :: bitLength <= i < 8 * |payload| ==> PayloadBits(payload)[i] == 0
  }

  lemma {:induction false} ZerosAt(count: nat)
    ensures forall i :: 0 <= i < count ==> Zeros(count)[i] == 0
  {
    if count > 0 {
      ZerosAt(count - 1);
    }
  }

  /** The length and padding checks accept exactly these payloads. */
  lemma AcceptsHolds(payload: seq<Byte>, bitLength: nat)
    ensures Accepts(payload, bitLength) <==> HoldsBits(payload, bitLength)
  {
    if |payload| == ByteLength(bitLength) {
      var rest, zeros := PayloadBits(payload)[bitLength..], Zeros(8 * |payload| - bitLength);
      PaddingIsZeroBits(payload, bitLength);
      ZerosAt(|zeros|);
      if HoldsBits(payload, bitLength) {
        assert forall k :: 0 <= k < |zeros| ==> rest[k] == zeros[k];
      } else {
        var i :| bitLength <= i < 8 * |payload| && PayloadBits(payload)[i] != 0;
        assert rest[i - bitLength] != zeros[i - bitLength];
      }
    }
  }

  function PaddingLength(bitLength: nat): (count: nat)
    ensures (bitLength + count) % 8 == 0 && bitLength + count == 8 * ByteLength(bitLength)
  {
    8 * ByteLength(bitLength) - bitLength
  }

  function Pack(widths: Widths, codes: seq<nat>): seq<Byte>
    requires |codes| == |widths|
  {
    BytesOf(CodeBits(widths, codes) + Zeros(PaddingLength(TotalBits(widths))))
  }

  function Unpack(widths: Widths, payload: seq<Byte>): (codes: seq<nat>)
    requires |payload| == ByteLength(TotalBits(widths))
    ensures |codes| == |widths|
  {
    CodesOf(widths, PayloadBits(payload))
  }

  lemma PackedBits(widths: Widths, codes: seq<nat>)
    requires |codes| == |widths|
    ensures |Pack(widths, codes)| == ByteLength(TotalBits(widths))
    ensures PayloadBits(Pack(widths, codes))
         == CodeBits(widths, codes) + Zeros(PaddingLength(TotalBits(widths)))
  {
    BitsOfBytes(CodeBits(widths, codes) + Zeros(PaddingLength(TotalBits(widths))));
  }

  lemma PackIsAccepted(widths: Widths, codes: seq<nat>)
    requires |codes| == |widths|
    ensures Accepts(Pack(widths, codes), TotalBits(widths))
  {
    var bits, padding := CodeBits(widths, codes), Zeros(PaddingLength(TotalBits(widths)));
    PackedBits(widths, codes);
    PaddingIsZeroBits(Pack(widths, codes), TotalBits(widths));
    assert (bits + padding)[|bits|..] == padding;
  }

  /** Packing codes that fit gives an accepted payload, and unpacking it gives the codes back. */
  lemma UnpackPack(widths: Widths, codes: seq<nat>)
    requires CodesFit(widths, codes)
    ensures Accepts(Pack(widths, codes), TotalBits(widths))
    ensures Unpack(widths, Pack(widths, codes)) == codes
  {
    PackIsAccepted(widths, codes);
    PackedBits(widths, codes);
    CodesOfBits(widths, codes, Zeros(PaddingLength(TotalBits(widths))));
  }

  /** Every accepted payload is the packing of exactly the codes it unpacks to. */
  lemma PackUnpack(widths: Widths, payload: seq<Byte>)
    requires Accepts(payload, TotalBits(widths))
    ensures CodesFit(widths, Unpack(widths, payload))
    ensures Pack(widths, Unpack(widths, payload)) == payload
  {
    var total := TotalBits(widths);
    CodesOfFit(widths, PayloadBits(payload));
    BitsOfCodes(widths, PayloadBits(payload));
    PaddingIsZeroBits(payload, total);
    assert PayloadBits(payload)[..total] + PayloadBits(payload)[total..] == PayloadBits(payload);
    BytesOfBits(payload);
  }

  // A payload as one number.

  /** The bytes as a number, the least significant byte first. */
  function LittleEndian(payload: seq<Byte>): nat {
    if payload == [] then 0 else payload[0] as nat + 256 * LittleEndian(payload[1..])
  }

  /** The codes as digits of one number, the first code lowest. */
  function MixedRadix(widths: Widths, codes: seq<nat>): nat
    requires |codes| == |widths|
  {
    if widths == [] then 0 else codes[0] + Power2(widths[0]) * MixedRadix(widths[1..], codes[1..])
  }

  lemma TwiceProduct(first: nat, a: nat, b: nat, power: nat, value: nat)
    requires value == a + power * b
    ensures first + 2 * value == (first + 2 * a) + 2 * power * b
  {}

  lemma {:induction false} ValueOfBoth(a: seq<Bit>, b: seq<Bit>)
    ensures ValueOf(a + b) == ValueOf(a) + Power2(|a|) * ValueOf(b)
  {
    if a == [] {
      assert a + b == b;
    } else {
      ValueOfBoth(a[1..], b);
      assert (a + b)[1..] == a[1..] + b;
      TwiceProduct(a[0], ValueOf(a[1..]), ValueOf(b), Power2(|a| - 1), ValueOf(a[1..] + b));
    }
  }

  lemma {:induction false} ValueOfZeros(count: nat)
    ensures ValueOf(Zeros(count)) == 0
  {
    if count > 0 {
      ValueOfZeros(count - 1);
      assert Zeros(count)[1..] == Zeros(count - 1);
    }
  }

  lemma {:induction false} ValueOfPayload(payload: seq<Byte>)
    ensures ValueOf(PayloadBits(payload)) == LittleEndian(payload)
  {
    if payload != [] {
      Power2Of8();
      ValueOfPayload(payload[1..]);
      ValueOfBits(payload[0], 8);
      ValueOfBoth(BitsOf(payload[0], 8), PayloadBits(payload[1..]));
    }
  }

  lemma {:induction false} ValueOfCodes(widths: Widths, codes: seq<nat>)
    requires CodesFit(widths, codes)
    ensures ValueOf(CodeBits(widths, codes)) == MixedRadix(widths, codes)
  {
    if widths != [] {
      ValueOfCodes(widths[1..], codes[1..]);
      ValueOfBits(codes[0], widths[0]);
      ValueOfBoth(BitsOf(codes[0], widths[0]), CodeBits(widths[1..], codes[1..]));
    }
  }

  /** Least significant bit first: the payload, read as a little-endian number, has the codes as its digits. */
  lemma PackedNumber(widths: Widths, codes: seq<nat>)
    requires CodesFit(widths, codes)
    ensures LittleEndian(Pack(widths, codes)) == MixedRadix(widths, codes)
  {
    var padding := PaddingLength(TotalBits(widths));
    PackedBits(widths, codes);
    ValueOfPayload(Pack(widths, codes));
    ValueWithPadding(CodeBits(widths, codes), padding);
    ValueOfCodes(widths, codes);
  }

  lemma ValueWithPadding(bits: seq<Bit>, padding: nat)
    ensures ValueOf(bits + Zeros(padding)) == ValueOf(bits)
  {
    ValueOfBoth(bits, Zeros(padding));
    ValueOfZeros(padding);
  }

  // Reading codes out of a payload.

  lemma {:induction false} TotalBitsSplit(widths: Widths, i: nat)
    requires i < |widths|
    ensures TotalBits(widths[..i + 1]) == TotalBits(widths[..i]) + widths[i]
    ensures TotalBits(widths[..i]) + widths[i] <= TotalBits(widths)
  {
    if i > 0 {
      TotalBitsSplit(widths[1..], i - 1);
      assert widths[..i + 1][1..] == widths[1..][..i] && widths[..i][1..] == widths[1..][..i - 1];
    } else {
      assert widths[..1][1..] == [];
    }
  }

  lemma StartShifts(widths: Widths, i: nat)
    requires 0 < i < |widths|
    ensures TotalBits(widths[..i]) == widths[0] + TotalBits(widths[1..][..i - 1])
  {
    assert widths[..i][1..] == widths[1..][..i - 1];
  }

  lemma SliceOfRest(bits: seq<Bit>, skipped: nat, start: nat, width: nat)
    requires skipped + start + width <= |bits|
    ensures bits[skipped..][start..start + width] == bits[skipped + start..skipped + start + width]
  {}

  lemma CodesTail(widths: Widths, bits: seq<Bit>, codes: seq<nat>)
    requires widths != [] && |bits| >= TotalBits(widths) && codes == CodesOf(widths, bits)
    ensures codes[1..] == CodesOf(widths[1..], bits[widths[0]..]) && codes[0] == ValueOf(bits[..widths[0]])
    ensures |bits[widths[0]..]| >= TotalBits(widths[1..])
  {}

  lemma {:induction false} CodeBitsAt(widths: Widths, bits: seq<Bit>, codes: seq<nat>, i: nat, start: nat)
    requires i < |widths| && |bits| >= TotalBits(widths) && codes == CodesOf(widths, bits)
    requires start == TotalBits(widths[..i]) && start + widths[i] <= |bits|
    ensures codes[i] == ValueOf(bits[start..start + widths[i]])
  {
    CodesTail(widths, bits, codes);
    if i == 0 {
      assert bits[0..widths[0]] == bits[..widths[0]];
    } else {
      StartShifts(widths, i);
      var rest, tail, restCodes, before: nat := widths[1..], bits[widths[0]..], codes[1..], start - widths[0];
      assert rest[i - 1] == widths[i];
      CodeBitsAt(rest, tail, restCodes, i - 1, before);
      SliceOfRest(bits, widths[0], before, widths[i]);
    }
  }

  /** Where the bits of one code lie. */
  lemma CodeAt(widths: Widths, bits: seq<Bit>, i: nat)
    requires i < |widths| && |bits| >= TotalBits(widths)
    ensures TotalBits(widths[..i]) + widths[i] <= TotalBits(widths)
    ensures var start := TotalBits(widths[..i]); CodesOf(widths, bits)[i] == ValueOf(bits[start..start + widths[i]])
  {
    var codes, start := CodesOf(widths, bits), TotalBits(widths[..i]);
    TotalBitsSplit(widths, i);
    CodeBitsAt(widths, bits, codes, i, start);
  }

  /** Collects the bits of one code, lowest first; the caller's length check keeps every read in bounds. */
  method ExtractLsbFirstBits(payload: seq<Byte>, startBit: nat, bitWidth: nat) returns (value: nat)
    requires bitWidth <= MAX_SUPPORTED_BIT_WIDTH && startBit + bitWidth <= 8 * |payload|
    ensures value == ValueOf(PayloadBits(payload)[startBit..startBit + bitWidth])
    ensures value < Power2(bitWidth)
  {
    value := 0;
    ghost var bits := PayloadBits(payload);
    for bitIndex := 0 to bitWidth
      invariant value == ValueOf(bits[startBit..startBit + bitIndex])
    {
      var absoluteBit := startBit + bitIndex;
      BitInByte(payload, absoluteBit);
      var bit: Bit := ShiftRight(payload[absoluteBit / 8], absoluteBit % 8) % 2;
      ValueOfAppend(bits[startBit..absoluteBit], bit);
      assert bits[startBit..absoluteBit + 1] == bits[startBit..absoluteBit] + [bit];
      if bit == 1 {
        value := value + Power2(bitIndex);
      }
    }
    BitsOfValue(bits[startBit..startBit + bitWidth]);
  }

  /** Codes are stored with an offset of half their range. */
  function Centered(code: nat, width: nat): int
    requires width > 0
  {
    code - Power2(width - 1)
  }

  lemma CenteredRange(code: nat, width: nat)
    requires 1 <= width <= MAX_SUPPORTED_BIT_WIDTH && code < Power2(width)
    ensures 0 - Power2(width - 1) <= Centered(code, width) <= Power2(width - 1) - 1
    ensures Power2(width) <= 0x8000_0000
  {
    Power2Grows(width, 31);
    Power2Of31();
  }

  /** The lowest code stands for the least value, and neighbouring codes for neighbouring values. */
  lemma CenteredSteps(code: nat, width: nat)
    requires width > 0
    ensures Centered(0, width) == 0 - Power2(width - 1)
    ensures Centered(code + 1, width) == Centered(code, width) + 1
    ensures code < Power2(width) ==>
      Centered(code, width) + Centered(Power2(width) - 1 - code, width) == 0 - 1
  {
    assert Power2(width) == 2 * Power2(width - 1);
  }

  function Scaled(codes: seq<nat>, widths: Widths, scales: seq<real>): (values: seq<real>)
    requires |codes| == |widths| == |scales|
    requires forall i :: 0 <= i < |widths| ==> widths[i] > 0
    ensures |values| == |codes|
    ensures forall i :: 0 <= i < |codes| ==> values[i] == ScaledCode(codes[i], widths[i], scales[i])
  {
    seq(|codes|, i requires 0 <= i < |codes| => ScaledCode(codes[i], widths[i], scales[i]))
  }

  /** Codes need at least one bit, and scales must not be negative. */
  predicate Decodable(width: nat, scale: real) {
    width > 0 && scale >= 0.0
  }

  /** What a quantized payload means: its unpacked codes, centred and scaled. */
  function QuantizedValues(payload: seq<Byte>, widths: Widths, scales: seq<real>): Result<seq<real>, BlockError> {
    if |widths| != |scales| then Err(NonConforming)
    else if TotalBits(widths) + 7 > USIZE_MAX then Err(InvalidEntryShape)
    else if |payload| != ByteLength(TotalBits(widths)) then Err(InvalidEntryShape)
    else if exists i :: 0 <= i < |scales| && !Decodable(widths[i], scales[i]) then Err(NonConforming)
    else Ok(Scaled(Unpack(widths, payload), widths, scales))
  }

  /** What was packed is decoded to the packed codes, centred and scaled. */
  lemma PackedCodesDecode(widths: Widths, codes: seq<nat>, scales: seq<real>)
    requires ValidWidths(widths) && CodesFit(widths, codes) && |scales| == |widths|
    requires TotalBits(widths) + 7 <= USIZE_MAX && forall i :: 0 <= i < |scales| ==> scales[i] >= 0.0
    ensures QuantizedValues(Pack(widths, codes), widths, scales) == Ok(Scaled(codes, widths, scales))
  {
    UnpackPack(widths, codes);
    assert forall i :: 0 <= i < |scales| ==> Decodable(widths[i], scales[i]);
  }

  /** Centred and scaled: less half the range of the width, times the scale of the dimension. */
  lemma ScaledAt(codes: seq<nat>, widths: Widths, scales: seq<real>)
    requires |codes| == |widths| == |scales| && forall i :: 0 <= i < |widths| ==> widths[i] > 0
    ensures forall i :: 0 <= i < |codes| ==>
      Scaled(codes, widths, scales)[i] == (codes[i] - Power2(widths[i] - 1)) as real * scales[i]
  {
    forall i | 0 <= i < |codes|
      ensures Scaled(codes, widths, scales)[i] == (codes[i] - Power2(widths[i] - 1)) as real * scales[i]
    {
      assert Scaled(codes, widths, scales)[i] == ScaledCode(codes[i], widths[i], scales[i]);
    }
  }

  method SumBits(widths: Widths) returns (total: Option<nat>)
    ensures total == if TotalBits(widths) <= USIZE_MAX then Some(TotalBits(widths)) else None
  {
    var sum := 0;
    for i := 0 to |widths|
      invariant sum == TotalBits(widths[..i]) <= USIZE_MAX
    {
      TotalBitsSplit(widths, i);
      if sum + widths[i] > USIZE_MAX {
        return None;
      }
      sum := sum + widths[i];
    }
    assert widths[..|widths|] == widths;
    return Some(sum);
  }

  method ExtractCode(payload: seq<Byte>, bitOffset: nat, width: nat, ghost widths: Widths, ghost i: nat)
    returns (code: nat)
    requires |payload| == ByteLength(TotalBits(widths)) && i < |widths|
    requires bitOffset == TotalBits(widths[..i]) && width == widths[i] <= MAX_SUPPORTED_BIT_WIDTH
    ensures code == Unpack(widths, payload)[i]
    ensures bitOffset + width == TotalBits(widths[..i + 1])
  {
    TotalBitsSplit(widths, i);
    CodeAt(widths, PayloadBits(payload), i);
    code := ExtractLsbFirstBits(payload, bitOffset, width);
  }

  /** The values decoded so far. */
  ghost predicate DecodedUpTo(values: seq<real>, codes: seq<nat>, widths: Widths, scales: seq<real>, i: nat)
    requires |codes| == |widths| == |scales|
  {
    |values| == i <= |codes|
    && forall k :: 0 <= k < i ==>
      Decodable(widths[k], scales[k]) && values[k] == ScaledCode(codes[k], widths[k], scales[k])
  }

  function ScaledCode(code: nat, width: nat, scale: real): real
    requires width > 0
  {
    Centered(code, width) as real * scale
  }

  lemma DecodedStep(values: seq<real>, codes: seq<nat>, widths: Widths, scales: seq<real>, i: nat, value: real)
    requires |codes| == |widths| == |scales|
    requires DecodedUpTo(values, codes, widths, scales, i) && i < |codes| && Decodable(widths[i], scales[i])
    requires value == ScaledCode(codes[i], widths[i], scales[i])
    ensures DecodedUpTo(values + [value], codes, widths, scales, i + 1)
  {}

  lemma DecodedAll(values: seq<real>, codes: seq<nat>, widths: Widths, scales: seq<real>)
    requires |codes| == |widths| == |scales|
    requires DecodedUpTo(values, codes, widths, scales, |codes|)
    ensures forall i :: 0 <= i < |scales| ==> Decodable(widths[i], scales[i])
    ensures values == Scaled(codes, widths, scales)
  {}

  /** The loop over the codes of a payload of the right length. */
  method UnpackCodes(payload: seq<Byte>, widths: Widths, scales: seq<real>)
    returns (result: Result<seq<real>, BlockError>)
    requires NarrowWidths(widths) && |widths| == |scales| && TotalBits(widths) + 7 <= USIZE_MAX
    requires |payload| == ByteLength(TotalBits(widths))
    ensures result == QuantizedValues(payload, widths, scales)
  {
    ghost var codes := Unpack(widths, payload);
    var values: seq<real> := [];
    var bitOffset := 0;
    for i := 0 to |widths|
      invariant bitOffset == TotalBits(widths[..i])
      invariant DecodedUpTo(values, codes, widths, scales, i)
    {
      if widths[i] == 0 {
        return Err(NonConforming);
      }
      if scales[i] < 0.0 {
        return Err(NonConforming);
      }
      var code := ExtractCode(payload, bitOffset, widths[i], widths, i);
      bitOffset := bitOffset + widths[i];
      DecodedStep(values, codes, widths, scales, i, ScaledCode(code, widths[i], scales[i]));
      values := values + [ScaledCode(code, widths[i], scales[i])];
    }
    DecodedAll(values, codes, widths, scales);
    return Ok(values);
  }

  method UnpackQuantizedPayload(payload: seq<Byte>, widths: Widths, scales: seq<real>)
    returns (result: Result<seq<real>, BlockError>)
    requires NarrowWidths(widths)
    ensures result == QuantizedValues(payload, widths, scales)
  {
    if |widths| != |scales| {
      return Err(NonConforming);
    }
    var total := SumBits(widths);
    if total.None? || total.value + 7 > USIZE_MAX {
      return Err(InvalidEntryShape);
    }
    if |payload| != (total.value + 7) / 8 {
      return Err(InvalidEntryShape);
    }
    result := UnpackCodes(payload, widths, scales);
  }

  function Constant(width: nat, count: nat): (widths: Widths)
    ensures |widths| == count && forall i :: 0 <= i < count ==> widths[i] == width
  {
    seq(count, _ => width)
  }

  lemma {:induction false} ConstantTotal(width: nat, count: nat)
    ensures TotalBits(Constant(width, count)) == count * width
  {
    if count > 0 {
      ConstantTotal(width, count - 1);
      assert Constant(width, count)[1..] == Constant(width, count - 1);
      assert count * width == width + (count - 1) * width;
    }
  }

  method UnpackUniformCodes(payload: seq<Byte>, width: nat, scales: seq<real>, ghost widths: Widths)
    returns (result: Result<seq<real>, BlockError>)
    requires 1 <= width <= MAX_SUPPORTED_BIT_WIDTH
    requires |widths| == |scales| && forall i :: 0 <= i < |widths| ==> widths[i] == width
    requires TotalBits(widths) + 7 <= USIZE_MAX && |payload| == ByteLength(TotalBits(widths))
    ensures result == QuantizedValues(payload, widths, scales)
  {
    ghost var codes := Unpack(widths, payload);
    var values: seq<real> := [];
    var bitOffset := 0;
    for i := 0 to |scales|
      invariant bitOffset == TotalBits(widths[..i])
      invariant DecodedUpTo(values, codes, widths, scales, i)
    {
      if scales[i] < 0.0 {
        return Err(NonConforming);
      }
      var code := ExtractCode(payload, bitOffset, width, widths, i);
      bitOffset := bitOffset + width;
      DecodedStep(values, codes, widths, scales, i, ScaledCode(code, width, scales[i]));
      values := values + [ScaledCode(code, width, scales[i])];
    }
    DecodedAll(values, codes, widths, scales);
    return Ok(values);
  }

  /** The uniform decoder means the same as the variable one with the same width everywhere. */
  method UnpackQuantizedPayloadUniform(payload: seq<Byte>, width: nat, scales: seq<real>)
    returns (result: Result<seq<real>, BlockError>)
    requires 1 <= width <= MAX_SUPPORTED_BIT_WIDTH
    ensures result == QuantizedValues(payload, Constant(width, |scales|), scales)
  {
    ConstantTotal(width, |scales|);
    ghost var bits := TotalBits(Constant(width, |scales|));
    var total := CheckedMul(|scales|, width);
    assert total == if bits <= USIZE_MAX then Some(bits) else None;
    if total.None? || total.value + 7 > USIZE_MAX {
      return Err(InvalidEntryShape);
    }
    if |payload| != (total.value + 7) / 8 {
      return Err(InvalidEntryShape);
    }
    result := UnpackUniformCodes(payload, width, scales, Constant(width, |scales|));
  }
}
