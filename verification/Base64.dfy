/** Standard base64 (section 4 of RFC 4648), the text form of a stored chunk. */
module Base64 {
  import opened Wrappers
  import opened Machine

  function Symbol(v: nat): char
    requires v < 64
  {
    if v < 26 then ('A' as int + v) as char
    else if v < 52 then ('a' as int + (v - 26)) as char
    else if v < 62 then ('0' as int + (v - 52)) as char
    else if v == 62 then '+'
    else '/'
  }

  function SymbolValue(c: char): Option<nat> {
    if 'A' <= c <= 'Z' then Some(c as int - 'A' as int)
    else if 'a' <= c <= 'z' then Some(c as int - 'a' as int + 26)
    else if '0' <= c <= '9' then Some(c as int - '0' as int + 52)
    else if c == '+' then Some(62)
    else if c == '/' then Some(63)
    else None
  }

  /** The padding character is no symbol, and each symbol stands for one value. */
  lemma SymbolsAreDistinct(v: nat)
    requires v < 64
    ensures SymbolValue(Symbol(v)) == Some(v) && Symbol(v) != '='
  {}

  lemma SymbolOfValue(c: char)
    requires SymbolValue(c).Some?
    ensures SymbolValue(c).value < 64 && Symbol(SymbolValue(c).value) == c
  {}

  /** Three bytes as four symbols of six bits each. */
  function Quad(a: Byte, b: Byte, c: Byte): (quad: string)
    ensures |quad| == 4
  {
    [Symbol(a / 4), Symbol(a % 4 * 16 + b / 16), Symbol(b % 16 * 4 + c / 64), Symbol(c % 64)]
  }

  function Encode(bytes: seq<Byte>): string {
    if |bytes| == 0 then ""
    else if |bytes| == 1 then Quad(bytes[0], 0, 0)[..2] + "=="
    else if |bytes| == 2 then Quad(bytes[0], bytes[1], 0)[..3] + "="
    else Quad(bytes[0], bytes[1], bytes[2]) + Encode(bytes[3..])
  }

  /** The alphabet of table 1 of RFC 4648: upper case, lower case and digits, each in order, then the two others. */
  lemma SymbolsAreTheAlphabet(v: nat)
    requires v < 63
    ensures Symbol(0) == 'A' && Symbol(25) == 'Z' && Symbol(26) == 'a' && Symbol(51) == 'z'
    ensures Symbol(52) == '0' && Symbol(61) == '9' && Symbol(62) == '+' && Symbol(63) == '/'
    ensures v !in {25, 51, 61, 62} ==> Symbol(v + 1) as int == Symbol(v) as int + 1
  {}

  /** Four symbols are the same 24 bits as the three bytes, the most significant first. */
  lemma QuadIsOneNumber(a: Byte, b: Byte, c: Byte)
    ensures forall k :: 0 <= k < 4 ==> SymbolValue(Quad(a, b, c)[k]).Some?
    ensures var quad := Quad(a, b, c);
      0x4_0000 * SymbolValue(quad[0]).value + 0x1000 * SymbolValue(quad[1]).value
      + 0x40 * SymbolValue(quad[2]).value + SymbolValue(quad[3]).value
      == 0x1_0000 * (a as nat) + 0x100 * (b as nat) + c
  {
    QuadSymbols(a, b, c);
  }

  /** The examples of section 10 of RFC 4648. */
  lemma StandardExamples()
    ensures Encode([102]) == "Zg==" && Encode([102, 111]) == "Zm8=" && Encode([102, 111, 111]) == "Zm9v"
    ensures Encode([102, 111, 111, 98, 97, 114]) == "Zm9vYmFy"
  {
    assert [102, 111, 111, 98, 97, 114][3..] == [98, 97, 114];
    assert [102, 111, 111][3..] == [] && [98, 97, 114][3..] == [];
  }

  /** Strict decoding: whole quads, padding only at the end, unused bits zero. */
  function Decode(text: string): Option<seq<Byte>>
  {
    if |text| == 0 then Some([])
    else if |text| < 4 then None
    else if |text| == 4 && text[3] == '=' then DecodeLast(text[0], text[1], text[2])
    else
      match (SymbolValue(text[0]), SymbolValue(text[1]), SymbolValue(text[2]), SymbolValue(text[3]))
      case (Some(p), Some(q), Some(r), Some(s)) =>
        (match Decode(text[4..])
         case None => None
         case Some(rest) => Some(Group(p, q, r, s) + rest))
      case _ => None
  }

  function Group(p: nat, q: nat, r: nat, s: nat): seq<Byte> {
    [(p * 4 + q / 16) % 256, (q % 16 * 16 + r / 4) % 256, (r % 4 * 64 + s) % 256]
  }

  function DecodeLast(c0: char, c1: char, c2: char): Option<seq<Byte>> {
    match (SymbolValue(c0), SymbolValue(c1))
    case (Some(p), Some(q)) =>
      if c2 == '=' then
        if q % 16 == 0 then Some(Group(p, q, 0, 0)[..1]) else None
      else
        (match SymbolValue(c2)
         case Some(r) =>
           if r % 4 == 0 then Some(Group(p, q, r, 0)[..2]) else None
         case None => None)
    case _ => None
  }

  /** `ceil(n / 3) * 4`. */
  function EncodedLength(rawLength: nat): nat {
    (rawLength + 2) / 3 * 4
  }

  lemma EncodedLengthStep(rawLength: nat)
    ensures EncodedLength(rawLength + 3) == 4 + EncodedLength(rawLength)
  {}

  lemma {:induction false} EncodedLengthIsExact(bytes: seq<Byte>)
    ensures |Encode(bytes)| == EncodedLength(|bytes|)
  {
    if |bytes| > 2 {
      EncodedLengthIsExact(bytes[3..]);
      EncodedLengthStep(|bytes| - 3);
    }
  }

  lemma GroupIsExact(a: Byte, b: Byte, c: Byte)
    ensures Group(a / 4, a % 4 * 16 + b / 16, b % 16 * 4 + c / 64, c % 64) == [a, b, c]
  {
    assert (a % 4 * 16 + b / 16) / 16 == a % 4 && (a % 4 * 16 + b / 16) % 16 == b / 16;
    assert (b % 16 * 4 + c / 64) / 4 == b % 16 && (b % 16 * 4 + c / 64) % 4 == c / 64;
  }

  lemma QuadSymbols(a: Byte, b: Byte, c: Byte)
    ensures SymbolValue(Quad(a, b, c)[0]) == Some(a / 4)
    ensures SymbolValue(Quad(a, b, c)[1]) == Some(a % 4 * 16 + b / 16)
    ensures SymbolValue(Quad(a, b, c)[2]) == Some(b % 16 * 4 + c / 64)
    ensures SymbolValue(Quad(a, b, c)[3]) == Some(c % 64)
    ensures Quad(a, b, c)[2] != '=' && Quad(a, b, c)[3] != '='
  {
    SymbolsAreDistinct(a / 4);
    SymbolsAreDistinct(a % 4 * 16 + b / 16);
    SymbolsAreDistinct(b % 16 * 4 + c / 64);
    SymbolsAreDistinct(c % 64);
  }

  lemma OneByteRoundTrip(a: Byte)
    ensures Decode(Encode([a])) == Some([a])
  {
    var quad := Quad(a, 0, 0);
    QuadSymbols(a, 0, 0);
    GroupIsExact(a, 0, 0);
    var text := [quad[0], quad[1], '=', '='];
    assert Encode([a]) == text;
    assert Decode(text) == DecodeLast(text[0], text[1], text[2]);
    assert [a, 0, 0][..1] == [a];
  }

  lemma TwoBytesRoundTrip(a: Byte, b: Byte)
    ensures Decode(Encode([a, b])) == Some([a, b])
  {
    var quad := Quad(a, b, 0);
    QuadSymbols(a, b, 0);
    GroupIsExact(a, b, 0);
    var text := [quad[0], quad[1], quad[2], '='];
    assert Encode([a, b]) == text;
    assert Decode(text) == DecodeLast(text[0], text[1], text[2]);
    assert [a, b, 0][..2] == [a, b];
  }

  lemma QuadStep(a: Byte, b: Byte, c: Byte, rest: string)
    ensures Decode(Quad(a, b, c) + rest)
         == match Decode(rest) case None => None case Some(bytes) => Some([a, b, c] + bytes)
  {
    var text := Quad(a, b, c) + rest;
    QuadSymbols(a, b, c);
    GroupIsExact(a, b, c);
    assert text[4..] == rest;
    assert text[0] == Quad(a, b, c)[0] && text[1] == Quad(a, b, c)[1];
    assert text[2] == Quad(a, b, c)[2] && text[3] == Quad(a, b, c)[3];
  }

  /** Decoding undoes encoding, for every byte string. */
  lemma {:induction false} RoundTrip(bytes: seq<Byte>)
    ensures Decode(Encode(bytes)) == Some(bytes)
  {
    if |bytes| == 1 {
      OneByteRoundTrip(bytes[0]);
      assert bytes == [bytes[0]];
    } else if |bytes| == 2 {
      TwoBytesRoundTrip(bytes[0], bytes[1]);
      assert bytes == [bytes[0], bytes[1]];
    } else if |bytes| > 2 {
      RoundTrip(bytes[3..]);
      QuadStep(bytes[0], bytes[1], bytes[2], Encode(bytes[3..]));
      assert bytes == [bytes[0], bytes[1], bytes[2]] + bytes[3..];
    }
  }

  /** One byte put together from its high and low parts, and taken apart again. */
  lemma SixAndTwo(high: nat, low: nat)
    requires high < 64 && low < 4
    ensures (high * 4 + low) % 256 / 4 == high && (high * 4 + low) % 256 % 4 == low
  {}

  lemma FourAndFour(high: nat, low: nat)
    requires high < 16 && low < 16
    ensures (high * 16 + low) % 256 / 16 == high && (high * 16 + low) % 256 % 16 == low
  {}

  lemma TwoAndSix(high: nat, low: nat)
    requires high < 4 && low < 64
    ensures (high * 64 + low) % 256 / 64 == high && (high * 64 + low) % 256 % 64 == low
  {}

  lemma GroupQuad(p: nat, q: nat, r: nat, s: nat)
    requires p < 64 && q < 64 && r < 64 && s < 64
    ensures var g := Group(p, q, r, s); Quad(g[0], g[1], g[2]) == [Symbol(p), Symbol(q), Symbol(r), Symbol(s)]
  {
    SixAndTwo(p, q / 16);
    FourAndFour(q % 16, r / 4);
    TwoAndSix(r % 4, s);
    assert q / 16 * 16 + q % 16 == q && r / 4 * 4 + r % 4 == r;
  }

  lemma GroupTail(p: nat, q: nat, r: nat)
    ensures q % 16 == 0 ==> Group(p, q, 0, 0)[1..] == [0, 0]
    ensures r % 4 == 0 ==> Group(p, q, r, 0)[2] == 0
  {}

  lemma EncodeOne(g: seq<Byte>)
    requires |g| == 3 && g[1..] == [0, 0]
    ensures Encode(g[..1]) == Quad(g[0], g[1], g[2])[..2] + "=="
  {
    assert g[1] == g[1..][0] && g[2] == g[1..][1];
  }

  lemma EncodeTwo(g: seq<Byte>)
    requires |g| == 3 && g[2] == 0
    ensures Encode(g[..2]) == Quad(g[0], g[1], g[2])[..3] + "="
  {}

  lemma LastOfOne(c0: char, c1: char)
    requires DecodeLast(c0, c1, '=').Some?
    ensures Encode(DecodeLast(c0, c1, '=').value) == [c0, c1, '=', '=']
  {
    var p, q := SymbolValue(c0).value, SymbolValue(c1).value;
    SymbolOfValue(c0);
    SymbolOfValue(c1);
    GroupQuad(p, q, 0, 0);
    GroupTail(p, q, 0);
    EncodeOne(Group(p, q, 0, 0));
  }

  lemma LastOfTwo(c0: char, c1: char, c2: char)
    requires c2 != '=' && DecodeLast(c0, c1, c2).Some?
    ensures Encode(DecodeLast(c0, c1, c2).value) == [c0, c1, c2, '=']
  {
    var p, q, r := SymbolValue(c0).value, SymbolValue(c1).value, SymbolValue(c2).value;
    SymbolOfValue(c0);
    SymbolOfValue(c1);
    SymbolOfValue(c2);
    GroupQuad(p, q, r, 0);
    GroupTail(p, q, r);
    EncodeTwo(Group(p, q, r, 0));
  }

  lemma QuadText(text: string, rest: seq<Byte>)
    requires |text| >= 4 && forall k :: 0 <= k < 4 ==> SymbolValue(text[k]).Some?
    ensures var group := Group(SymbolValue(text[0]).value, SymbolValue(text[1]).value, SymbolValue(text[2]).value,
                               SymbolValue(text[3]).value);
      Encode(group + rest) == text[..4] + Encode(rest)
  {
    forall k | 0 <= k < 4
      ensures SymbolValue(text[k]).value < 64 && Symbol(SymbolValue(text[k]).value) == text[k]
    {
      SymbolOfValue(text[k]);
    }
    var p, q, r, s := SymbolValue(text[0]).value, SymbolValue(text[1]).value, SymbolValue(text[2]).value,
                      SymbolValue(text[3]).value;
    GroupQuad(p, q, r, s);
    assert (Group(p, q, r, s) + rest)[3..] == rest;
    assert text[..4] == [text[0], text[1], text[2], text[3]];
  }

  /** Decoding is strict: a text that decodes is the encoding of what it decodes to. */
  lemma {:induction false} EncodeDecode(text: string)
    requires Decode(text).Some?
    ensures Encode(Decode(text).value) == text
  {
    if |text| == 0 {
    } else if |text| == 4 && text[3] == '=' {
      if text[2] == '=' {
        LastOfOne(text[0], text[1]);
      } else {
        LastOfTwo(text[0], text[1], text[2]);
      }
      assert text == [text[0], text[1], text[2], '='];
    } else {
      EncodeDecode(text[4..]);
      QuadText(text, Decode(text[4..]).value);
      assert text == text[..4] + text[4..];
    }
  }
}
