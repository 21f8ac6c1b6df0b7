/** Names in the table: partition keys, row keys and chunk property names, and why they never collide. */
module TableKeys {
  import opened Machine
  import opened BlockBasics

  function HexDigit(d: nat): char
    requires d < 16
  {
    if d < 10 then ('0' as int + d) as char else ('a' as int + (d - 10)) as char
  }

  function Hex(bytes: seq<Byte>): (text: string)
    ensures |text| == 2 * |bytes|
  {
    if bytes == [] then "" else [HexDigit(bytes[0] / 16), HexDigit(bytes[0] % 16)] + Hex(bytes[1..])
  }

  lemma {:induction false} HexIsInjective(a: seq<Byte>, b: seq<Byte>)
    requires Hex(a) == Hex(b)
    ensures a == b
  {
    assert |a| == |b|;
    if a != [] {
      assert Hex(a)[0] == HexDigit(a[0] / 16) && Hex(b)[0] == HexDigit(b[0] / 16);
      assert Hex(a)[1] == HexDigit(a[0] % 16) && Hex(b)[1] == HexDigit(b[0] % 16);
      assert a[0] == b[0];
      assert Hex(a)[2..] == Hex(a[1..]) && Hex(b)[2..] == Hex(b[1..]);
      HexIsInjective(a[1..], b[1..]);
    }
  }

  /** Two lower-case hexadecimal digits for every byte, the high one first. */
  lemma {:induction false} HexAt(bytes: seq<Byte>, i: nat)
    requires i < |bytes|
    ensures Hex(bytes)[2 * i] == "0123456789abcdef"[bytes[i] / 16]
    ensures Hex(bytes)[2 * i + 1] == "0123456789abcdef"[bytes[i] % 16]
  {
    if i > 0 {
      HexAt(bytes[1..], i - 1);
      assert Hex(bytes)[2 * i] == Hex(bytes[1..])[2 * (i - 1)];
      assert Hex(bytes)[2 * i + 1] == Hex(bytes[1..])[2 * (i - 1) + 1];
    }
  }

  function Digit(d: nat): char
    requires d < 10
  {
    ('0' as int + d) as char
  }

  function Decimal(n: nat): (text: string)
    ensures |text| > 0
  {
    if n < 10 then [Digit(n)] else Decimal(n / 10) + [Digit(n % 10)]
  }

  /** Reads a decimal numeral, leading zeros allowed. */
  function Value(text: string): int {
    if text == "" then 0 else Value(text[..|text| - 1]) * 10 + (text[|text| - 1] as int - '0' as int)
  }

  lemma {:induction false} ValueOfDecimal(n: nat)
    ensures Value(Decimal(n)) == n
  {
    if n < 10 {
      assert Decimal(n)[..0] == "";
    } else {
      ValueOfDecimal(n / 10);
      assert Decimal(n)[..|Decimal(n)| - 1] == Decimal(n / 10);
    }
  }

  /** `{:0width$}`: at least `width` characters, zeros on the left. */
  function Padded(text: string, width: nat): (padded: string)
    ensures |padded| >= |text|
    decreases width - |text|
  {
    if |text| < width then Padded("0" + text, width) else text
  }

  lemma {:induction false} LeadingZero(text: string)
    ensures Value("0" + text) == Value(text)
  {
    var padded := "0" + text;
    if text == "" {
      assert padded[..0] == "";
    } else {
      LeadingZero(text[..|text| - 1]);
      assert padded[..|padded| - 1] == "0" + text[..|text| - 1];
    }
  }

  lemma {:induction false} ValueOfPadded(text: string, width: nat)
    ensures Value(Padded(text, width)) == Value(text)
    decreases width - |text|
  {
    if |text| < width {
      LeadingZero(text);
      ValueOfPadded("0" + text, width);
    }
  }

  lemma {:induction false} PaddedLength(text: string, width: nat)
    ensures |Padded(text, width)| == if |text| < width then width else |text|
    decreases width - |text|
  {
    if |text| < width {
      PaddedLength("0" + text, width);
    }
  }

  const CONTINUATION_ROW_SUFFIX_WIDTH := 4

  function PartitionKey(id: BlockHash): string {
    Hex(id)[..4]
  }

  function RowKey(id: BlockHash, rowIndex: nat): string {
    if rowIndex == 0 then Hex(id)
    else Hex(id) + "-" + Padded(Decimal(rowIndex), CONTINUATION_ROW_SUFFIX_WIDTH)
  }

  function ChunkName(index: nat): string {
    "chunk" + Decimal(index)
  }

  predicate AllDigits(text: string) {
    forall i :: 0 <= i < |text| ==> '0' <= text[i] <= '9'
  }

  lemma {:induction false} DecimalDigits(n: nat)
    ensures AllDigits(Decimal(n)) && (n > 0 ==> Decimal(n)[0] != '0')
  {
    if n >= 10 {
      DecimalDigits(n / 10);
    }
  }

  lemma {:induction false} PaddedDigits(text: string, width: nat)
    requires AllDigits(text)
    ensures AllDigits(Padded(text, width)) && (|text| >= width ==> Padded(text, width) == text)
    decreases width - |text|
  {
    if |text| < width {
      PaddedDigits("0" + text, width);
    }
  }

  /**
   The root row is named by the hexadecimal hash, continuation rows by that, a dash and their number in at least
   four decimal digits, with leading zeros only to make them four; the partition by the first four characters.
   */
  lemma RowKeyFormat(id: BlockHash, rowIndex: nat)
    ensures RowKey(id, rowIndex)[..64] == Hex(id) && PartitionKey(id) == Hex(id)[..4]
    ensures |RowKey(id, rowIndex)| == 64 <==> rowIndex == 0
    ensures rowIndex > 0 ==> var key := RowKey(id, rowIndex);
      && |key| >= 69 && key[64] == '-' && AllDigits(key[65..]) && Value(key[65..]) == rowIndex
      && (|key| > 69 ==> key[65] != '0')
  {
    if rowIndex > 0 {
      var digits := Decimal(rowIndex);
      SuffixValue(id, rowIndex);
      DecimalDigits(rowIndex);
      PaddedDigits(digits, CONTINUATION_ROW_SUFFIX_WIDTH);
      PaddedLength(digits, CONTINUATION_ROW_SUFFIX_WIDTH);
      assert RowKey(id, rowIndex)[65..] == Padded(digits, CONTINUATION_ROW_SUFFIX_WIDTH);
    }
  }

  /** A row key names one block and one row of it, so rows of different blocks never overwrite each other. */
  lemma RowKeysAreDistinct(a: BlockHash, i: nat, b: BlockHash, j: nat)
    requires RowKey(a, i) == RowKey(b, j)
    ensures a == b && i == j
  {
    assert RowKey(a, i)[..64] == Hex(a) && RowKey(b, j)[..64] == Hex(b);
    HexIsInjective(a, b);
    if i != 0 && j != 0 {
      SuffixValue(a, i);
      SuffixValue(b, j);
    }
  }

  lemma SuffixValue(id: BlockHash, rowIndex: nat)
    requires rowIndex != 0
    ensures |RowKey(id, rowIndex)| > 65 && Value(RowKey(id, rowIndex)[65..]) == rowIndex
  {
    var suffix := Padded(Decimal(rowIndex), CONTINUATION_ROW_SUFFIX_WIDTH);
    assert RowKey(id, rowIndex)[65..] == suffix;
    ValueOfPadded(Decimal(rowIndex), CONTINUATION_ROW_SUFFIX_WIDTH);
    ValueOfDecimal(rowIndex);
  }

  lemma ChunkNamesAreDistinct(i: nat, j: nat)
    requires ChunkName(i) == ChunkName(j)
    ensures i == j
  {
    assert ChunkName(i)[5..] == Decimal(i) && ChunkName(j)[5..] == Decimal(j);
    ValueOfDecimal(i);
    ValueOfDecimal(j);
  }

  function PowerOfTen(digits: nat): nat {
    if digits == 0 then 1 else 10 * PowerOfTen(digits - 1)
  }

  lemma {:induction false} DecimalLength(n: nat, digits: nat)
    requires digits > 0 && n < PowerOfTen(digits)
    ensures |Decimal(n)| <= digits
  {
    if n >= 10 {
      assert digits > 1;
      DecimalLength(n / 10, digits - 1);
    }
  }

  lemma {:induction false} DecimalLengthGrows(m: nat, n: nat)
    requires m <= n
    ensures |Decimal(m)| <= |Decimal(n)|
  {
    if m >= 10 {
      DecimalLengthGrows(m / 10, n / 10);
    }
  }
}
