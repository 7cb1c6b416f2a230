/** The 8- and 16-byte interchange formats and what their decoding denotes. */
module DecFloatWire {
  import opened Common
  import opened Powers
  import opened BigInt
  import opened Digits
  import opened Dpd
  import opened DecFloat

  // ---------------------------------------------------------------------------
  // The combination field
  // ---------------------------------------------------------------------------

  datatype Combination = NaN | Infinite | Finite(high: nat, digit: nat)

  /** The five bits after the sign: two bits of exponent and the leading digit, or a special value. */
  function ReadCombination(five: nat): Combination
    requires five < 32
  {
    if five == 31 then NaN
    else if five == 30 then Infinite
    else if five / 8 == 0 then Finite(0, five % 8)
    else if five / 8 == 1 then Finite(1, five % 8)
    else if five / 8 == 2 then Finite(2, five % 8)
    else if five / 2 == 12 then Finite(0, 8 + five % 2)
    else if five / 2 == 13 then Finite(1, 8 + five % 2)
    else Finite(2, 8 + five % 2)
  }

  function WriteCombination(high: nat, digit: nat): (five: nat)
    requires high < 3 && digit < 10
    ensures five < 30 && ReadCombination(five) == Finite(high, digit)
  {
    if digit < 8 then high * 8 + digit else 24 + high * 2 + (digit - 8)
  }

  function InfinityText(sign: bool): string { if sign then "-Infinity" else "Infinity" }

  // ---------------------------------------------------------------------------
  // decimal64
  // ---------------------------------------------------------------------------

  method Decfloat64BytesToString(data: Bytes) returns (s: string)
    ensures s == Decimal64Text(data)
  {
    hide FormatCoefficient, Declets, Thousands, BytesToBig, ReadCombination, Field17;
    if |data| < 8 {
      return "";
    }
    var sign := 128 <= data[0];
    var cf := data[0] as int / 4 % 32;
    var exponent := data[0] as int % 4 * 64 + data[1] as int / 4;
    var dpdBits := BytesToBig(data[..8]) % TWO_50;
    match ReadCombination(cf)
    case NaN =>
      s := "NaN";
    case Infinite =>
      s := InfinityText(sign);
    case Finite(high, prefix) =>
      exponent := exponent + high * 0x100 - 398;
      var digits := CalcDPDSignificand(prefix, dpdBits, 50);
      if digits == None {
        return "";
      }
      s := FormatDecimalCoefficient(digits.value, exponent, sign);
  }

  const TWO_50 := 0x4_0000_0000_0000
  const TWO_48 := 0x1_0000_0000_0000

  function Decimal64Text(data: Bytes): string {
    if |data| < 8 then ""
    else
      var sign := 128 <= data[0];
      match ReadCombination(data[0] as int / 4 % 32)
      case NaN => "NaN"
      case Infinite => InfinityText(sign)
      case Finite(high, prefix) =>
        FormatCoefficient(Thousands(prefix, Declets(BytesToBig(data[..8]) % TWO_50, 5)),
                          data[0] as int % 4 * 64 + data[1] as int / 4 + high * 0x100 - 398, sign)
  }

  /** The interchange encoding: sign, combination, 8 bits of exponent, five declets. */
  function EncodeDecimal64(sign: bool, c: nat, exponent: int): (data: Bytes)
    requires c < 10_000_000_000_000_000 && -398 <= exponent <= 369
  {
    var biased := exponent + 398;
    var dpd := EncodeDeclets(c % 1_000_000_000_000_000, 5);
    var cont := biased % 256;
    var five := WriteCombination(biased / 256, c / 1_000_000_000_000_000);
    Dpd64Bound(c % 1_000_000_000_000_000);
    [(if sign then 128 else 0) + five * 4 + cont / 64, cont % 64 * 4 + dpd / TWO_48] + FillBytes(dpd % TWO_48, 6)
  }

  lemma Dpd64Bound(n: nat)
    requires n < 1_000_000_000_000_000
    ensures n < Pow(1000, 5) && EncodeDeclets(n, 5) < TWO_50
  {
    DecletsRoundTrip(0, n, 5);
  }

  /** The coefficient continuation of an encoded number sits in its low 50 bits. */
  lemma Continuation64(b0: byte, b1: byte, dpd: nat)
    requires dpd < TWO_50 && b1 % 4 == dpd / TWO_48
    ensures BytesToBig([b0, b1] + FillBytes(dpd % TWO_48, 6)) % TWO_50 == dpd
  {
    hide BytesToBig;
    var tail := FillBytes(dpd % TWO_48, 6);
    PowAdd(256, 3, 3);
    assert Pow(256, 3) == 0x100_0000;
    FillBytesRoundTrip(dpd % TWO_48, 6);
    BytesToBigConcat([b0, b1], tail);
    TwoBytes(b0, b1);
    LowBits(b0 as int * 256 + b1 as int, 4, TWO_48, dpd);
  }

  lemma TwoBytes(b0: byte, b1: byte)
    ensures BytesToBig([b0, b1]) == b0 as int * 256 + b1 as int
  {
    assert BytesToBig([b0]) == b0 by {
      assert [b0][..0] == [];
    }
    assert [b0, b1][..1] == [b0];
  }

  /** The bits below `part` * `unit` of a number whose head ends in the top bits of `low`. */
  lemma LowBits(head: nat, part: nat, unit: nat, low: nat)
    requires 0 < part && 0 < unit && low / unit < part && head % part == low / unit
    ensures 0 < part * unit && (head * unit + low % unit) % (part * unit) == low
  {
    var k, top, l := head / part, low / unit, low % unit;
    MulMonotone(1, part, unit);
    assert head == k * part + top && low == top * unit + l;
    assert (k * part + top) * unit == k * (part * unit) + top * unit;
    MulMonotone(top + 1, part, unit);
    assert (top + 1) * unit == top * unit + unit;
    DivModUnique(head * unit + l, part * unit, k, low);
  }

  /** The fields the decoder takes from an encoded number are those it was made of. */
  lemma Fields64(sign: bool, c: nat, exponent: int)
    requires c < 10_000_000_000_000_000 && -398 <= exponent <= 369
    ensures var data, biased := EncodeDecimal64(sign, c, exponent), exponent + 398;
            && |data| == 8 && (128 <= data[0] <==> sign)
            && data[0] as int / 4 % 32 == WriteCombination(biased / 256, c / 1_000_000_000_000_000)
            && data[0] as int % 4 * 64 + data[1] as int / 4 == biased % 256
            && BytesToBig(data[..8]) % TWO_50 == EncodeDeclets(c % 1_000_000_000_000_000, 5)
  {
    hide EncodeDeclets, WriteCombination, BytesToBig;
    var data := EncodeDecimal64(sign, c, exponent);
    var biased, lead, rest := exponent + 398, c / 1_000_000_000_000_000, c % 1_000_000_000_000_000;
    var dpd := EncodeDeclets(rest, 5);
    Dpd64Bound(rest);
    Fields(if sign then 1 else 0, WriteCombination(biased / 256, lead), biased % 256, dpd / TWO_48, data[0], data[1]);
    Continuation64(data[0], data[1], dpd);
    assert data[..8] == data;
  }

  /**
   * Every decimal64 number, whatever its sign, exponent and coefficient of up
   * to 16 digits, is turned into text that denotes exactly that number.
   */
  lemma Decimal64Exact(sign: bool, c: nat, exponent: int)
    requires c < 10_000_000_000_000_000 && -398 <= exponent <= 369
    ensures Denotes(Decimal64Text(EncodeDecimal64(sign, c, exponent)), sign, c, exponent)
  {
    hide Denotes, FormatCoefficient, EncodeDeclets, Declets, Thousands, ReadCombination, WriteCombination;
    hide EncodeDecimal64, BytesToBig;
    var lead, rest := c / 1_000_000_000_000_000, c % 1_000_000_000_000_000;
    Fields64(sign, c, exponent);
    Dpd64Bound(rest);
    DecletsRoundTrip(lead, rest, 5);
    assert Pow(1000, 5) == 1_000_000_000_000_000;
    FormatDenotes(c, exponent, sign) by {
      PowAdd(10, 8, 8);
      assert Pow(10, 8) == 100_000_000;
      ShortText(c, 16);
    }
  }

  /** Sign, combination, exponent and the top bits of the coefficient, packed in two bytes. */
  lemma Fields(sign: nat, five: nat, cont: nat, top: nat, b0: byte, b1: byte)
    requires sign < 2 && five < 32 && cont < 256 && top < 4
    requires b0 == sign * 128 + five * 4 + cont / 64 && b1 == cont % 64 * 4 + top
    ensures (128 <= b0 <==> sign == 1) && b0 / 4 % 32 == five
    ensures b0 % 4 * 64 + b1 / 4 == cont && b1 % 4 == top
  {
  }

  lemma {:induction false} ShortText(c: nat, n: nat)
    requires 1 <= n && c < Pow(10, n)
    ensures |FormatNat(c)| <= n
  {
    if 10 <= c {
      ShortText(c / 10, n - 1);
    }
  }

  // ---------------------------------------------------------------------------
  // decimal128
  // ---------------------------------------------------------------------------

  const TWO_104 := 0x100_0000_0000_0000_0000_0000_0000
  const TWO_110 := 0x4000_0000_0000_0000_0000_0000_0000
  const TEN_33 := 1_000_000_000_000_000_000_000_000_000_000_000

  method Decfloat128BytesToString(data: Bytes) returns (s: string)
    ensures s == Decimal128Text(data)
  {
    hide FormatCoefficient, Declets, Thousands, BytesToBig, ReadCombination, Field17;
    if |data| < 16 {
      return "";
    }
    var sign := 128 <= data[0];
    var cf := Field17(data[0], data[1], data[2]);
    match ReadCombination(cf / 0x1000)
    case NaN =>
      s := "NaN";
    case Infinite =>
      s := InfinityText(sign);
    case Finite(high, prefix) =>
      var exponent := high * 0x1000 + cf % 0x1000 - 6176;
      var dpdBits := BytesToBig(data[..16]) % TWO_110;
      var digits := CalcDPDSignificand(prefix, dpdBits, 110);
      if digits == None {
        return "";
      }
      s := FormatDecimalCoefficient(digits.value, exponent, sign);
  }

  /** The 17 bits after the sign. */
  function Field17(b0: byte, b1: byte, b2: byte): (cf: nat)
    ensures cf < 0x20000
  {
    (b0 as int % 128) * 1024 + (b1 as int) * 4 + b2 as int / 64
  }

  function Decimal128Text(data: Bytes): string {
    if |data| < 16 then ""
    else
      var sign := 128 <= data[0];
      var cf := Field17(data[0], data[1], data[2]);
      match ReadCombination(cf / 0x1000)
      case NaN => "NaN"
      case Infinite => InfinityText(sign)
      case Finite(high, prefix) =>
        FormatCoefficient(Thousands(prefix, Declets(BytesToBig(data[..16]) % TWO_110, 11)),
                          high * 0x1000 + cf % 0x1000 - 6176, sign)
  }

  /** The interchange encoding: sign, combination, 12 bits of exponent, eleven declets. */
  function EncodeDecimal128(sign: bool, c: nat, exponent: int): (data: Bytes)
    requires c < 10 * TEN_33 && -6176 <= exponent <= 6111
  {
    var biased := exponent + 6176;
    var dpd := EncodeDeclets(c % TEN_33, 11);
    var cont := biased % 0x1000;
    var five := WriteCombination(biased / 0x1000, c / TEN_33);
    Dpd128Bound(c % TEN_33);
    [(if sign then 128 else 0) + five * 4 + cont / 1024, cont / 4 % 256, cont % 4 * 64 + dpd / TWO_104]
    + FillBytes(dpd % TWO_104, 13)
  }

  lemma Dpd128Bound(n: nat)
    requires n < TEN_33
    ensures Pow(1000, 11) == TEN_33 && EncodeDeclets(n, 11) < TWO_110
  {
    PowAdd(1000, 5, 6);
    PowAdd(1000, 3, 3);
    PowAdd(1024, 5, 6);
    PowAdd(1024, 3, 3);
    assert Pow(1000, 3) == 1_000_000_000 && Pow(1000, 5) == 1_000_000_000_000_000;
    assert Pow(1024, 3) == 0x4000_0000 && Pow(1024, 5) == TWO_50;
    DecletsRoundTrip(0, n, 11);
  }

  lemma Continuation128(b0: byte, b1: byte, b2: byte, dpd: nat)
    requires dpd < TWO_110 && b2 % 64 == dpd / TWO_104
    ensures BytesToBig([b0, b1, b2] + FillBytes(dpd % TWO_104, 13)) % TWO_110 == dpd
  {
    hide BytesToBig;
    var tail := FillBytes(dpd % TWO_104, 13);
    Pow256Thirteen();
    FillBytesRoundTrip(dpd % TWO_104, 13);
    BytesToBigConcat([b0, b1, b2], tail);
    ThreeBytes(b0, b1, b2);
    LowBits((b0 as int * 256 + b1 as int) * 256 + b2 as int, 64, TWO_104, dpd);
  }

  lemma ThreeBytes(b0: byte, b1: byte, b2: byte)
    ensures BytesToBig([b0, b1, b2]) == (b0 as int * 256 + b1 as int) * 256 + b2 as int
  {
    TwoBytes(b0, b1);
    assert [b0, b1, b2][..2] == [b0, b1];
  }

  lemma Pow256Thirteen()
    ensures Pow(256, 13) == TWO_104
  {
    PowAdd(256, 7, 6);
    PowAdd(256, 4, 3);
    PowAdd(256, 3, 3);
    assert Pow(256, 3) == 0x100_0000 && Pow(256, 4) == 0x1_0000_0000;
  }

  lemma Fields128(sign: nat, five: nat, cont: nat, top: nat, b0: byte, b1: byte, b2: byte)
    requires sign < 2 && five < 32 && cont < 4096 && top < 64
    requires b0 == sign * 128 + five * 4 + cont / 1024 && b1 == cont / 4 % 256 && b2 == cont % 4 * 64 + top
    ensures (128 <= b0 <==> sign == 1) && b2 % 64 == top
    ensures Field17(b0, b1, b2) / 0x1000 == five && Field17(b0, b1, b2) % 0x1000 == cont
  {
    var q := cont / 1024;
    assert b0 % 128 == five * 4 + q;
    assert cont == q * 1024 + cont / 4 % 256 * 4 + cont % 4;
    assert Field17(b0, b1, b2) == five * 0x1000 + cont;
  }

  /** The same for decimal128 and coefficients of up to 34 digits. */
  lemma Decimal128Exact(sign: bool, c: nat, exponent: int)
    requires c < 10 * TEN_33 && -6176 <= exponent <= 6111
    ensures Denotes(Decimal128Text(EncodeDecimal128(sign, c, exponent)), sign, c, exponent)
  {
    hide Denotes, FormatCoefficient, EncodeDeclets, Declets, Thousands, ReadCombination, WriteCombination, Field17;
    var data := EncodeDecimal128(sign, c, exponent);
    var biased, lead, rest := exponent + 6176, c / TEN_33, c % TEN_33;
    var dpd, cont := EncodeDeclets(rest, 11), biased % 0x1000;
    var five := WriteCombination(biased / 0x1000, lead);
    Dpd128Bound(rest);
    Fields128(if sign then 1 else 0, five, cont, dpd / TWO_104, data[0], data[1], data[2]);
    Continuation128(data[0], data[1], data[2], dpd);
    assert data[..16] == data;
    DecletsRoundTrip(lead, rest, 11);
    FormatDenotes(c, exponent, sign) by {
      PowThirtyFour();
      ShortText(c, 34);
    }
  }

  lemma PowThirtyFour()
    ensures Pow(10, 34) == 10 * TEN_33
  {
    PowAdd(10, 17, 17);
    PowAdd(10, 9, 8);
    assert Pow(10, 8) == 100_000_000 && Pow(10, 9) == 1_000_000_000;
  }

  /** No bit pattern is left without text: decoding is empty exactly for short input. */
  lemma EveryPatternHasText(data: Bytes)
    ensures Decimal64Text(data) == "" <==> |data| < 8
    ensures Decimal128Text(data) == "" <==> |data| < 16
  {
  }
}
