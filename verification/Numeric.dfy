/** Fixed-point NUMERIC values: decimal text to scaled integers and back. */
module Numeric {
  import opened Common
  import opened Powers
  import opened Digits
  import opened DecimalText

  // ---------------------------------------------------------------------------
  // Exact rounding
  // ---------------------------------------------------------------------------

  /** `q` is the integer nearest to `c` * 10^`shift`, and the larger one on a tie. */
  ghost predicate IsNearest(q: nat, c: nat, shift: int) {
    if 0 <= shift then q == c * Pow(10, shift)
    else
      var d := Pow(10, -shift);
      2 * c - d < 2 * (q * d) <= 2 * c + d
  }

  /** `v` is the value of sign, coefficient and power of ten, rounded half away from zero. */
  ghost predicate IsRounded(v: int, negative: bool, c: nat, shift: int) {
    IsNearest(Abs(v), c, shift) && (v < 0 ==> negative) && (0 < v ==> !negative)
  }

  lemma NearestUnique(q: nat, q': nat, c: nat, shift: int)
    requires IsNearest(q, c, shift) && IsNearest(q', c, shift)
    ensures q == q'
  {
    if shift < 0 {
      PowPositive(10, -shift);
      NearestOrder(q, q', c, Pow(10, -shift));
      NearestOrder(q', q, c, Pow(10, -shift));
    }
  }

  lemma NearestOrder(q: nat, q': nat, c: nat, d: nat)
    requires 1 <= d
    requires 2 * c - d < 2 * (q * d) <= 2 * c + d && 2 * c - d < 2 * (q' * d) <= 2 * c + d
    ensures q' <= q
  {
    if q < q' {
      assert (q + 1) * d == q * d + d;
      MulMonotone(q + 1, q', d);
    }
  }

  /** Quotient of `c` by `d`, one more when twice the remainder reaches `d`. */
  function HalfUp(c: nat, d: nat): nat
    requires 0 < d
  {
    if 2 * (c % d) >= d then c / d + 1 else c / d
  }

  lemma HalfUpNearest(c: nat, d: nat)
    requires 0 < d
    ensures 2 * c - d < 2 * (HalfUp(c, d) * d) <= 2 * c + d
  {
    var q, r := c / d, c % d;
    assert c == q * d + r;
    assert (q + 1) * d == q * d + d;
  }

  lemma HalfUpSmall(c: nat, d: nat)
    requires 2 * c < d
    ensures HalfUp(c, d) == 0
  {
    SmallQuotient(c, d);
  }

  lemma SmallQuotient(c: nat, d: nat)
    requires c < d
    ensures c / d == 0 && c % d == c
  {
    DivModUnique(c, d, 0, c);
  }

  function Pow10Big(n: int): (p: nat)
    ensures 1 <= p
  {
    if n <= 0 then 1 else PowPositive(10, n); Pow(10, n)
  }

  function ScaleCoefficient(c: nat, shift: int): nat
    requires IsInt64(shift)
  {
    if 0 <= shift then c * Pow10Big(shift) else HalfUp(c, Pow10Big(Wrap64(-shift)))
  }

  function ScaledBigIntOf(s: string, scale: int): Result<int, DecimalError> {
    match ParseDecimal(s)
    case Err(e) => Err(e)
    case Ok(p) =>
      assert AllDigits(p.digits);
      var c := DigitsValue(p.digits);
      var shift := Wrap64(p.exp - scale);
      if 128 < shift && c != 0 then Err(Overflow)
      else
        var q := ScaleCoefficient(c, shift);
        Ok(if p.negative then -(q as int) else q)
  }

  method DecimalStringToScaledBigInt(s: string, scale: int) returns (r: Result<int, DecimalError>)
    requires IsInt32(scale)
    ensures r == ScaledBigIntOf(s, scale)
  {
    hide ParseParts, DigitsValue, Pow10Big, Wrap64;
    var parsed := ParseDecimalStringStrict(s);
    match parsed
    case Err(e) =>
      r := Err(e);
    case Ok(p) =>
      var coeff: int := DigitsValue(p.digits);
      var shift := Wrap64(p.exp - scale);
      if 128 < shift && coeff != 0 {
        return Err(Overflow);
      }
      if 0 <= shift {
        coeff := coeff * Pow10Big(shift);
      } else {
        var divisor := Pow10Big(Wrap64(-shift));
        var quotient, remainder := coeff / divisor, coeff % divisor;
        if remainder * 2 >= divisor {
          quotient := quotient + 1;
        }
        coeff := quotient;
      }
      if p.negative && coeff != 0 {
        coeff := -coeff;
      }
      r := Ok(coeff);
  }

  /** The power of ten, in exact arithmetic, that takes the digits to the scaled value. */
  function Shift(p: Parts, scale: int): int { p.Power() - scale }

  /** The guard of the branches that go wrong, for text longer than any memory holds excluded. */
  predicate ShiftFits(p: Parts, scale: int) {
    -TWO_63 < Shift(p, scale) < TWO_63
  }

  lemma WrapTwice(power: int, scale: int)
    ensures Wrap64(Wrap64(power) - scale) == Wrap64(power - scale)
  {
    var k := (power + TWO_63) / TWO_64;
    assert Wrap64(power) == power - k * TWO_64;
    ModShift(power - scale + TWO_63, -k, TWO_64);
  }

  /** The two wrapping steps of the original amount to one. */
  lemma ScaledOfParts(s: string, scale: int, p: Parts, c: nat, shift: int)
    requires ParseParts(s) == Ok(p) && AllDigits(p.digits) && c == DigitsValue(p.digits)
    requires shift == Wrap64(Shift(p, scale))
    ensures ScaledBigIntOf(s, scale)
         == if 128 < shift && c != 0 then Err(Overflow)
            else Ok(if p.negative then -(ScaleCoefficient(c, shift) as int) else ScaleCoefficient(c, shift))
  {
    hide ParseParts, DigitsValue, Wrap64, ScaleCoefficient;
    WrapTwice(p.Power(), scale);
    assert ParseDecimal(s) == Ok(Parsed(p.negative, p.digits, Wrap64(p.Power())));
  }

  lemma ScaledInRange(s: string, scale: int)
    requires ParseParts(s).Ok? && ShiftFits(ParseParts(s).value, scale) && IsInt32(scale) && |s| < TWO_63 / 2
    ensures var p := ParseParts(s).value;
            var c := DigitsValue(p.digits);
            if c != 0 && 128 < Shift(p, scale) then ScaledBigIntOf(s, scale) == Err(Overflow)
            else ScaledBigIntOf(s, scale).Ok? && IsRounded(ScaledBigIntOf(s, scale).value, p.negative, c, Shift(p, scale))
  {
    hide ParseParts, ParseDecimal, ScaledBigIntOf, DigitsValue, ScaleCoefficient, Wrap64, IsNearest;
    var p := ParseParts(s).value;
    var c, shift := DigitsValue(p.digits), Shift(p, scale);
    FitsUnwrapped(p, scale);
    ScaledOfParts(s, scale, p, c, shift);
    CoefficientNearest(c, shift);
  }

  lemma FitsUnwrapped(p: Parts, scale: int)
    requires ShiftFits(p, scale)
    ensures IsInt64(Shift(p, scale)) && Wrap64(Shift(p, scale)) == Shift(p, scale)
  {
  }

  lemma CoefficientNearest(c: nat, shift: int)
    requires -TWO_63 < shift < TWO_63
    ensures IsNearest(ScaleCoefficient(c, shift), c, shift)
  {
    if shift < 0 {
      assert Wrap64(-shift) == -shift;
      PowPositive(10, -shift);
      HalfUpNearest(c, Pow(10, -shift));
    }
  }

  /**
   * Rounding is exact, with ties away from zero, precisely for zero and for
   * text whose shift lies strictly above -2^63 and at most at 128. Shifts from
   * 129 up to 2^63 - 1 are refused; shifts beyond 64 bits wrap around and lead
   * to a wrong value or a refusal of a value that rounds to zero.
   */
  lemma ScaledExactly(s: string, scale: int)
    requires ParseParts(s).Ok? && IsInt32(scale) && |s| < TWO_63 / 2
    ensures var p := ParseParts(s).value;
            var c := DigitsValue(p.digits);
            var r := ScaledBigIntOf(s, scale);
            (r.Ok? && IsRounded(r.value, p.negative, c, Shift(p, scale)))
            <==> c == 0 || -TWO_63 < Shift(p, scale) <= 128
  {
    hide ParseParts, ParseDecimal, ScaledBigIntOf, DigitsValue, ScaleCoefficient, IsNearest;
    var p := ParseParts(s).value;
    var c, shift := DigitsValue(p.digits), Shift(p, scale);
    if ShiftFits(p, scale) {
      ScaledInRange(s, scale);
      if c == 0 {
        FitsUnwrapped(p, scale);
        CoefficientNearest(0, shift);
      }
    } else {
      ScaledOfParts(s, scale, p, c, Wrap64(shift));
      PowerBounds(s, p);
      DigitsBound(p.digits);
      ScaledOutOfRange(c, shift, Wrap64(shift), |p.digits|);
      if c == 0 {
        ScaledZero(Wrap64(shift), shift);
      } else if shift < 0 {
        TinyRoundsToZero(c, shift, |p.digits|);
      }
    }
  }

  /** Exponents fit 64 bits, and there are no more digits than characters. */
  lemma PowerBounds(s: string, p: Parts)
    requires ParseParts(s) == Ok(p) && |s| < TWO_63 / 2
    ensures |p.digits| < TWO_63 / 2 && -TWO_63 - TWO_63 / 2 <= p.Power() <= TWO_63
    ensures AllDigits(p.digits)
  {
  }

  lemma ScaledZero(wrapped: int, shift: int)
    requires IsInt64(wrapped)
    ensures ScaleCoefficient(0, wrapped) == 0 && IsNearest(0, 0, shift)
  {
    if 0 <= wrapped {
      assert 0 * Pow10Big(wrapped) == 0;
    } else {
      HalfUpSmall(0, Pow10Big(Wrap64(-wrapped)));
    }
    if 0 <= shift {
      assert 0 * Pow(10, shift) == 0;
    } else {
      PowPositive(10, -shift);
    }
  }

  /** `digits` bounds the number of digits of `c`. */
  lemma TinyRoundsToZero(c: nat, shift: int, digits: nat)
    requires c < Pow(10, digits) && digits < -shift
    ensures forall q: nat :: IsNearest(q, c, shift) ==> q == 0
  {
    PowMonotone(digits, -shift);
    var d := Pow(10, -shift);
    forall q: nat | IsNearest(q, c, shift) ensures q == 0 {
      if 0 < q {
        MulMonotone(1, q, d);
      }
    }
  }

  /** What the wrapped shift computes once the exact one has left 64 bits. */
  lemma ScaledOutOfRange(c: nat, shift: int, wrapped: int, digits: nat)
    requires digits < TWO_63 / 2 && c < Pow(10, digits)
    requires wrapped == Wrap64(shift)
    requires shift <= -TWO_63 || TWO_63 <= shift
    requires -TWO_63 - TWO_63 / 2 - TWO_31 <= shift <= TWO_63 + TWO_31
    ensures shift < -TWO_63 ==> 128 < wrapped
    ensures shift == -TWO_63 ==> ScaleCoefficient(c, wrapped) == c
    ensures TWO_63 <= shift ==> wrapped < 0
    ensures TWO_63 <= shift && c != 0 ==> !IsNearest(ScaleCoefficient(c, wrapped), c, shift)
  {
    if shift < -TWO_63 {
      assert wrapped == shift + TWO_64;
    } else {
      WrappedCoefficient(c, shift, wrapped, digits);
      if TWO_63 <= shift {
        LargeIsNotSmall(c, shift);
      }
    }
  }

  lemma WrappedCoefficient(c: nat, shift: int, wrapped: int, digits: nat)
    requires digits < TWO_63 / 2 && c < Pow(10, digits)
    requires wrapped == Wrap64(shift)
    requires shift == -TWO_63 || TWO_63 <= shift <= TWO_63 + TWO_31
    ensures wrapped < 0
    ensures ScaleCoefficient(c, wrapped) <= c
    ensures shift == -TWO_63 ==> ScaleCoefficient(c, wrapped) == c
  {
    if shift == -TWO_63 || shift == TWO_63 {
      assert wrapped == -TWO_63 && Wrap64(-wrapped) == -TWO_63;
      assert c / 1 == c && c % 1 == 0;
    } else {
      assert wrapped == shift - TWO_64;
      var n := -wrapped;
      PowMonotone(digits, n);
      HalfUpSmall(c, Pow(10, n));
    }
  }

  lemma LargeIsNotSmall(c: nat, shift: nat)
    requires 0 < shift
    ensures forall q: nat :: q <= c && c != 0 ==> !IsNearest(q, c, shift)
  {
    PowMonotone(1, shift);
    assert Pow(10, 1) == 10;
    MulMonotone(10, Pow(10, shift), c);
    assert c * Pow(10, shift) == Pow(10, shift) * c;
  }

  /** A literal whose exponent leaves 64 bits is silently bound as a different number. */
  lemma WrappedExponentIsWrong()
    ensures ScaledBigIntOf("1e-" + FormatNat(TWO_63), 0) == Ok(1)
    ensures ScaledBigIntOf("1e" + FormatNat(TWO_63 - 1), -1) == Ok(1)
  {
    WrappedLiteral("-", TWO_63, 0);
    WrappedLiteral("", TWO_63 - 1, -1);
    assert "1e" + "-" == "1e-" && "1e" + "" == "1e";
  }

  lemma WrappedLiteral(sign: string, e: nat, scale: int)
    requires (sign == "-" && e == TWO_63 && scale == 0) || (sign == "" && e == TWO_63 - 1 && scale == -1)
    ensures ScaledBigIntOf("1e" + sign + FormatNat(e), scale) == Ok(1)
  {
    var n := Numeral("", "1", None, Some(Exponent('e', sign, FormatNat(e))));
    var v: int := if sign == "-" then -(e as int) else e;
    LiteralParts(n, sign, e, v);
    BoundaryValue("1e" + sign + FormatNat(e), v, scale);
  }

  lemma LiteralParts(n: Numeral, sign: string, e: nat, v: int)
    requires sign == "" || sign == "-"
    requires v == (if sign == "-" then -(e as int) else e) && IsInt64(v)
    requires n == Numeral("", "1", None, Some(Exponent('e', sign, FormatNat(e))))
    ensures ParseParts("1e" + sign + FormatNat(e)) == Ok(Parts(false, "1", 0, v))
  {
    hide DigitsValue, FormatNat, ParseParts, StripZeros;
    FormatNatValue(e);
    ParseRendered(n);
    StripOne();
    assert n.Render() == "1e" + sign + FormatNat(e);
    assert n.whole + n.FracDigits() == "1";
  }

  lemma StripOne()
    ensures StripZeros("1") == "1"
  {
  }

  lemma BoundaryValue(s: string, v: int, scale: int)
    requires ParseParts(s) == Ok(Parts(false, "1", 0, v))
    requires v - scale == -TWO_63 || v - scale == TWO_63
    ensures ScaledBigIntOf(s, scale) == Ok(1)
  {
    WrappedBoundary(1, v - scale);
    assert DigitsValue("1") == 1;
    ScaledOfParts(s, scale, ParseParts(s).value, 1, Wrap64(v - scale));
  }

  lemma WrappedBoundary(c: nat, shift: int)
    requires shift == -TWO_63 || shift == TWO_63
    ensures Wrap64(shift) < 0 && ScaleCoefficient(c, Wrap64(shift)) == c
  {
    assert Wrap64(shift) == -TWO_63 && Wrap64(TWO_63) == -TWO_63;
    assert c / 1 == c && c % 1 == 0;
  }
}
