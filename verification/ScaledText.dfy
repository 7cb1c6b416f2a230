/** Printing scaled integers, integral parameters, and how both agree with decimal text. */
module ScaledText {
  import opened Common
  import opened Powers
  import opened Digits
  import opened DecimalText
  import opened Numeric

  // ---------------------------------------------------------------------------
  // Order and symmetry of rounding
  // ---------------------------------------------------------------------------

  function Signed(negative: bool, c: nat): int { if negative then -(c as int) else c }

  /** Both sides of the nearest-integer inequality over a common denominator 10^`m`. */
  lemma NearestAt(q: nat, c: nat, shift: int, m: nat)
    requires IsNearest(q, c, shift) && 0 <= shift + m
    ensures var C, D := c * Pow(10, shift + m), Pow(10, m);
            1 <= D && 2 * C - D < 2 * (q * D) <= 2 * C + D
  {
    PowPositive(10, m);
    if 0 <= shift {
      PowAdd(10, shift, m);
      MulAssociates(c, Pow(10, shift), Pow(10, m));
    } else {
      PowAdd(10, -shift, shift + m);
      PowPositive(10, shift + m);
      ScaleInequality(q, c, Pow(10, -shift), Pow(10, shift + m));
    }
  }

  lemma MulAssociates(a: int, b: int, c: int)
    ensures a * (b * c) == (a * b) * c
  {
  }

  lemma ScaleInequality(q: nat, c: nat, d: int, k: int)
    requires 1 <= k && 2 * c - d < 2 * (q * d) <= 2 * c + d
    ensures 2 * (c * k) - d * k < 2 * (q * (d * k)) <= 2 * (c * k) + d * k
  {
    MulAssociates(q, d, k);
    var x := q * d;
    MulMonotone(2 * c - d + 1, 2 * x, k);
    MulMonotone(2 * x, 2 * c + d, k);
    Distribute(2 * c, d, k);
    MulAssociates(2, c, k);
    MulAssociates(2, x, k);
    assert (2 * c - d + 1) * k == (2 * c - d) * k + k;
  }

  /** Rounding never reverses the order of two decimals, whatever their powers of ten. */
  lemma RoundingMonotone(v1: int, neg1: bool, c1: nat, shift1: int, v2: int, neg2: bool, c2: nat, shift2: int, m: nat)
    requires IsRounded(v1, neg1, c1, shift1) && IsRounded(v2, neg2, c2, shift2)
    requires 0 <= shift1 + m && 0 <= shift2 + m
    requires Signed(neg1, c1) * Pow(10, shift1 + m) <= Signed(neg2, c2) * Pow(10, shift2 + m)
    ensures v1 <= v2
  {
    var p1, p2 := Pow(10, shift1 + m), Pow(10, shift2 + m);
    NearestAt(Abs(v1), c1, shift1, m);
    NearestAt(Abs(v2), c2, shift2, m);
    SignedProduct(neg1, c1, p1);
    SignedProduct(neg2, c2, p2);
    PowPositive(10, shift1 + m);
    PowPositive(10, shift2 + m);
    RoundedOrder(v1, neg1, c1 * p1, v2, neg2, c2 * p2, Pow(10, m));
  }

  lemma SignedProduct(neg: bool, c: nat, p: int)
    ensures Signed(neg, c) * p == if neg then -(c * p) else c * p
  {
  }

  lemma RoundedOrder(v1: int, neg1: bool, C1: int, v2: int, neg2: bool, C2: int, D: int)
    requires 1 <= D && 0 <= C1 && 0 <= C2
    requires 2 * C1 - D < 2 * (Abs(v1) * D) <= 2 * C1 + D
    requires 2 * C2 - D < 2 * (Abs(v2) * D) <= 2 * C2 + D
    requires (v1 < 0 ==> neg1) && (0 < v1 ==> !neg1) && (v2 < 0 ==> neg2) && (0 < v2 ==> !neg2)
    requires (if neg1 then -C1 else C1) <= (if neg2 then -C2 else C2)
    ensures v1 <= v2
  {
    var x1, x2 := v1 * D, v2 * D;
    assert v2 < v1 ==> x2 + D <= x1 by {
      if v2 < v1 {
        MulMonotone(v2 + 1, v1, D);
        Distribute(v2, 1, D);
      }
    }
    SignedProduct(v1 < 0, Abs(v1), D);
    SignedProduct(v2 < 0, Abs(v2), D);
    OddMultiple(v1, D);
    OddMultiple(-v2, D);
    SignedProduct(true, Abs(v2), D);
    assert (-v2) * D == -x2;
  }

  lemma OddMultiple(v: int, D: int)
    requires 1 <= D
    ensures 2 * (v * D) != D
  {
    if 1 <= v {
      MulMonotone(1, v, D);
    } else {
      MulMonotone(v, 0, D);
    }
  }

  /** Writing the opposite sign negates the result and changes nothing else. */
  lemma OddSymmetric(n: Numeral, s: string, s': string, scale: int)
    requires n.Valid() && n.sign != "-" && s == n.Render() && s' == n.(sign := "-").Render()
    ensures var r, r' := ScaledBigIntOf(s, scale), ScaledBigIntOf(s', scale);
            if r.Ok? then r' == Ok(-r.value) else r' == r
  {
    var p := SignedParts(n, s, s');
    match p
    case None => RefusedParts(s, s', scale);
    case Some(p) => NegatedParts(s, s', p, scale);
  }

  lemma SignedParts(n: Numeral, s: string, s': string) returns (p: Option<Parts>)
    requires n.Valid() && n.sign != "-" && s == n.Render() && s' == n.(sign := "-").Render()
    ensures p.None? ==> ParseParts(s).Err? && ParseParts(s') == ParseParts(s)
    ensures p.Some? ==> !p.value.negative && p.value.Valid() && ParseParts(s) == Ok(p.value)
                        && ParseParts(s') == Ok(p.value.(negative := true))
  {
    var n' := n.(sign := "-");
    SignChange(n, n');
    assert ParseParts(s) == if IsInt64(n.ExponentValue()) then Ok(n.Meaning()) else Err(ExponentRange) by {
      ParseRendered(n);
    }
    assert ParseParts(s') == if IsInt64(n'.ExponentValue()) then Ok(n'.Meaning()) else Err(ExponentRange) by {
      ParseRendered(n');
    }
    p := if IsInt64(n.ExponentValue()) then Some(n.Meaning()) else None;
  }

  lemma SignChange(n: Numeral, n': Numeral)
    requires n.Valid() && n.sign != "-" && n' == n.(sign := "-")
    ensures n'.Valid() && n'.ExponentValue() == n.ExponentValue()
    ensures !n.Meaning().negative && n'.Meaning() == n.Meaning().(negative := true) && n.Meaning().Valid()
  {
  }

  lemma NegatedParts(s: string, s': string, p: Parts, scale: int)
    requires ParseParts(s) == Ok(p) && ParseParts(s') == Ok(p.(negative := true)) && !p.negative
    ensures var r, r' := ScaledBigIntOf(s, scale), ScaledBigIntOf(s', scale);
            if r.Ok? then r' == Ok(-r.value) else r' == r
  {
    hide ParseParts, ScaleCoefficient, ScaledBigIntOf, DigitsValue;
    var c, shift := DigitsValue(p.digits), Wrap64(Shift(p, scale));
    ScaledOfParts(s, scale, p, c, shift);
    ScaledOfParts(s', scale, p.(negative := true), c, shift);
  }

  lemma RefusedParts(s: string, s': string, scale: int)
    requires ParseParts(s).Err? && ParseParts(s') == ParseParts(s)
    ensures ScaledBigIntOf(s, scale).Err? && ScaledBigIntOf(s', scale) == ScaledBigIntOf(s, scale)
  {
  }

  // ---------------------------------------------------------------------------
  // Integral parameters
  // ---------------------------------------------------------------------------

  function CheckInt64(r: Result<int, DecimalError>): Result<int, DecimalError> {
    if r.Ok? && !IsInt64(r.value) then Err(Overflow) else r
  }

  function ScaledInt64Of(s: string, scale: int): Result<int, DecimalError> {
    CheckInt64(ScaledBigIntOf(s, scale))
  }

  /** Multiplies step by step, giving up as soon as the next step would leave 64 bits. */
  method ScaleIntegralInt64(v: int, scale: int) returns (r: Result<int, DecimalError>)
    requires IsInt64(v) && IsInt32(scale)
    ensures 0 <= scale ==> r == Ok(v)
    ensures scale < 0 ==> r == CheckInt64(Ok(v * Pow(10, -scale)))
  {
    if 0 <= scale {
      return Ok(v);
    }
    var i, w := 0, v;
    while scale < i
      invariant scale <= i <= 0 && w == v * Pow(10, -i) && IsInt64(w)
    {
      ghost var p, q := Pow(10, -i), Pow(10, i - scale);
      assert v * (10 * p) == (v * p) * 10;
      if w > GoDiv(TWO_63 - 1, 10) || w < GoDiv(-TWO_63, 10) {
        PowAdd(10, -i, i - scale);
        StaysOutside(w, i - scale);
        assert v * (p * q) == (v * p) * q;
        return Err(Overflow);
      }
      w := w * 10;
      i := i - 1;
    }
    r := Ok(w);
  }

  lemma StaysOutside(w: int, n: nat)
    requires 1 <= n && !IsInt64(w * 10)
    ensures !IsInt64(w * Pow(10, n))
  {
    PowMonotone(1, n);
    assert Pow(10, 1) == 10;
    if 0 < w {
      MulMonotone(10, Pow(10, n), w);
    } else {
      MulMonotone(10, Pow(10, n), -w);
    }
    assert Pow(10, n) * w == w * Pow(10, n) && Pow(10, n) * (-w) == -(w * Pow(10, n));
  }

  lemma FormatIntParts(v: int)
    ensures ParseParts(FormatInt(v)) == Ok(Parts(v < 0, FormatNat(Abs(v)), 0, 0))
    ensures DigitsValue(FormatNat(Abs(v))) == Abs(v)
  {
    hide ParseParts, FormatNat, DigitsValue, StripZeros;
    var n := Numeral(if v < 0 then "-" else "", FormatNat(Abs(v)), None, None);
    FormatNatValue(Abs(v));
    WholeNumeral(v, n);
    ParseRendered(n);
  }

  lemma WholeNumeral(v: int, n: Numeral)
    requires n == Numeral(if v < 0 then "-" else "", FormatNat(Abs(v)), None, None)
    requires AllDigits(n.whole) && n.whole != ""
    ensures n.Valid() && n.Render() == FormatInt(v) && n.ExponentValue() == 0
    ensures n.Meaning() == Parts(v < 0, FormatNat(Abs(v)), 0, 0)
  {
    hide FormatNat, StripZeros;
    assert n.Render() == FormatInt(v);
    assert n.whole + n.FracDigits() == n.whole;
    StripFormatted(Abs(v));
  }

  lemma StripFormatted(u: nat)
    ensures StripZeros(FormatNat(u)) == FormatNat(u)
  {
    FormatNatValue(u);
  }

  /** An integer binds to the same NUMERIC value whether it is passed as a number or as text. */
  lemma IntegralAgreesWithText(v: int, scale: int)
    requires IsInt64(v) && -TWO_31 <= scale <= 0
    ensures ScaledInt64Of(FormatInt(v), scale) == CheckInt64(Ok(v * Pow(10, -scale)))
  {
    var s := FormatInt(v);
    FormatIntParts(v);
    IntegralParts(v, scale, s, Parts(v < 0, FormatNat(Abs(v)), 0, 0));
  }

  lemma IntegralParts(v: int, scale: int, s: string, p: Parts)
    requires IsInt64(v) && -TWO_31 <= scale <= 0
    requires ParseParts(s) == Ok(p) && p.Valid() && p.negative == (v < 0) && p.Power() == 0
    requires DigitsValue(p.digits) == Abs(v)
    ensures ScaledInt64Of(s, scale) == CheckInt64(Ok(v * Pow(10, -scale)))
  {
    ScaledOfParts(s, scale, p, Abs(v), -scale);
    SignedProduct(v < 0, Abs(v), Pow(10, -scale));
    if v != 0 && 128 < -scale {
      NineteenZeros();
      PowMonotone(19, -scale);
      MulMonotone(1, Abs(v), Pow(10, -scale));
    }
  }

  lemma NineteenZeros()
    ensures TWO_63 < Pow(10, 19)
  {
    PowAdd(10, 10, 9);
    assert Pow(10, 10) == 10_000_000_000 && Pow(10, 9) == 1_000_000_000;
  }

  // ---------------------------------------------------------------------------
  // Printing
  // ---------------------------------------------------------------------------

  function AddNeg(s: string, neg: bool): string { if neg then "-" + s else s }

  /** A negative integer prints as nothing at all. */
  function Int64Text(v: int): string { if v < 0 then "" else FormatNat(v) }

  /** The digits of an integer, written from the right. */
  method Int64ToString(v: int) returns (s: string)
    requires IsInt64(v)
    ensures s == Int64Text(v)
  {
    if v == 0 {
      return "0";
    }
    var w, digits := v, "";
    while 0 < w
      invariant v < 0 ==> w == v && digits == ""
      invariant 0 < v ==> 0 <= w && FormatNat(v) == if w == 0 then digits else FormatNat(w) + digits
    {
      digits := [DigitChar(w % 10)] + digits;
      assert 10 <= w ==> FormatNat(w) == FormatNat(w / 10) + [DigitChar(w % 10)];
      w := w / 10;
    }
    s := digits;
  }

  /** `digits` with a decimal point before the last `decPos` of them. */
  function PlacePoint(digits: string, decPos: nat): string {
    if |digits| <= decPos then "0." + Zeros(decPos - |digits|) + digits
    else digits[..|digits| - decPos] + "." + digits[|digits| - decPos..]
  }

  /** A scale of -2^31 is excluded because its negation is not an int32. */
  function ScaledInt64(v: int, scale: int): string
    requires IsInt64(v) && -TWO_31 < scale < TWO_31
  {
    if 0 <= scale then Int64Text(v)
    else AddNeg(PlacePoint(FormatNat(Abs(v)), -scale), v < 0)
  }

  function ScaledBigInt(v: int, scale: int): string
    requires -TWO_31 < scale < TWO_31
  {
    if 0 <= scale then FormatInt(v)
    else AddNeg(PlacePoint(FormatNat(Abs(v)), -scale), v < 0)
  }

  /** Where the point falls decides the numeral; either way its digits keep their value. */
  lemma PointParts(digits: string, decPos: nat, neg: bool)
    requires AllDigits(digits) && digits != ""
    ensures var r := ParseParts(AddNeg(PlacePoint(digits, decPos), neg));
            r.Ok? && r.value.Valid() && r.value.negative == neg && r.value.Power() + decPos == 0
            && DigitsValue(r.value.digits) == DigitsValue(digits)
  {
    var sign := if neg then "-" else "";
    var placed := PlacePoint(digits, decPos);
    assert AddNeg(placed, neg) == sign + placed;
    var whole, frac := SplitAtPoint(digits, decPos);
    PointNumeral(sign, whole, frac, sign + placed);
  }

  lemma SplitAtPoint(digits: string, decPos: nat) returns (whole: string, frac: string)
    requires AllDigits(digits) && digits != ""
    ensures AllDigits(whole) && AllDigits(frac) && whole != "" && |frac| == decPos
    ensures PlacePoint(digits, decPos) == whole + "." + frac
    ensures DigitsValue(whole + frac) == DigitsValue(digits)
  {
    if |digits| <= decPos {
      var z := Zeros(decPos - |digits|);
      whole, frac := "0", z + digits;
      LeadingZerosValue(z, digits);
      assert "0." + z + digits == "0" + "." + (z + digits);
    } else {
      var k := |digits| - decPos;
      whole, frac := digits[..k], digits[k..];
      assert whole + frac == digits;
    }
  }

  lemma LeadingZerosValue(z: string, digits: string)
    requires z == Zeros(|z|) && AllDigits(digits)
    ensures AllDigits("0" + (z + digits)) && DigitsValue("0" + (z + digits)) == DigitsValue(digits)
  {
    DigitsConcat(z, digits);
    ZerosValue(|z|);
    DigitsConcat("0", z + digits);
    assert DigitsValue("0") == 0;
  }

  lemma PointNumeral(sign: string, whole: string, frac: string, s: string)
    requires sign == "" || sign == "-"
    requires AllDigits(whole) && AllDigits(frac) && whole + frac != ""
    requires s == sign + (whole + "." + frac)
    ensures ParseParts(s) == Ok(Parts(sign == "-", StripZeros(whole + frac), |frac|, 0))
  {
    var n := Numeral(sign, whole, Some(frac), None);
    RenderedPoint(n, sign, whole, frac);
    ParseRendered(n);
  }

  lemma RenderedPoint(n: Numeral, sign: string, whole: string, frac: string)
    requires n == Numeral(sign, whole, Some(frac), None)
    requires sign == "" || sign == "-"
    requires AllDigits(whole) && AllDigits(frac) && whole + frac != ""
    ensures n.Valid() && n.Render() == sign + (whole + "." + frac) && n.ExponentValue() == 0
    ensures n.Meaning() == Parts(sign == "-", StripZeros(whole + frac), |frac|, 0)
  {
  }

  /**
   * The printed text is read back as the number it was printed from, for every
   * scale; only the 64-bit printer at scale zero loses negative numbers.
   */
  lemma PrintedReadsBack(v: int, scale: int)
    requires -TWO_31 < scale <= 0
    ensures ScaledBigIntOf(ScaledBigInt(v, scale), scale) == Ok(v)
    ensures IsInt64(v) ==> (ScaledInt64Of(ScaledInt64(v, scale), scale) == Ok(v) <==> scale < 0 || 0 <= v)
  {
    hide ParseParts, DigitsValue, FormatNat, ScaledBigIntOf, PlacePoint;
    var s := ScaledBigInt(v, scale);
    FormatNatValue(Abs(v));
    if scale == 0 {
      FormatIntParts(v);
    } else {
      PointParts(FormatNat(Abs(v)), -scale, v < 0);
    }
    UnitScale(s, scale, v, ParseParts(s).value);
    EmptyText(scale);
  }

  lemma EmptyText(scale: int)
    ensures ScaledBigIntOf("", scale) == Err(Invalid)
  {
  }

  lemma UnitScale(s: string, scale: int, v: int, p: Parts)
    requires ParseParts(s) == Ok(p) && p.Valid() && p.negative == (v < 0) && p.Power() == scale
    requires DigitsValue(p.digits) == Abs(v)
    ensures ScaledBigIntOf(s, scale) == Ok(v)
  {
    hide ParseParts, DigitsValue, ScaledBigIntOf;
    ScaledOfParts(s, scale, p, Abs(v), 0);
    assert ScaleCoefficient(Abs(v), 0) == Abs(v) * 1;
  }
}
