/** DECFLOAT(16) and DECFLOAT(34): IEEE 754-2008 decimal64 and decimal128 in DPD encoding. */
module DecFloat {
  import opened Common
  import opened Powers
  import opened Digits
  import opened DecimalText

  // ---------------------------------------------------------------------------
  // Formatting
  // ---------------------------------------------------------------------------

  /** A trailing fraction of zeros disappears, and so does the point before it. */
  function Fraction(frac: string): string {
    var kept := TrimZeros(frac);
    if kept == "" then "" else "." + kept
  }

  function Sign(negative: bool): string { if negative then "-" else "" }

  /** One digit before the point and a signed exponent after the letter E. */
  function Scientific(coeff: string, adjExp: int): string
    requires coeff != ""
  {
    [coeff[0]] + Fraction(coeff[1..]) + ExponentText(adjExp)
  }

  function ExponentText(adjExp: int): string {
    "E" + (if 0 <= adjExp then "+" else "") + FormatInt(adjExp)
  }

  function Plain(coeff: string, dotPos: int): string
    requires AllDigits(coeff)
  {
    if dotPos <= 0 then "0" + Fraction(Zeros(-dotPos) + coeff)
    else if |coeff| <= dotPos then coeff + Zeros(dotPos - |coeff|)
    else coeff[..dotPos] + Fraction(coeff[dotPos..])
  }

  function FormatCoefficient(c: nat, exponent: int, negative: bool): string {
    if c == 0 then Sign(negative) + "0"
    else
      var coeff := FormatNat(c);
      var adjExp := exponent + |coeff| - 1;
      Sign(negative)
      + if adjExp < -6 || |coeff| + 2 < adjExp then Scientific(coeff, adjExp)
        else Plain(coeff, |coeff| + exponent)
  }

  /** Writes head, point and fraction, then drops trailing zeros and a trailing point. */
  method TrimFraction(head: string, frac: string) returns (buf: string)
    requires AllDigits(frac)
    ensures buf == head + Fraction(frac)
  {
    hide TrimZeros;
    buf := head + "." + frac;
    var n := |buf|;
    ghost var start := |head| + 1;
    assert frac[..|frac|] == frac && buf[start - 1] == '.';
    while 0 < n && buf[n - 1] == '0'
      invariant start <= n <= |buf|
      invariant TrimZeros(frac[..n - start]) == TrimZeros(frac)
    {
      TrimStep(frac, n - start);
      n := n - 1;
    }
    ghost var kept := frac[..n - start];
    assert kept != "" ==> kept[|kept| - 1] == buf[n - 1] && IsDigit(buf[n - 1]);
    assert kept == "" ==> buf[n - 1] == '.';
    TrimDone(kept);
    assert buf[..n] == head + "." + kept && (kept == "" ==> buf[..n - 1] == head);
    if buf[n - 1] == '.' {
      n := n - 1;
    }
    buf := buf[..n];
  }

  lemma TrimStep(s: string, n: nat)
    requires 0 < n <= |s| && s[n - 1] == '0'
    ensures TrimZeros(s[..n - 1]) == TrimZeros(s[..n])
  {
    assert s[..n][..n - 1] == s[..n - 1];
  }

  lemma TrimDone(s: string)
    requires s == "" || s[|s| - 1] != '0'
    ensures TrimZeros(s) == s
  {
  }

  method AppendZeros(input: string, n: int) returns (buf: string)
    ensures buf == input + Zeros(if n < 0 then 0 else n)
  {
    buf := input;
    for i := 0 to if n < 0 then 0 else n
      invariant buf == input + Zeros(i)
    {
      assert Zeros(i + 1) == Zeros(i) + "0";
      buf := buf + ['0'];
    }
  }

  method FormatDecimalCoefficient(digits: nat, exponent: int, negative: bool) returns (s: string)
    ensures s == FormatCoefficient(digits, exponent, negative)
  {
    if digits == 0 {
      return if negative then "-0" else "0";
    }
    var coeff := FormatNat(digits);
    var adjExp := exponent + |coeff| - 1;
    var buf := if negative then "-" else "";
    if adjExp < -6 || adjExp > |coeff| + 2 {
      s := AppendScientific(buf, coeff, adjExp);
    } else {
      s := AppendPlain(buf, coeff, |coeff| + exponent);
    }
  }

  method AppendScientific(prefix: string, coeff: string, adjExp: int) returns (buf: string)
    requires coeff != "" && AllDigits(coeff)
    ensures buf == prefix + Scientific(coeff, adjExp)
  {
    hide Fraction, ExponentText;
    buf := prefix + [coeff[0]];
    if |coeff| > 1 {
      buf := TrimFraction(buf, coeff[1..]);
    } else {
      FractionOfNothing(coeff[1..]);
    }
    assert buf == prefix + [coeff[0]] + Fraction(coeff[1..]);
    buf := AppendExponent(buf, adjExp);
    Associate(prefix, [coeff[0]], Fraction(coeff[1..]), ExponentText(adjExp));
  }

  method AppendExponent(prefix: string, adjExp: int) returns (buf: string)
    ensures buf == prefix + ExponentText(adjExp)
  {
    hide FormatInt;
    buf := prefix + "E";
    if adjExp >= 0 {
      buf := buf + "+";
    }
    buf := buf + FormatInt(adjExp);
  }

  lemma FractionOfNothing(frac: string)
    ensures frac == "" ==> Fraction(frac) == ""
  {
  }

  method AppendPlain(prefix: string, coeff: string, dotPos: int) returns (buf: string)
    requires AllDigits(coeff)
    ensures buf == prefix + Plain(coeff, dotPos)
  {
    hide Fraction;
    if dotPos <= 0 {
      var zeros := AppendZeros("", -dotPos);
      assert zeros == Zeros(-dotPos);
      buf := TrimFraction(prefix + "0", zeros + coeff);
      assert buf == prefix + ("0" + Fraction(zeros + coeff));
    } else if dotPos >= |coeff| {
      buf := AppendZeros(prefix + coeff, dotPos - |coeff|);
    } else {
      buf := TrimFraction(prefix + coeff[..dotPos], coeff[dotPos..]);
      assert buf == prefix + (coeff[..dotPos] + Fraction(coeff[dotPos..]));
    }
  }

  // ---------------------------------------------------------------------------
  // Values
  // ---------------------------------------------------------------------------

  /** `c1` * 10^`e1` and `c2` * 10^`e2` are the same number. */
  ghost predicate SameValue(c1: nat, e1: int, c2: nat, e2: int) {
    if e2 <= e1 then c1 * Pow(10, e1 - e2) == c2 else c1 == c2 * Pow(10, e2 - e1)
  }

  /** Reading `s` gives exactly the number with this sign, coefficient and exponent. */
  ghost predicate Denotes(s: string, negative: bool, c: nat, exponent: int) {
    var r := ParseParts(s);
    r.Ok? && r.value.Valid() && r.value.negative == negative
    && SameValue(DigitsValue(r.value.digits), r.value.Power(), c, exponent)
  }

  function Point(frac: string): Option<string> {
    if frac == "" then None else Some(frac)
  }

  /** Dropping the zeros at the end of a fraction only moves them into the exponent. */
  lemma TrimmedValue(head: string, frac: string, c: nat, exponent: int)
    requires AllDigits(head) && AllDigits(frac) && DigitsValue(head + frac) == c
    ensures var kept := TrimZeros(frac);
            AllDigits(kept) && SameValue(DigitsValue(head + kept), exponent - |kept|, c, exponent - |frac|)
  {
    var kept := TrimZeros(frac);
    var z := Zeros(|frac| - |kept|);
    assert frac == kept + z;
    assert head + frac == (head + kept) + z;
    DigitsConcat(head, frac);
    DigitsConcat(head, kept);
    DigitsConcat(head + kept, z);
    ZerosValue(|z|);
  }

  lemma NumeralDenotes(n: Numeral, s: string, c: nat, exponent: int)
    requires n.Valid() && s == n.Render() && IsInt64(n.ExponentValue())
    requires SameValue(DigitsValue(n.whole + n.FracDigits()), n.ExponentValue() - |n.FracDigits()|, c, exponent)
    ensures Denotes(s, n.sign == "-", c, exponent)
  {
    hide ParseParts;
    ParseRendered(n);
  }

  function Tail(exp: Option<Exponent>): string {
    if exp.None? then "" else [exp.value.mark] + exp.value.sign + exp.value.digits
  }

  ghost predicate ValidTail(exp: Option<Exponent>) {
    exp.Some? ==> (exp.value.mark == 'E' && IsSign(exp.value.sign) && exp.value.digits != "" && AllDigits(exp.value.digits))
  }

  function TailValue(exp: Option<Exponent>): int
    requires ValidTail(exp)
  {
    if exp.None? then 0
    else if exp.value.sign == "-" then -(DigitsValue(exp.value.digits) as int)
    else DigitsValue(exp.value.digits)
  }

  lemma FractionNumeral(negative: bool, head: string, frac: string, exp: Option<Exponent>) returns (n: Numeral)
    requires AllDigits(head) && head != "" && AllDigits(frac) && ValidTail(exp)
    ensures n.Valid() && n.Render() == Sign(negative) + (head + Fraction(frac) + Tail(exp))
    ensures n.whole == head && n.FracDigits() == TrimZeros(frac) && n.ExponentValue() == TailValue(exp)
    ensures n.sign == Sign(negative)
  {
    var kept := TrimZeros(frac);
    TrimZerosValue(frac);
    n := Numeral(Sign(negative), head, Point(kept), exp);
    RenderedFraction(n, kept);
  }

  lemma RenderedFraction(n: Numeral, kept: string)
    requires n.frac == Point(kept)
    ensures n.Render() == n.sign + (n.whole + (if kept == "" then "" else "." + kept) + Tail(n.exp))
  {
    Associate(n.sign, n.whole, if kept == "" then "" else "." + kept, Tail(n.exp));
  }

  /** A number written as head, trimmed fraction and optional exponent denotes what the untrimmed digits do. */
  lemma FractionDenotes(negative: bool, head: string, frac: string, exp: Option<Exponent>, c: nat, exponent: int)
    requires AllDigits(head) && head != "" && AllDigits(frac) && DigitsValue(head + frac) == c
    requires ValidTail(exp) && IsInt64(TailValue(exp)) && TailValue(exp) - |frac| == exponent
    ensures Denotes(Sign(negative) + (head + Fraction(frac) + Tail(exp)), negative, c, exponent)
  {
    hide Denotes, SameValue, TrimZeros, Fraction, Tail, DigitsValue;
    var n := FractionNumeral(negative, head, frac, exp);
    TrimmedValue(head, frac, c, TailValue(exp));
    NumeralDenotes(n, n.Render(), c, exponent);
  }

  lemma PlainFractionDenotes(negative: bool, head: string, frac: string, c: nat, exponent: int)
    requires AllDigits(head) && head != "" && AllDigits(frac) && DigitsValue(head + frac) == c
    requires -|frac| == exponent
    ensures Denotes(Sign(negative) + (head + Fraction(frac)), negative, c, exponent)
  {
    hide Denotes, Fraction;
    FractionDenotes(negative, head, frac, None, c, exponent);
    assert head + Fraction(frac) + "" == head + Fraction(frac);
  }

  /** The formatted text denotes the number it was made from, in every notation. */
  lemma FormatDenotes(c: nat, exponent: int, negative: bool)
    requires IsInt32(exponent) && |FormatNat(c)| < TWO_31
    ensures Denotes(FormatCoefficient(c, exponent, negative), negative, c, exponent)
  {
    hide Denotes;
    var coeff := FormatNat(c);
    FormatNatValue(c);
    var s := FormatCoefficient(c, exponent, negative);
    if c == 0 {
      ZeroDenotes(negative, exponent);
    } else if exponent + |coeff| - 1 < -6 || |coeff| + 2 < exponent + |coeff| - 1 {
      ScientificDenotes(c, coeff, exponent, negative);
    } else {
      PlainDenotes(c, coeff, exponent, negative);
    }
  }

  lemma ZeroDenotes(negative: bool, exponent: int)
    ensures Denotes(Sign(negative) + "0", negative, 0, exponent)
  {
    hide ParseParts;
    var n := Numeral(Sign(negative), "0", None, None);
    assert n.Render() == Sign(negative) + "0";
    assert n.whole + n.FracDigits() == "0";
    assert DigitsValue("0") == 0;
    NumeralDenotes(n, n.Render(), 0, exponent);
  }

  lemma ScientificDenotes(c: nat, coeff: string, exponent: int, negative: bool)
    requires coeff != "" && AllDigits(coeff) && DigitsValue(coeff) == c
    requires IsInt32(exponent) && |coeff| < TWO_31
    ensures Denotes(Sign(negative) + Scientific(coeff, exponent + |coeff| - 1), negative, c, exponent)
  {
    hide Denotes, Fraction, ExponentText, Tail;
    var adjExp := exponent + |coeff| - 1;
    var exp := ExponentTail(adjExp);
    var head := [coeff[0]];
    assert head + coeff[1..] == coeff;
    FractionDenotes(negative, head, coeff[1..], Some(exp), c, exponent);
  }

  lemma ExponentTail(adjExp: int) returns (exp: Exponent)
    ensures ValidTail(Some(exp)) && TailValue(Some(exp)) == adjExp && Tail(Some(exp)) == ExponentText(adjExp)
  {
    hide FormatNat, DigitsValue;
    var digits := FormatNat(Abs(adjExp));
    FormatNatValue(Abs(adjExp));
    exp := Exponent('E', if adjExp < 0 then "-" else "+", digits);
    assert "E" + "" + ("-" + digits) == "E" + "-" + digits;
  }

  lemma PlainDenotes(c: nat, coeff: string, exponent: int, negative: bool)
    requires coeff != "" && AllDigits(coeff) && DigitsValue(coeff) == c
    ensures Denotes(Sign(negative) + Plain(coeff, |coeff| + exponent), negative, c, exponent)
  {
    hide Denotes, Fraction, DigitsValue, AllDigits, Sign;
    var dotPos := |coeff| + exponent;
    if dotPos <= 0 {
      SmallDenotes(c, coeff, -dotPos, negative);
    } else if |coeff| <= dotPos {
      IntegerDenotes(c, coeff, exponent, negative);
    } else {
      MixedDenotes(c, coeff, dotPos, negative);
    }
  }

  lemma SmallDenotes(c: nat, coeff: string, zeros: int, negative: bool)
    requires 0 <= zeros && AllDigits(coeff) && DigitsValue(coeff) == c
    ensures Denotes(Sign(negative) + ("0" + Fraction(Zeros(zeros) + coeff)), negative, c, -zeros - |coeff|)
  {
    hide Denotes, Fraction;
    SmallFraction(coeff, zeros);
    PlainFractionDenotes(negative, "0", Zeros(zeros) + coeff, c, -zeros - |coeff|);
  }

  lemma MixedDenotes(c: nat, coeff: string, dotPos: int, negative: bool)
    requires AllDigits(coeff) && DigitsValue(coeff) == c && 0 < dotPos < |coeff|
    ensures Denotes(Sign(negative) + (coeff[..dotPos] + Fraction(coeff[dotPos..])), negative, c, dotPos - |coeff|)
  {
    hide Denotes, Fraction;
    assert coeff[..dotPos] + coeff[dotPos..] == coeff;
    PlainFractionDenotes(negative, coeff[..dotPos], coeff[dotPos..], c, dotPos - |coeff|);
  }

  lemma SmallFraction(coeff: string, zeros: nat)
    requires AllDigits(coeff)
    ensures DigitsValue("0" + (Zeros(zeros) + coeff)) == DigitsValue(coeff)
  {
    DigitsConcat(Zeros(zeros), coeff);
    ZerosValue(zeros);
    DigitsConcat("0", Zeros(zeros) + coeff);
    assert DigitsValue("0") == 0;
  }

  lemma IntegerDenotes(c: nat, coeff: string, exponent: nat, negative: bool)
    requires coeff != "" && AllDigits(coeff) && DigitsValue(coeff) == c
    ensures Denotes(Sign(negative) + (coeff + Zeros(exponent)), negative, c, exponent)
  {
    hide ParseParts;
    var z := Zeros(exponent);
    var n := Numeral(Sign(negative), coeff + z, None, None);
    DigitsConcat(coeff, z);
    ZerosValue(exponent);
    assert n.Render() == Sign(negative) + (coeff + z);
    assert n.whole + n.FracDigits() == coeff + z;
    NumeralDenotes(n, n.Render(), c, exponent);
  }
}
