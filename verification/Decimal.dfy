/** Strings of decimal digits and the numbers they write. */
module Digits {
  import opened Common
  import opened Powers

  predicate IsDigit(c: char) { '0' <= c <= '9' }

  predicate AllDigits(s: string) { forall i :: 0 <= i < |s| ==> IsDigit(s[i]) }

  function DigitValue(c: char): (d: nat)
    requires IsDigit(c)
    ensures d < 10
  {
    c as int - '0' as int
  }

  function DigitChar(d: nat): (c: char)
    requires d < 10
    ensures IsDigit(c) && DigitValue(c) == d
  {
    ('0' as int + d) as char
  }

  function DigitsValue(s: string): nat
    requires AllDigits(s)
  {
    if s == "" then 0 else DigitsValue(s[..|s| - 1]) * 10 + DigitValue(s[|s| - 1])
  }

  /** Decimal digits without leading zeros; zero is one digit. */
  function FormatNat(n: nat): (s: string)
    ensures s != "" && AllDigits(s)
  {
    if n < 10 then [DigitChar(n)] else FormatNat(n / 10) + [DigitChar(n % 10)]
  }

  function FormatInt(v: int): string {
    if v < 0 then "-" + FormatNat(-v) else FormatNat(v)
  }

  function Zeros(n: nat): (s: string)
    ensures |s| == n && AllDigits(s)
  {
    Repeat('0', n)
  }

  lemma {:induction false} FormatNatValue(n: nat)
    ensures DigitsValue(FormatNat(n)) == n
    ensures n != 0 ==> FormatNat(n)[0] != '0'
  {
    if 10 <= n {
      FormatNatValue(n / 10);
      assert FormatNat(n)[..|FormatNat(n)| - 1] == FormatNat(n / 10);
    }
  }

  lemma MulTen(x: int, p: int)
    ensures x * (10 * p) == 10 * (x * p)
  {
  }

  lemma {:induction false} DigitsConcat(a: string, b: string)
    requires AllDigits(a) && AllDigits(b)
    ensures AllDigits(a + b)
    ensures DigitsValue(a + b) == DigitsValue(a) * Pow(10, |b|) + DigitsValue(b)
  {
    if b == "" {
      assert a + b == a;
    } else {
      var b', d := b[..|b| - 1], DigitValue(b[|b| - 1]);
      assert (a + b)[..|a + b| - 1] == a + b';
      DigitsConcat(a, b');
      MulTen(DigitsValue(a), Pow(10, |b'|));
    }
  }

  lemma {:induction false} ZerosValue(n: nat)
    ensures DigitsValue(Zeros(n)) == 0
  {
    if n != 0 {
      assert Zeros(n)[..n - 1] == Zeros(n - 1);
      ZerosValue(n - 1);
    }
  }

  lemma {:induction false} DigitsBound(s: string)
    requires AllDigits(s)
    ensures DigitsValue(s) < Pow(10, |s|)
  {
    if s != "" {
      DigitsBound(s[..|s| - 1]);
    }
  }

  lemma {:induction false} PowMonotone(m: nat, n: nat)
    requires m <= n
    ensures 1 <= Pow(10, m) <= Pow(10, n)
    ensures m < n ==> 10 * Pow(10, m) <= Pow(10, n)
  {
    PowPositive(10, m);
    if m < n {
      PowMonotone(m, n - 1);
    }
  }

  /** Leading zeros carry no value. */
  function StripZeros(s: string): (r: string)
    requires AllDigits(s)
    ensures AllDigits(r) && |r| <= |s| && (s != "" ==> r != "")
    ensures DigitsValue(r) == DigitsValue(s)
  {
    if 1 < |s| && s[0] == '0' then
      assert s == "0" + s[1..];
      DigitsConcat("0", s[1..]);
      StripZeros(s[1..])
    else s
  }

  /** Trailing zeros are a power of ten. */
  function TrimZeros(s: string): (r: string)
    ensures |r| <= |s| && r == s[..|r|]
    ensures forall i :: |r| <= i < |s| ==> s[i] == '0'
    ensures r != "" ==> r[|r| - 1] != '0'
  {
    if s != "" && s[|s| - 1] == '0' then TrimZeros(s[..|s| - 1]) else s
  }

  lemma TrimZerosValue(s: string)
    requires AllDigits(s)
    ensures AllDigits(TrimZeros(s))
    ensures DigitsValue(s) == DigitsValue(TrimZeros(s)) * Pow(10, |s| - |TrimZeros(s)|)
  {
    var r := TrimZeros(s);
    var k := |s| - |r|;
    assert s == r + Zeros(k);
    DigitsConcat(r, Zeros(k));
    ZerosValue(k);
  }
}

/** Strict parsing of decimal text. */
module DecimalText {
  import opened Common
  import opened Digits

  datatype DecimalError = Invalid | ExponentRange | Overflow

  /** Unicode white space, as string trimming understands it. */
  predicate IsSpace(c: char) {
    '\t' <= c <= '\r' || c == ' ' || c == '\U{85}' || c == '\U{A0}' || c == '\U{1680}'
    || '\U{2000}' <= c <= '\U{200A}' || c == '\U{2028}' || c == '\U{2029}' || c == '\U{202F}'
    || c == '\U{205F}' || c == '\U{3000}'
  }

  function TrimLeft(s: string): (r: string)
    ensures |r| <= |s|
  {
    if s != "" && IsSpace(s[0]) then TrimLeft(s[1..]) else s
  }

  function TrimRight(s: string): (r: string)
    ensures |r| <= |s|
  {
    if s != "" && IsSpace(s[|s| - 1]) then TrimRight(s[..|s| - 1]) else s
  }

  function TrimSpace(s: string): (r: string)
    ensures |r| <= |s|
  {
    TrimRight(TrimLeft(s))
  }

  /** The end of the run of digits that starts at `i`. */
  function DigitRun(s: string, i: nat): (j: nat)
    requires i <= |s|
    ensures i <= j <= |s| && AllDigits(s[i..j])
    ensures j < |s| ==> !IsDigit(s[j])
    decreases |s| - i
  {
    if i < |s| && IsDigit(s[i]) then
      var j := DigitRun(s, i + 1);
      assert s[i..j] == [s[i]] + s[i + 1..j];
      j
    else i
  }

  /** The parts of an accepted decimal: sign, digits, how many follow the point, written exponent. */
  datatype Parts = Parts(negative: bool, digits: string, frac: nat, exponent: int) {
    ghost predicate Valid() {
      AllDigits(digits) && digits != ""
    }

    /** The power of ten that scales the digits. */
    function Power(): int { exponent - frac }
  }

  function ScanExponent(t: string, i: nat): Result<int, DecimalError>
    requires i <= |t|
  {
    if i < |t| && (t[i] == 'e' || t[i] == 'E') then
      var start := if i + 1 < |t| && (t[i + 1] == '+' || t[i + 1] == '-') then i + 2 else i + 1;
      var end := DigitRun(t, start);
      if start == end then Err(Invalid)
      else
        var n := DigitsValue(t[start..end]);
        var v: int := if t[i + 1] == '-' then -(n as int) else n;
        if !IsInt64(v) then Err(ExponentRange)
        else if end != |t| then Err(Invalid)
        else Ok(v)
    else if i != |t| then Err(Invalid)
    else Ok(0)
  }

  function SignEnd(t: string): (i: nat)
    requires t != ""
    ensures i <= |t|
  {
    if t[0] == '-' || t[0] == '+' then 1 else 0
  }

  predicate HasPoint(t: string)
    requires t != ""
  {
    var dot := DigitRun(t, SignEnd(t));
    dot < |t| && t[dot] == '.'
  }

  function MantissaEnd(t: string): (end: nat)
    requires t != ""
    ensures end <= |t|
  {
    var dot := DigitRun(t, SignEnd(t));
    if HasPoint(t) then DigitRun(t, dot + 1) else dot
  }

  function FracDigits(t: string): (frac: string)
    requires t != ""
    ensures AllDigits(frac) && |frac| <= |t|
  {
    if HasPoint(t) then t[DigitRun(t, SignEnd(t)) + 1..MantissaEnd(t)] else ""
  }

  function MantissaDigits(t: string): (digits: string)
    requires t != ""
    ensures AllDigits(digits) && |digits| <= |t|
  {
    t[SignEnd(t)..DigitRun(t, SignEnd(t))] + FracDigits(t)
  }

  function ParseParts(s: string): (r: Result<Parts, DecimalError>)
    ensures r.Ok? ==> r.value.Valid() && |r.value.digits| <= |s| && r.value.frac <= |s| && IsInt64(r.value.exponent)
  {
    var t := TrimSpace(s);
    if t == "" || MantissaDigits(t) == "" then Err(Invalid)
    else
      match ScanExponent(t, MantissaEnd(t))
      case Err(e) => Err(e)
      case Ok(v) => Ok(Parts(t[0] == '-', StripZeros(MantissaDigits(t)), |FracDigits(t)|, v))
  }

  datatype Parsed = Parsed(negative: bool, digits: string, exp: int)

  /** What the parser hands on: the power of ten is computed in 64-bit arithmetic. */
  function ParseDecimal(s: string): Result<Parsed, DecimalError> {
    match ParseParts(s)
    case Err(e) => Err(e)
    case Ok(p) => Ok(Parsed(p.negative, p.digits, Wrap64(p.Power())))
  }

  method ParseDecimalStringStrict(input: string) returns (r: Result<Parsed, DecimalError>)
    ensures r == ParseDecimal(input)
  {
    var s := TrimSpace(input);
    if s == "" {
      return Err(Invalid);
    }
    var i, negative := 0, false;
    if s[i] == '-' {
      negative := true;
      i := i + 1;
    } else if s[i] == '+' {
      i := i + 1;
    }
    if i == |s| {
      return Err(Invalid);
    }
    var digits, fracDigits, end, repeated := ScanMantissa(s, i);
    if repeated {
      return Err(Invalid);
    }
    i := end;
    if |digits| == 0 {
      return Err(Invalid);
    }
    var scan := ReadExponent(s, i);
    match scan
    case Err(e) =>
      r := Err(e);
    case Ok(exponent) =>
      digits := DropLeadingZeros(digits);
      r := Ok(Parsed(negative, digits, Wrap64(exponent - fracDigits)));
  }

  method ReadExponent(s: string, start: nat) returns (r: Result<int, DecimalError>)
    requires start <= |s|
    ensures r == ScanExponent(s, start)
  {
    var i, exponent: int := start, 0;
    if i < |s| && (s[i] == 'e' || s[i] == 'E') {
      i := i + 1;
      var expStart := i;
      if i < |s| && (s[i] == '+' || s[i] == '-') {
        i := i + 1;
      }
      var digitStart := i;
      i := SkipDigits(s, i);
      if digitStart == i {
        return Err(Invalid);
      }
      exponent := DigitsValue(s[digitStart..i]);
      if s[expStart] == '-' {
        exponent := -exponent;
      }
      if !IsInt64(exponent) {
        return Err(ExponentRange);
      }
    }
    if i != |s| {
      return Err(Invalid);
    }
    r := Ok(exponent);
  }

  /** Digits with at most one point among them; stops with `repeated` at a second point. */
  lemma DigitRunStep(s: string, i: nat)
    requires i < |s|
    ensures IsDigit(s[i]) <==> '0' <= s[i] <= '9'
    ensures DigitRun(s, i) == if IsDigit(s[i]) then DigitRun(s, i + 1) else i
    ensures DigitRun(s, |s|) == |s|
  {
  }

  lemma SliceSnoc(s: string, from: nat, i: nat)
    requires from <= i < |s|
    ensures s[from..i + 1] == s[from..i] + [s[i]]
  {
  }

  lemma MantissaBounds(s: string, start: nat, dot: nat, end: nat)
    requires s != "" && start == SignEnd(s) && dot == DigitRun(s, start) && end == MantissaEnd(s)
    ensures start <= dot <= end <= |s| && DigitRun(s, |s|) == |s|
    ensures HasPoint(s) <==> dot < |s| && s[dot] == '.'
    ensures HasPoint(s) ==> dot < end && end == DigitRun(s, dot + 1) && FracDigits(s) == s[dot + 1..end]
    ensures !HasPoint(s) ==> end == dot && FracDigits(s) == ""
    ensures MantissaDigits(s) == s[start..dot] + FracDigits(s)
  {
  }

  method ScanMantissa(s: string, start: nat) returns (digits: string, fracDigits: nat, i: nat, repeated: bool)
    requires s != "" && start == SignEnd(s)
    ensures !repeated ==> digits == MantissaDigits(s) && fracDigits == |FracDigits(s)| && i == MantissaEnd(s)
    ensures repeated ==> MantissaEnd(s) < |s| && s[MantissaEnd(s)] == '.'
  {
    hide DigitRun, AllDigits, MantissaEnd, HasPoint, MantissaDigits, FracDigits;
    ghost var dot, hasPoint, end := DigitRun(s, start), HasPoint(s), MantissaEnd(s);
    MantissaBounds(s, start, dot, end);
    i, repeated := start, false;
    var seenDot := false;
    digits, fracDigits := "", 0;
    while i < |s|
      invariant !repeated && start <= i <= end
      invariant seenDot ==> hasPoint
      invariant !seenDot ==> i <= dot && digits == s[start..i] && fracDigits == 0 && DigitRun(s, i) == dot
      invariant seenDot ==> dot < i && digits == s[start..dot] + s[dot + 1..i] && fracDigits == i - dot - 1
      invariant seenDot ==> DigitRun(s, i) == end
    {
      var ch := s[i];
      DigitRunStep(s, i);
      if '0' <= ch <= '9' {
        SliceSnoc(s, if seenDot then dot + 1 else start, i);
        digits := digits + [ch];
        if seenDot {
          fracDigits := fracDigits + 1;
        }
        i := i + 1;
        continue;
      }
      if ch == '.' {
        if seenDot {
          repeated := true;
          return;
        }
        seenDot := true;
        i := i + 1;
        continue;
      }
      break;
    }
  }

  method SkipDigits(s: string, start: nat) returns (i: nat)
    requires start <= |s|
    ensures i == DigitRun(s, start)
  {
    i := start;
    while i < |s| && '0' <= s[i] <= '9'
      invariant start <= i <= |s| && DigitRun(s, i) == DigitRun(s, start)
    {
      i := i + 1;
    }
  }

  method DropLeadingZeros(digits: string) returns (r: string)
    requires digits != "" && AllDigits(digits)
    ensures r == StripZeros(digits)
  {
    var firstNonZero := 0;
    while firstNonZero < |digits| - 1 && digits[firstNonZero] == '0'
      invariant 0 <= firstNonZero < |digits| && AllDigits(digits)
      invariant StripZeros(digits[firstNonZero..]) == StripZeros(digits)
    {
      assert digits[firstNonZero..][1..] == digits[firstNonZero + 1..];
      firstNonZero := firstNonZero + 1;
    }
    r := digits[firstNonZero..];
  }

  // ---------------------------------------------------------------------------
  // The accepted language, as a grammar
  // ---------------------------------------------------------------------------

  predicate IsSign(s: string) {
    s == "" || (|s| == 1 && (s[0] == '-' || s[0] == '+'))
  }

  datatype Exponent = Exponent(mark: char, sign: string, digits: string)

  datatype Numeral = Numeral(sign: string, whole: string, frac: Option<string>, exp: Option<Exponent>) {
    function FracDigits(): string { if frac.Some? then frac.value else "" }

    predicate Valid() {
      && IsSign(sign)
      && AllDigits(whole) && AllDigits(FracDigits()) && whole + FracDigits() != ""
      && (exp.Some? ==> (exp.value.mark == 'e' || exp.value.mark == 'E') && IsSign(exp.value.sign)
                        && exp.value.digits != "" && AllDigits(exp.value.digits))
    }

    function Render(): string {
      sign + whole
      + (if frac.Some? then "." + frac.value else "")
      + (if exp.Some? then [exp.value.mark] + exp.value.sign + exp.value.digits else "")
    }

    function ExponentValue(): int
      requires Valid()
    {
      if exp.None? then 0
      else if exp.value.sign == "-" then -(DigitsValue(exp.value.digits) as int)
      else DigitsValue(exp.value.digits)
    }

    function Meaning(): Parts
      requires Valid()
    {
      Parts(sign == "-", StripZeros(whole + FracDigits()), |FracDigits()|, ExponentValue())
    }
  }

  lemma RunEnds(s: string, i: nat, j: nat)
    requires i <= j <= |s| && AllDigits(s[i..j]) && (j < |s| ==> !IsDigit(s[j]))
    ensures DigitRun(s, i) == j
    decreases j - i
  {
    if i < j {
      assert s[i..j][0] == s[i];
      assert s[i..j][1..] == s[i + 1..j];
      RunEnds(s, i + 1, j);
    }
  }

  lemma NoSpaceToTrim(s: string)
    requires s != "" && !IsSpace(s[0]) && !IsSpace(s[|s| - 1])
    ensures TrimSpace(s) == s
  {
  }

  lemma RenderedIsTrimmed(n: Numeral)
    requires n.Valid()
    ensures n.Render() != "" && TrimSpace(n.Render()) == n.Render()
  {
    var s := n.Render();
    if n.exp.Some? {
      assert s[|s| - 1] == n.exp.value.digits[|n.exp.value.digits| - 1];
    } else if n.frac.Some? {
      if n.frac.value != "" {
        assert s[|s| - 1] == n.frac.value[|n.frac.value| - 1];
      } else {
        assert s[|s| - 1] == '.';
      }
    } else {
      assert s[|s| - 1] == n.whole[|n.whole| - 1];
    }
    NoSpaceToTrim(s);
  }

  /** Every numeral of the grammar is read as what it means, unless its exponent leaves 64 bits. */
  lemma ParseRendered(n: Numeral)
    requires n.Valid()
    ensures ParseParts(n.Render()) == if IsInt64(n.ExponentValue()) then Ok(n.Meaning()) else Err(ExponentRange)
  {
    RenderedIsTrimmed(n);
    RenderedMantissa(n);
    RenderedExponent(n, n.Render(), MantissaEnd(n.Render()));
  }

  lemma RenderedMantissa(n: Numeral)
    requires n.Valid()
    ensures var t := n.Render();
            t != "" && (t[0] == '-' <==> n.sign == "-")
            && MantissaDigits(t) == n.whole + n.FracDigits() && FracDigits(t) == n.FracDigits()
            && MantissaEnd(t) == |n.sign| + |n.whole| + if n.frac.Some? then 1 + |n.frac.value| else 0
  {
    var t := n.Render();
    var start, dot := |n.sign|, |n.sign| + |n.whole|;
    var end := if n.frac.Some? then dot + 1 + |n.frac.value| else dot;
    var point := if n.frac.Some? then "." + n.frac.value else "";
    var exp := if n.exp.Some? then [n.exp.value.mark] + n.exp.value.sign + n.exp.value.digits else "";
    FourPieces(n.sign, n.whole, point, exp, t);
    assert n.frac.Some? ==> point[0] == '.' && point[1..] == n.frac.value;
    if n.sign == "" {
      assert t[0] == if n.whole != "" then n.whole[0] else '.';
    } else {
      assert t[0] == n.sign[0];
    }
    MantissaShape(t, start, dot, end, n.frac.Some?);
  }

  lemma FourPieces(a: string, b: string, c: string, d: string, t: string)
    requires t == a + b + c + d
    ensures t[..|a|] == a && t[|a|..|a| + |b|] == b
    ensures t[|a| + |b|..|a| + |b| + |c|] == c && t[|a| + |b| + |c|..] == d
    ensures c != "" ==> t[|a| + |b|] == c[0] && t[|a| + |b| + 1..|a| + |b| + |c|] == c[1..]
    ensures d != "" ==> t[|a| + |b| + |c|] == d[0]
  {
  }

  lemma MantissaShape(t: string, start: nat, dot: nat, end: nat, point: bool)
    requires t != "" && start == SignEnd(t) && start <= dot <= end <= |t|
    requires AllDigits(t[start..dot])
    requires if point then dot < end && t[dot] == '.' && AllDigits(t[dot + 1..end]) else dot == end
    requires end < |t| ==> t[end] == 'e' || t[end] == 'E'
    ensures DigitRun(t, start) == dot && HasPoint(t) == point && MantissaEnd(t) == end
    ensures FracDigits(t) == if point then t[dot + 1..end] else ""
  {
    RunEnds(t, start, dot);
    if point {
      RunEnds(t, dot + 1, end);
    }
  }

  lemma RenderedExponent(n: Numeral, t: string, end: nat)
    requires n.Valid() && t == n.Render()
    requires end == |n.sign| + |n.whole| + if n.frac.Some? then 1 + |n.frac.value| else 0
    ensures end <= |t|
    ensures ScanExponent(t, end) == if IsInt64(n.ExponentValue()) then Ok(n.ExponentValue()) else Err(ExponentRange)
  {
    hide DigitsValue;
    if n.exp.Some? {
      var e := n.exp.value;
      assert t[end..] == [e.mark] + e.sign + e.digits;
      ExponentShape(t, end, e);
    }
  }

  lemma ExponentShape(t: string, end: nat, e: Exponent)
    requires end <= |t| && t[end..] == [e.mark] + e.sign + e.digits
    requires (e.mark == 'e' || e.mark == 'E') && IsSign(e.sign) && e.digits != "" && AllDigits(e.digits)
    ensures var v := if e.sign == "-" then -(DigitsValue(e.digits) as int) else DigitsValue(e.digits);
            ScanExponent(t, end) == if IsInt64(v) then Ok(v) else Err(ExponentRange)
  {
    hide DigitsValue;
    var from := end + 1 + |e.sign|;
    assert t[end] == t[end..][0] == e.mark;
    var rest := t[end..];
    assert t[from..|t|] == rest[1 + |e.sign|..];
    assert rest == ([e.mark] + e.sign) + e.digits && |[e.mark] + e.sign| == 1 + |e.sign|;
    assert rest[1 + |e.sign|..] == e.digits;
    assert t[end + 1] == t[end..][1] == if e.sign == "" then e.digits[0] else e.sign[0];
    RunEnds(t, from, |t|);
  }

  /** Whatever the parser accepts is, apart from surrounding space, a numeral of the grammar. */
  lemma AcceptedIsRendered(s: string) returns (n: Numeral)
    requires ParseParts(s).Ok?
    ensures n.Valid() && n.Render() == TrimSpace(s) && n.Meaning() == ParseParts(s).value
  {
    hide TrimSpace, DigitsValue, StripZeros, DigitRun;
    var t := TrimSpace(s);
    var start, end := SignEnd(t), MantissaEnd(t);
    var dot := DigitRun(t, start);
    var exp := SplitExponent(t, end);
    var frac := if HasPoint(t) then Some(FracDigits(t)) else None;
    n := Numeral(t[..start], t[start..dot], frac, exp);
    PointSplit(t, start, dot, end, frac);
    assert n.whole + n.FracDigits() == MantissaDigits(t);
    assert (t[..start] == "-") == (t[0] == '-') by {
      if start == 1 {
        assert t[..start] == [t[0]];
      }
    }
    assert n.Render() == t by {
      SplitFour(t, start, dot, end);
    }
  }

  lemma PointSplit(t: string, start: nat, dot: nat, end: nat, frac: Option<string>)
    requires t != "" && start == SignEnd(t) && dot == DigitRun(t, start) && end == MantissaEnd(t)
    requires frac == if HasPoint(t) then Some(FracDigits(t)) else None
    ensures start <= dot <= end
    ensures t[dot..end] == if frac.Some? then "." + frac.value else ""
  {
  }

  lemma SplitFour(t: string, i: nat, j: nat, k: nat)
    requires i <= j <= k <= |t|
    ensures t == t[..i] + t[i..j] + t[j..k] + t[k..]
  {
  }

  lemma SplitExponent(t: string, end: nat) returns (exp: Option<Exponent>)
    requires end <= |t| && ScanExponent(t, end).Ok?
    ensures exp.None? ==> end == |t| && ScanExponent(t, end).value == 0
    ensures exp.Some? ==>
      var e := exp.value;
      (e.mark == 'e' || e.mark == 'E') && IsSign(e.sign) && e.digits != "" && AllDigits(e.digits)
      && t[end..] == [e.mark] + e.sign + e.digits
      && ScanExponent(t, end).value == if e.sign == "-" then -(DigitsValue(e.digits) as int) else DigitsValue(e.digits)
  {
    exp := None;
    if end < |t| {
      var from := if end + 1 < |t| && (t[end + 1] == '+' || t[end + 1] == '-') then end + 2 else end + 1;
      exp := Some(Exponent(t[end], t[end + 1..from], t[from..]));
      assert t[from..|t|] == t[from..];
    }
  }
}
