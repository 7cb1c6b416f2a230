/** Types and small functions shared by every component of the model. */
module Common {

  datatype Option<+T> = None | Some(value: T)

  datatype Result<+T, +E> = Ok(value: T) | Err(error: E) {
    predicate IsFailure() { Err? }

    function PropagateFailure<U>(): Result<U, E>
      requires Err?
    {
      Err(error)
    }

    function Extract(): T
      requires Ok?
    {
      value
    }
  }

  /** One byte of the wire stream. */
  type byte = b: int | 0 <= b < 256

  type Bytes = seq<byte>

  /** A 16-bit little-endian number. */
  function LE16(lo: byte, hi: byte): (n: nat)
    ensures n < 65536
  {
    (lo as int) + 256 * (hi as int)
  }

  lemma LE16RoundTrip(n: nat)
    requires n < 65536
    ensures LE16(n % 256, n / 256) == n
  {
  }

  /** Go's integer division, which truncates towards zero. */
  function GoDiv(a: int, b: int): int
    requires 0 < b
  {
    if a < 0 then -((-a) / b) else a / b
  }

  /** Go's remainder, which takes the sign of the dividend. */
  function GoMod(a: int, b: int): int
    requires 0 < b
  {
    if a < 0 then -((-a) % b) else a % b
  }

  const TWO_31 := 0x8000_0000
  const TWO_32 := 0x1_0000_0000
  const TWO_63 := 0x8000_0000_0000_0000
  const TWO_64 := 0x1_0000_0000_0000_0000
  const TWO_128 := 0x1_0000_0000_0000_0000_0000_0000_0000_0000

  predicate IsInt32(v: int) { -TWO_31 <= v < TWO_31 }

  predicate IsInt64(v: int) { -TWO_63 <= v < TWO_63 }

  /** Conversion to a 32-bit signed integer, discarding the high bits. */
  function Wrap32(v: int): (r: int)
    ensures IsInt32(r)
    ensures r == v <==> IsInt32(v)
  {
    (v + TWO_31) % TWO_32 - TWO_31
  }

  /** 64-bit signed arithmetic wraps around. */
  function Wrap64(v: int): (r: int)
    ensures IsInt64(r)
    ensures r == v <==> IsInt64(v)
  {
    (v + TWO_63) % TWO_64 - TWO_63
  }

  function Min(a: int, b: int): int { if a < b then a else b }

  function Abs(x: int): nat { if x < 0 then -x else x }

  /** `n` copies of `x`. */
  function Repeat<T>(x: T, n: nat): (s: seq<T>)
    ensures |s| == n
    ensures forall i :: 0 <= i < n ==> s[i] == x
  {
    seq(n, _ => x)
  }

  /** The concatenation of a sequence of sequences. */
  function Flatten<T>(parts: seq<seq<T>>): seq<T> {
    if parts == [] then [] else parts[0] + Flatten(parts[1..])
  }

  lemma Associate<T>(a: seq<T>, b: seq<T>, c: seq<T>, d: seq<T>)
    ensures a + b + c + d == a + (b + c + d)
  {
  }

  lemma FlattenAppend<T>(a: seq<seq<T>>, b: seq<seq<T>>)
    ensures Flatten(a + b) == Flatten(a) + Flatten(b)
  {
    if a == [] {
      assert a + b == b;
    } else {
      assert (a + b)[1..] == a[1..] + b;
      FlattenAppend(a[1..], b);
    }
  }

  lemma FlattenSnoc<T>(a: seq<seq<T>>, x: seq<T>)
    ensures Flatten(a + [x]) == Flatten(a) + x
  {
    FlattenAppend(a, [x]);
    assert Flatten([x]) == x + Flatten<T>([]);
  }
}

/** Integer powers and modular arithmetic. */
module Powers {

  function Pow(b: int, e: nat): int {
    if e == 0 then 1 else b * Pow(b, e - 1)
  }

  lemma {:induction false} PowAdd(b: int, m: nat, n: nat)
    ensures Pow(b, m + n) == Pow(b, m) * Pow(b, n)
  {
    if m == 0 {
    } else {
      PowAdd(b, m - 1, n);
      var x, y := Pow(b, m - 1), Pow(b, n);
      assert b * (x * y) == (b * x) * y;
    }
  }

  lemma {:induction false} PowPow(b: int, m: nat, n: nat)
    ensures 0 <= m * n
    ensures Pow(Pow(b, m), n) == Pow(b, m * n)
  {
    if n == 0 {
    } else {
      PowPow(b, m, n - 1);
      assert m * n == m + m * (n - 1);
      PowAdd(b, m, m * (n - 1));
    }
  }

  lemma {:induction false} PowPositive(b: int, e: nat)
    requires 1 <= b
    ensures 1 <= Pow(b, e)
  {
    if e == 0 {
    } else {
      PowPositive(b, e - 1);
      assert b * Pow(b, e - 1) >= 1 * 1;
    }
  }

  /** A number has at most one quotient and remainder by `n`. */
  lemma QuotientUnique(n: int, q: int, r: int, q': int, r': int)
    requires 0 <= r < n && 0 <= r' < n
    requires q * n + r == q' * n + r'
    ensures q == q' && r == r'
  {
    if q < q' {
      MulMonotone(q + 1, q', n);
    } else if q' < q {
      MulMonotone(q' + 1, q, n);
    }
  }

  lemma MulMonotone(a: int, b: int, n: int)
    requires a <= b && 0 <= n
    ensures a * n <= b * n
  {
  }

  lemma DivModUnique(a: int, n: int, q: int, r: int)
    requires 0 < n && 0 <= r < n
    requires a == q * n + r
    ensures a / n == q && a % n == r
  {
    QuotientUnique(n, q, r, a / n, a % n);
  }

  /** Adding a multiple of the modulus does not change the residue. */
  lemma ModShift(a: int, k: int, n: int)
    requires 0 < n
    ensures (a + k * n) % n == a % n
  {
    assert a + k * n == (a / n + k) * n + a % n;
    DivModUnique(a + k * n, n, a / n + k, a % n);
  }

  ghost predicate Congruent(a: int, b: int, n: int)
    requires 0 < n
  {
    a % n == b % n
  }

  lemma ModReduced(a: int, n: int)
    requires 0 < n
    ensures Congruent(a % n, a, n)
  {
    ModShift(a % n, a / n, n);
    assert a == a % n + (a / n) * n;
  }

  lemma CongruentMul(a: int, a': int, b: int, b': int, n: int)
    requires 0 < n && Congruent(a, a', n) && Congruent(b, b', n)
    ensures Congruent(a * b, a' * b', n)
  {
    var r, s := a % n, b % n;
    MulResidue(a, b, n, r, s);
    MulResidue(a', b', n, r, s);
  }

  lemma MulResidue(a: int, b: int, n: int, r: int, s: int)
    requires 0 < n && r == a % n && s == b % n
    ensures (a * b) % n == (r * s) % n
  {
    var p, q := a / n, b / n;
    var k := p * n * q + p * s + q * r;
    calc {
      a * b;
      (p * n + r) * (q * n + s);
      (p * n) * (q * n) + (p * n) * s + r * (q * n) + r * s;
      { MulRearrange(p, q, n, r, s); }
      r * s + k * n;
    }
    ModShift(r * s, k, n);
  }

  lemma MulRearrange(p: int, q: int, n: int, r: int, s: int)
    ensures (p * n) * (q * n) + (p * n) * s + r * (q * n) + r * s
         == r * s + (p * n * q + p * s + q * r) * n
  {
    assert (p * n) * (q * n) == (p * n * q) * n;
    assert (p * n) * s == (p * s) * n;
    assert r * (q * n) == (q * r) * n;
  }

  lemma CongruentAdd(a: int, a': int, b: int, b': int, n: int)
    requires 0 < n && Congruent(a, a', n) && Congruent(b, b', n)
    ensures Congruent(a + b, a' + b', n) && Congruent(a - b, a' - b', n)
  {
    var k, l := a / n - a' / n, b / n - b' / n;
    QuotientGap(a, a', n);
    QuotientGap(b, b', n);
    Distribute(k, l, n);
    ModShift(a' + b', k + l, n);
    ModShift(a' - b', k - l, n);
  }

  lemma QuotientGap(a: int, a': int, n: int)
    requires 0 < n && Congruent(a, a', n)
    ensures a == a' + (a / n - a' / n) * n
  {
    var q, q' := a / n, a' / n;
    assert a == q * n + a % n && a' == q' * n + a' % n;
    assert (q - q') * n == q * n - q' * n;
  }

  lemma Distribute(k: int, l: int, n: int)
    ensures (k + l) * n == k * n + l * n && (k - l) * n == k * n - l * n
  {
  }

  lemma {:induction false} CongruentPow(a: int, a': int, e: nat, n: int)
    requires 0 < n && Congruent(a, a', n)
    ensures Congruent(Pow(a, e), Pow(a', e), n)
  {
    if e == 0 {
    } else {
      CongruentPow(a, a', e - 1, n);
      CongruentMul(a, a', Pow(a, e - 1), Pow(a', e - 1), n);
    }
  }
}
