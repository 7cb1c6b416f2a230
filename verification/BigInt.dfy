/** Non-negative integers as big-endian bytes. */
module BigInt {
  import opened Common
  import opened Powers

  function BytesToBig(bs: Bytes): nat {
    if bs == [] then 0 else BytesToBig(bs[..|bs| - 1]) * 256 + bs[|bs| - 1]
  }

  /** Big-endian bytes without leading zeros. */
  function BigToBytes(v: nat): Bytes {
    if v == 0 then [] else BigToBytes(v / 256) + [v % 256]
  }

  /** Exactly `n` big-endian bytes. */
  function FillBytes(v: nat, n: nat): (bs: Bytes)
    ensures |bs| == n
  {
    if n == 0 then [] else FillBytes(v / 256, n - 1) + [v % 256]
  }

  lemma {:induction false} BigBytesRoundTrip(v: nat)
    ensures BytesToBig(BigToBytes(v)) == v
    ensures v != 0 ==> BigToBytes(v) != [] && BigToBytes(v)[0] != 0
  {
    if v != 0 {
      BigBytesRoundTrip(v / 256);
      assert BigToBytes(v)[..|BigToBytes(v)| - 1] == BigToBytes(v / 256);
    }
  }

  lemma {:induction false} FillBytesRoundTrip(v: nat, n: nat)
    requires v < Pow(256, n)
    ensures BytesToBig(FillBytes(v, n)) == v
  {
    if n != 0 {
      assert v / 256 < Pow(256, n - 1);
      FillBytesRoundTrip(v / 256, n - 1);
      assert FillBytes(v, n)[..n - 1] == FillBytes(v / 256, n - 1);
    }
  }

  /** Byte strings of equal length are different numbers. */
  lemma {:induction false} BytesToBigInjective(a: Bytes, b: Bytes)
    requires |a| == |b| && BytesToBig(a) == BytesToBig(b)
    ensures a == b
  {
    if a != [] {
      BytesToBigInjective(a[..|a| - 1], b[..|b| - 1]);
      assert a == a[..|a| - 1] + [a[|a| - 1]] && b == b[..|b| - 1] + [b[|b| - 1]];
    }
  }

  /** The byte of `v` in two's complement that counts multiples of 256 to the power `k`. */
  function ByteAt(v: int, k: nat): byte {
    PowPositive(256, k);
    v / Pow(256, k) % 256
  }

  /** `v` in two's complement, the most significant of its `n` bytes first. */
  function BigEndian(v: int, n: nat): (bs: Bytes)
    ensures |bs| == n
  {
    seq(n, i requires 0 <= i < n => ByteAt(v, n - 1 - i))
  }

  lemma {:induction false} FillsBigEndian(v: int, n: nat)
    ensures 0 < Pow(256, n) && FillBytes(v % Pow(256, n), n) == BigEndian(v, n)
    decreases n
  {
    hide BigEndian;
    PowPositive(256, n);
    if n == 0 {
      NoBytes(v);
    } else {
      PowPositive(256, n - 1);
      ModTwice(v, Pow(256, n - 1));
      FillsBigEndian(v / 256, n - 1);
      BigEndianSnoc(v, n);
    }
  }

  lemma NoBytes(v: int)
    ensures BigEndian(v, 0) == []
  {
  }

  lemma BigEndianSnoc(v: int, n: nat)
    requires 0 < n
    ensures BigEndian(v, n) == BigEndian(v / 256, n - 1) + [v % 256]
  {
    hide ByteAt;
    NextByte(v, 0);
    forall i | 0 <= i < n - 1 ensures BigEndian(v, n)[i] == BigEndian(v / 256, n - 1)[i] {
      NextByte(v, n - 2 - i);
    }
  }

  lemma NextByte(v: int, k: nat)
    ensures ByteAt(v, k + 1) == ByteAt(v / 256, k) && ByteAt(v, 0) == v % 256
  {
    PowPositive(256, k);
    DivTwice(v, Pow(256, k));
    assert Pow(256, 0) == 1;
  }

  /** Cutting a number to its low bytes leaves its last byte and cuts the others. */
  lemma ModTwice(v: int, p: int)
    requires 1 <= p
    ensures v % (256 * p) / 256 == v / 256 % p && v % (256 * p) % 256 == v % 256
  {
    var h, l := v / 256, v % 256;
    var q, r := h / p, h % p;
    assert h == q * p + r;
    assert v == (q * p + r) * 256 + l;
    assert (q * p) * 256 == q * (256 * p);
    DivModUnique(v, 256 * p, q, r * 256 + l);
  }

  lemma DivTwice(v: int, p: int)
    requires 1 <= p
    ensures v / 256 / p == v / (256 * p)
  {
    var h, l := v / 256, v % 256;
    var q, r := h / p, h % p;
    assert h == q * p + r;
    assert v == (q * p + r) * 256 + l;
    assert (q * p) * 256 == q * (256 * p);
    DivModUnique(v, 256 * p, q, r * 256 + l);
  }

  lemma {:induction false} BytesToBigBound(bs: Bytes)
    ensures BytesToBig(bs) < Pow(256, |bs|)
  {
    if bs != [] {
      BytesToBigBound(bs[..|bs| - 1]);
    }
  }

  lemma {:induction false} BytesToBigConcat(a: Bytes, b: Bytes)
    ensures BytesToBig(a + b) == BytesToBig(a) * Pow(256, |b|) + BytesToBig(b)
  {
    if b == [] {
      assert a + b == a;
    } else {
      var b' := b[..|b| - 1];
      assert (a + b)[..|a + b| - 1] == a + b';
      BytesToBigConcat(a, b');
      var x, p := BytesToBig(a), Pow(256, |b'|);
      assert x * (256 * p) == (x * p) * 256;
    }
  }
}
