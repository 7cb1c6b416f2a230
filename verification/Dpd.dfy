/** Densely packed decimal: three digits in ten bits (section 3.5.2 of IEEE 754-2008). */
module Dpd {
  import opened Common
  import opened Powers

  /** Whether the bit selected by `mask`, a power of two, is set. */
  function DpdBit(dpd: nat, mask: nat): nat
    requires 0 < mask
  {
    dpd / mask % 2
  }

  function DpdToInt(dpd: nat): Option<nat> {
    FromBits(DpdBit(dpd, 512), DpdBit(dpd, 256), DpdBit(dpd, 128), DpdBit(dpd, 64), DpdBit(dpd, 32),
             DpdBit(dpd, 16), DpdBit(dpd, 8), DpdBit(dpd, 4), DpdBit(dpd, 2), DpdBit(dpd, 1))
  }

  function FromBits(b9: nat, b8: nat, b7: nat, b6: nat, b5: nat, b4: nat, b3: nat, b2: nat, b1: nat, b0: nat): Option<nat> {
    if b3 == 0 then
      Triple(b9 * 4 + b8 * 2 + b7, b6 * 4 + b5 * 2 + b4, b2 * 4 + b1 * 2 + b0)
    else if b3 == 1 && b2 == 0 && b1 == 0 then
      Triple(b9 * 4 + b8 * 2 + b7, b6 * 4 + b5 * 2 + b4, 8 + b0)
    else if b3 == 1 && b2 == 0 && b1 == 1 then
      Triple(b9 * 4 + b8 * 2 + b7, 8 + b4, b6 * 4 + b5 * 2 + b0)
    else if b3 == 1 && b2 == 1 && b1 == 0 then
      Triple(8 + b7, b6 * 4 + b5 * 2 + b4, b9 * 4 + b8 * 2 + b0)
    else if b6 == 0 && b5 == 0 && b3 == 1 && b2 == 1 && b1 == 1 then
      Triple(8 + b7, 8 + b4, b9 * 4 + b8 * 2 + b0)
    else if b6 == 0 && b5 == 1 && b3 == 1 && b2 == 1 && b1 == 1 then
      Triple(8 + b7, b9 * 4 + b8 * 2 + b4, 8 + b0)
    else if b6 == 1 && b5 == 0 && b3 == 1 && b2 == 1 && b1 == 1 then
      Triple(b9 * 4 + b8 * 2 + b7, 8 + b4, 8 + b0)
    else if b6 == 1 && b5 == 1 && b3 == 1 && b2 == 1 && b1 == 1 then
      Triple(8 + b7, 8 + b4, 8 + b0)
    else None
  }

  function Triple(d2: nat, d1: nat, d0: nat): Option<nat> {
    Some(d2 * 100 + d1 * 10 + d0)
  }

  /** The declet of three decimal digits, by which of them are 8 or 9. */
  function EncodeDigits(d2: nat, d1: nat, d0: nat): nat {
    if d2 < 8 && d1 < 8 && d0 < 8 then 128 * d2 + 16 * d1 + d0
    else if d2 < 8 && d1 < 8 then 128 * d2 + 16 * d1 + 8 + d0 % 2
    else if d2 < 8 && d0 < 8 then 128 * d2 + 32 * (d0 / 2) + 16 * (d1 % 2) + 10 + d0 % 2
    else if d1 < 8 && d0 < 8 then 256 * (d0 / 2) + 128 * (d2 % 2) + 16 * d1 + 12 + d0 % 2
    else if d0 < 8 then 256 * (d0 / 2) + 128 * (d2 % 2) + 16 * (d1 % 2) + 14 + d0 % 2
    else if d1 < 8 then 256 * (d1 / 2) + 128 * (d2 % 2) + 32 + 16 * (d1 % 2) + 14 + d0 % 2
    else if d2 < 8 then 128 * d2 + 64 + 16 * (d1 % 2) + 14 + d0 % 2
    else 128 * (d2 % 2) + 96 + 16 * (d1 % 2) + 14 + d0 % 2
  }

  function EncodeDeclet(n: nat): nat {
    EncodeDigits(n / 100, n / 10 % 10, n % 10)
  }

  lemma BitAt(hi: nat, x: nat, mask: nat, lo: nat)
    requires x < 2 && lo < mask
    ensures DpdBit((2 * hi + x) * mask + lo, mask) == x
  {
    DivModUnique((2 * hi + x) * mask + lo, mask, 2 * hi + x, lo);
  }

  lemma BitsOf(x9: nat, x8: nat, x7: nat, x6: nat, x5: nat, x4: nat, x3: nat, x2: nat, x1: nat, x0: nat)
    requires x9 < 2 && x8 < 2 && x7 < 2 && x6 < 2 && x5 < 2 && x4 < 2 && x3 < 2 && x2 < 2 && x1 < 2 && x0 < 2
    ensures var d := 512 * x9 + 256 * x8 + 128 * x7 + 64 * x6 + 32 * x5 + 16 * x4 + 8 * x3 + 4 * x2 + 2 * x1 + x0;
            && DpdBit(d, 512) == x9 && DpdBit(d, 256) == x8 && DpdBit(d, 128) == x7 && DpdBit(d, 64) == x6
            && DpdBit(d, 32) == x5 && DpdBit(d, 16) == x4 && DpdBit(d, 8) == x3 && DpdBit(d, 4) == x2
            && DpdBit(d, 2) == x1 && DpdBit(d, 1) == x0
  {
    hide DpdBit;
    var h8 := x9;
    var h7 := 2 * h8 + x8;
    var h6 := 2 * h7 + x7;
    var h5 := 2 * h6 + x6;
    var h4 := 2 * h5 + x5;
    var h3 := 2 * h4 + x4;
    var h2 := 2 * h3 + x3;
    var h1 := 2 * h2 + x2;
    var h0 := 2 * h1 + x1;
    var l1 := x0;
    var l2 := 2 * x1 + l1;
    var l3 := 4 * x2 + l2;
    var l4 := 8 * x3 + l3;
    var l5 := 16 * x4 + l4;
    var l6 := 32 * x5 + l5;
    var l7 := 64 * x6 + l6;
    var l8 := 128 * x7 + l7;
    var l9 := 256 * x8 + l8;
    BitAt(0, x9, 512, l9);
    BitAt(h8, x8, 256, l8);
    BitAt(h7, x7, 128, l7);
    BitAt(h6, x6, 64, l6);
    BitAt(h5, x5, 32, l5);
    BitAt(h4, x4, 16, l4);
    BitAt(h3, x3, 8, l3);
    BitAt(h2, x2, 4, l2);
    BitAt(h1, x1, 2, l1);
    BitAt(h0, x0, 1, 0);
  }

  /** The declet with the given bits decodes to what the table says of them. */
  lemma DecodesBits(d: nat, x9: nat, x8: nat, x7: nat, x6: nat, x5: nat, x4: nat, x3: nat, x2: nat, x1: nat, x0: nat)
    requires x9 < 2 && x8 < 2 && x7 < 2 && x6 < 2 && x5 < 2 && x4 < 2 && x3 < 2 && x2 < 2 && x1 < 2 && x0 < 2
    requires d == 512 * x9 + 256 * x8 + 128 * x7 + 64 * x6 + 32 * x5 + 16 * x4 + 8 * x3 + 4 * x2 + 2 * x1 + x0
    ensures DpdToInt(d) == FromBits(x9, x8, x7, x6, x5, x4, x3, x2, x1, x0)
  {
    BitsOf(x9, x8, x7, x6, x5, x4, x3, x2, x1, x0);
  }

  /** The bits of a digit: one that says 8 or 9, and three more. */
  lemma DigitBits(d: nat) returns (p: nat, q: nat, r: nat)
    requires d < 10
    ensures p < 2 && q < 2 && r < 2 && d % 2 == r
    ensures d < 8 ==> d == 4 * p + 2 * q + r && d / 2 == 2 * p + q
    ensures 8 <= d ==> d == 8 + r
  {
    p, q, r := d / 4 % 2, d / 2 % 2, d % 2;
  }

  lemma DigitsRoundTrip(d2: nat, d1: nat, d0: nat)
    requires d2 < 10 && d1 < 10 && d0 < 10
    ensures EncodeDigits(d2, d1, d0) < 1024
    ensures DpdToInt(EncodeDigits(d2, d1, d0)) == Some(d2 * 100 + d1 * 10 + d0)
  {
    hide DpdToInt;
    var p2, q2, r2 := DigitBits(d2);
    var p1, q1, r1 := DigitBits(d1);
    var p0, q0, r0 := DigitBits(d0);
    var d := EncodeDigits(d2, d1, d0);
    if d2 < 8 && d1 < 8 && d0 < 8 {
      DecodesBits(d, p2, q2, r2, p1, q1, r1, 0, p0, q0, r0);
    } else if d2 < 8 && d1 < 8 {
      DecodesBits(d, p2, q2, r2, p1, q1, r1, 1, 0, 0, r0);
    } else if d2 < 8 && d0 < 8 {
      DecodesBits(d, p2, q2, r2, p0, q0, r1, 1, 0, 1, r0);
    } else if d1 < 8 && d0 < 8 {
      DecodesBits(d, p0, q0, r2, p1, q1, r1, 1, 1, 0, r0);
    } else if d0 < 8 {
      DecodesBits(d, p0, q0, r2, 0, 0, r1, 1, 1, 1, r0);
    } else if d1 < 8 {
      DecodesBits(d, p1, q1, r2, 0, 1, r1, 1, 1, 1, r0);
    } else if d2 < 8 {
      DecodesBits(d, p2, q2, r2, 1, 0, r1, 1, 1, 1, r0);
    } else {
      DecodesBits(d, 0, 0, r2, 1, 1, r1, 1, 1, 1, r0);
    }
  }

  lemma DecletRoundTrip(n: nat)
    requires n < 1000
    ensures EncodeDeclet(n) < 1024 && DpdToInt(EncodeDeclet(n)) == Some(n)
  {
    hide DpdToInt, EncodeDigits;
    DigitsRoundTrip(n / 100, n / 10 % 10, n % 10);
    ThreeDigits(n);
  }

  lemma ThreeDigits(n: nat)
    requires n < 1000
    ensures n / 100 < 10 && n / 100 * 100 + n / 10 % 10 * 10 + n % 10 == n
  {
    assert n / 10 / 10 == n / 100;
  }

  /** Every declet, canonical or not, is three decimal digits. */
  lemma EveryDecletDecodes(dpd: nat)
    ensures DpdToInt(dpd).Some? && DpdToInt(dpd).value < 1000
  {
  }

  function DecletValue(dpd: nat): (v: nat)
    ensures v < 1000
  {
    EveryDecletDecodes(dpd);
    DpdToInt(dpd).value
  }

  /** The values of the `segments` low declets of `bits`, most significant first. */
  function Declets(bits: nat, segments: nat): (vs: seq<nat>)
    ensures |vs| == segments
  {
    if segments == 0 then [] else Declets(bits / 1024, segments - 1) + [DecletValue(bits % 1024)]
  }

  function Thousands(prefix: nat, vs: seq<nat>): nat {
    if vs == [] then prefix else Thousands(prefix, vs[..|vs| - 1]) * 1000 + vs[|vs| - 1]
  }

  method CalcDPDSignificand(prefix: nat, dpdBits: nat, numBits: nat) returns (r: Option<nat>)
    ensures r == Some(Thousands(prefix, Declets(dpdBits, numBits / 10)))
  {
    hide DpdToInt;
    var segments := numBits / 10;
    var values := new nat[segments];
    var bits := dpdBits;
    var i := segments - 1;
    while 0 <= i
      invariant -1 <= i < segments
      invariant Declets(dpdBits, segments) == Declets(bits, i + 1) + values[i + 1..]
    {
      EveryDecletDecodes(bits % 1024);
      var v := DpdToInt(bits % 1024);
      if v == None {
        return None;
      }
      ghost var tail := values[i + 1..];
      assert Declets(bits, i + 1) == Declets(bits / 1024, i) + [v.value];
      values[i] := v.value;
      assert values[i + 1..] == tail;
      assert values[i..] == [values[i]] + values[i + 1..];
      bits := bits / 1024;
      i := i - 1;
    }
    assert Declets(bits, 0) + values[0..] == values[..];
    var result := Accumulate(prefix, values);
    r := Some(result);
  }

  method Accumulate(prefix: nat, values: array<nat>) returns (result: nat)
    ensures result == Thousands(prefix, values[..])
  {
    result := prefix;
    for k := 0 to values.Length
      invariant result == Thousands(prefix, values[..k])
    {
      assert values[..k + 1][..k] == values[..k];
      result := result * 1000 + values[k];
    }
    assert values[..values.Length] == values[..];
  }

  /** The declets of a number below 1000^`segments`. */
  function EncodeDeclets(n: nat, segments: nat): nat {
    if segments == 0 then 0 else EncodeDeclets(n / 1000, segments - 1) * 1024 + EncodeDeclet(n % 1000)
  }

  lemma {:induction false} DecletsRoundTrip(prefix: nat, n: nat, segments: nat)
    requires n < Pow(1000, segments)
    ensures EncodeDeclets(n, segments) < Pow(1024, segments)
    ensures Thousands(prefix, Declets(EncodeDeclets(n, segments), segments)) == prefix * Pow(1000, segments) + n
  {
    hide DpdToInt, EncodeDeclet;
    if segments != 0 {
      var hi, lo := n / 1000, n % 1000;
      DecletRoundTrip(lo);
      assert hi < Pow(1000, segments - 1);
      DecletsRoundTrip(prefix, hi, segments - 1);
      var bits, p := EncodeDeclets(hi, segments - 1), Pow(1000, segments - 1);
      var all := bits * 1024 + EncodeDeclet(lo);
      assert all / 1024 == bits && all % 1024 == EncodeDeclet(lo);
      var vs := Declets(all, segments);
      assert vs[..|vs| - 1] == Declets(bits, segments - 1);
      assert prefix * (1000 * p) == (prefix * p) * 1000;
    }
  }
}
