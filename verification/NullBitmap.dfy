/** The null bitmap that precedes every row: one bit per column, padded to four bytes. */
module NullBitmap {
  import opened Common
  import opened Powers

  function Pow2(j: nat): (p: nat)
    requires j < 8
    ensures 1 <= p
  {
    if j == 0 then 1 else if j == 1 then 2 else if j == 2 then 4 else if j == 3 then 8
    else if j == 4 then 16 else if j == 5 then 32 else if j == 6 then 64 else 128
  }

  predicate BitSet(b: byte, j: nat)
    requires j < 8
  {
    b / Pow2(j) % 2 == 1
  }

  /** Bitwise or with a single bit. */
  function SetBit(b: byte, j: nat): byte
    requires j < 8
  {
    if BitSet(b, j) then b else BitRoom(b, j); b + Pow2(j)
  }

  lemma BitRoom(b: byte, j: nat)
    requires j < 8 && !BitSet(b, j)
    ensures b + Pow2(j) < 256
  {
  }

  /** Setting a bit changes that bit and no other. */
  lemma SetBitSets(b: byte, j: nat, k: nat)
    requires j < 8 && k < 8
    ensures BitSet(SetBit(b, j), k) <==> j == k || BitSet(b, k)
  {
    hide Pow2;
    if !BitSet(b, j) {
      BitRoom(b, j);
      if j < k {
        Pow2Split(j, k);
        HigherBit(b, Pow2(j), Pow2(k - j - 1));
      } else if k < j {
        Pow2Split(k, j);
        LowerBit(b, Pow2(k), Pow2(j - k - 1));
      } else {
        DivModUnique(b + Pow2(j), Pow2(j), b / Pow2(j) + 1, b % Pow2(j));
      }
    }
  }

  lemma Pow2Split(j: nat, k: nat)
    requires j < k < 8
    ensures Pow2(k) == 2 * Pow2(j) * Pow2(k - j - 1)
  {
  }

  lemma HigherBit(b: nat, p: nat, m: nat)
    requires 1 <= p && 1 <= m && b / p % 2 == 0
    ensures 0 < 2 * p * m && (b + p) / (2 * p * m) == b / (2 * p * m)
  {
    var h, y := b / p / 2, b % p;
    assert b == h * 2 * p + y;
    var x, r := h / m, h % m;
    var d := 2 * p * m;
    assert h == x * m + r;
    assert b == x * d + (r * (2 * p) + y) by {
      assert (x * m + r) * (2 * p) == x * (m * (2 * p)) + r * (2 * p);
    }
    assert r * (2 * p) + 2 * p <= d by {
      MulMonotone(r + 1, m, 2 * p);
    }
    DivModUnique(b, d, x, r * (2 * p) + y);
    DivModUnique(b + p, d, x, r * (2 * p) + y + p);
  }

  lemma LowerBit(b: nat, q: nat, m: nat)
    requires 1 <= q
    ensures 0 <= 2 * q * m && (b + 2 * q * m) / q % 2 == b / q % 2
  {
    assert b + 2 * q * m == (b / q + 2 * m) * q + b % q;
    DivModUnique(b + 2 * q * m, q, b / q + 2 * m, b % q);
  }

  /** Bytes of the bitmap of `n` columns, with padding. */
  function PaddedSize(n: nat): (size: nat)
    ensures n <= 8 * size && size % 4 == 0
  {
    ((n + 7) / 8 + 3) / 4 * 4
  }

  function Mark(bitmap: Bytes, idx: nat): (r: Bytes)
    requires idx / 8 < |bitmap|
    ensures |r| == |bitmap|
  {
    bitmap[idx / 8 := SetBit(bitmap[idx / 8], idx % 8)]
  }

  /** The bitmap after the first `n` of the columns have been looked at. */
  function Bitmap(nulls: seq<bool>, n: nat): (bitmap: Bytes)
    requires n <= |nulls|
    ensures |bitmap| == PaddedSize(|nulls|)
  {
    if n == 0 then Repeat(0, PaddedSize(|nulls|))
    else if nulls[n - 1] then Mark(Bitmap(nulls, n - 1), n - 1)
    else Bitmap(nulls, n - 1)
  }

  predicate IsNull(bitset: Bytes, idx: nat) {
    idx / 8 < |bitset| && BitSet(bitset[idx / 8], idx % 8)
  }

  lemma {:induction false} BitmapMarks(nulls: seq<bool>, n: nat, idx: nat)
    requires n <= |nulls|
    ensures IsNull(Bitmap(nulls, n), idx) <==> idx < n && nulls[idx]
  {
    hide PaddedSize, BitSet, SetBit;
    if n == 0 {
      ZeroByte();
    } else {
      BitmapMarks(nulls, n - 1, idx);
      if nulls[n - 1] {
        var before := Bitmap(nulls, n - 1);
        SetBitSets(before[(n - 1) / 8], (n - 1) % 8, idx % 8);
        assert idx / 8 == (n - 1) / 8 && idx % 8 == (n - 1) % 8 <==> idx == n - 1;
      }
    }
  }

  lemma ZeroByte()
    ensures forall j: nat | j < 8 :: !BitSet(0, j)
  {
  }

  /** Reading the bitmap, cut to the bytes that carry columns, gives back each column's mark. */
  lemma BitmapRoundTrip(nulls: seq<bool>, idx: nat)
    requires idx < |nulls|
    ensures (|nulls| + 7) / 8 <= PaddedSize(|nulls|)
    ensures IsNull(Bitmap(nulls, |nulls|)[..(|nulls| + 7) / 8], idx) <==> nulls[idx]
  {
    BitmapMarks(nulls, |nulls|, idx);
  }
}
