/** INT128 parameters: decimal text as a 16-byte two's complement number, and back. */
module Int128 {
  import opened Common
  import opened Powers
  import opened BigInt
  import opened DecimalText
  import opened Numeric

  const TWO_127 := 0x8000_0000_0000_0000_0000_0000_0000_0000

  /** The magnitude's bytes, of which only the last 16 are kept, in a 16-byte array. */
  method CopyMagnitude(v: nat, result: array<byte>)
    requires result.Length == 16 && forall i :: 0 <= i < 16 ==> result[i] == 0
    modifies result
    ensures result[..] == FillBytes(v % TWO_128, 16)
  {
    var b := BigToBytes(v);
    if |b| > 16 {
      b := b[|b| - 16..];
    }
    forall i | 0 <= i < |b| {
      result[16 - |b| + i] := b[i];
    }
    assert result[..] == Repeat(0, 16 - |b|) + b;
    LastSixteen(v);
  }

  function LastBytes(v: nat, n: nat): (r: Bytes)
    ensures |r| == n
  {
    var b := BigToBytes(v);
    if n < |b| then b[|b| - n..] else Repeat(0, n - |b|) + b
  }

  lemma {:induction false} LastBytesFilled(v: nat, n: nat)
    ensures LastBytes(v, n) == FillBytes(v, n)
  {
    if n == 0 {
    } else if v == 0 {
      LastBytesFilled(0, n - 1);
      assert Repeat<byte>(0, n) == Repeat<byte>(0, n - 1) + [0];
    } else {
      LastBytesFilled(v / 256, n - 1);
      var b, b' := BigToBytes(v), BigToBytes(v / 256);
      assert b == b' + [v % 256];
      if n < |b| {
        assert b[|b| - n..] == b'[|b'| - (n - 1)..] + [v % 256];
      } else {
        assert Repeat(0, n - |b|) + b == (Repeat(0, n - 1 - |b'|) + b') + [v % 256];
      }
    }
  }

  /** Bytes beyond the requested ones do not matter. */
  lemma {:induction false} FillBytesModulo(v: nat, n: nat)
    requires 0 < Pow(256, n)
    ensures FillBytes(v % Pow(256, n), n) == FillBytes(v, n)
  {
    if n != 0 {
      var p := Pow(256, n - 1);
      PowPositive(256, n - 1);
      ModTwice(v, p);
      FillBytesModulo(v / 256, n - 1);
    }
  }

  lemma LastSixteen(v: nat)
    ensures LastBytes(v, 16) == FillBytes(v % TWO_128, 16)
  {
    LastBytesFilled(v, 16);
    PowSixteen();
    FillBytesModulo(v, 16);
  }

  lemma PowSixteen()
    ensures Pow(256, 16) == TWO_128
  {
    PowAdd(256, 8, 8);
    PowAdd(256, 4, 4);
    assert Pow(256, 4) == TWO_32;
  }

  /** Two's complement of `v`, whose magnitude is not checked against 127 bits. */
  function Int128Bytes(v: int): (data: Bytes)
    ensures |data| == 16
  {
    FillBytes((if 0 <= v then v else Abs(v + TWO_128)) % TWO_128, 16)
  }

  method StringToInt128Err(s: string, scale: int) returns (r: Result<Bytes, DecimalError>)
    requires IsInt32(scale)
    ensures r == match ScaledBigIntOf(s, scale)
                 case Err(e) => Err(e)
                 case Ok(v) => Ok(Int128Bytes(v))
  {
    var parsed := DecimalStringToScaledBigInt(s, scale);
    match parsed
    case Err(e) =>
      r := Err(e);
    case Ok(v) =>
      var result := new byte[16](_ => 0);
      CopyMagnitude(if 0 <= v then v else Abs(v + TWO_128), result);
      r := Ok(result[..]);
  }

  /** The signed number that 16 bytes hold. */
  function SignedOf(data: Bytes): int
    requires |data| == 16
  {
    if 128 <= data[0] then BytesToBig(data) - TWO_128 else BytesToBig(data)
  }

  lemma {:induction false} LeadingByte(v: nat, n: nat)
    requires 1 <= n && v < Pow(256, n)
    ensures FillBytes(v, n)[0] == v / Pow(256, n - 1)
  {
    if 1 < n {
      var p := Pow(256, n - 2);
      PowPositive(256, n - 2);
      LeadingByte(v / 256, n - 1);
      DivTwice(v, p);
    }
  }

  /** Within range the bytes are the number's two's complement, the most significant first. */
  lemma Int128Layout(v: int)
    requires -TWO_128 <= v
    ensures Int128Bytes(v) == BigEndian(v, 16)
  {
    PowSixteen();
    FillsBigEndian(v, 16);
    ModShift(v, 1, TWO_128);
  }

  /**
   * A number survives the 16-byte form exactly when it lies in the signed
   * 128-bit range; the encoder itself does not refuse the others.
   */
  lemma Int128RoundTrip(v: int)
    ensures SignedOf(Int128Bytes(v)) == v <==> -TWO_127 <= v < TWO_127
  {
    SignedValue((if 0 <= v then v else Abs(v + TWO_128)) % TWO_128);
  }

  lemma SignedValue(u: nat)
    requires u < TWO_128
    ensures SignedOf(FillBytes(u, 16)) == if u < TWO_127 then u else u - TWO_128
  {
    PowSixteen();
    FillBytesRoundTrip(u, 16);
    LeadingByte(u, 16);
    PowFifteen();
    TopBit(u);
  }

  lemma PowFifteen()
    ensures Pow(256, 15) == TWO_128 / 256
  {
    PowAdd(256, 8, 7);
    PowAdd(256, 4, 4);
    PowAdd(256, 4, 3);
    assert Pow(256, 4) == TWO_32 && Pow(256, 3) == 0x100_0000;
  }

  lemma TopBit(u: nat)
    requires u < TWO_128
    ensures 128 <= u / (TWO_128 / 256) <==> TWO_127 <= u
  {
  }

  /** A value one above the range is stored as the lowest negative number. */
  lemma Int128Overflow()
    ensures SignedOf(Int128Bytes(TWO_127)) == -TWO_127
  {
    SignedValue(TWO_127);
  }
}
