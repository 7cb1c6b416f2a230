/** XDR items (RFC 4506) as byte strings: how they are written and how they are taken off a stream. */
module Xdr {
  import opened Common
  import opened Powers
  import opened BigInt

  /** Sections 4.9 and 4.10 of RFC 4506: opaque data is padded to a multiple of four bytes. */
  function PadLength(n: int): (pad: nat)
    ensures pad < 4 && (n + pad) % 4 == 0
  {
    (-n) % 4
  }

  function Int32Bytes(v: int): (b: Bytes)
    ensures |b| == 4
  {
    FillBytes(v % TWO_32, 4)
  }

  function Int64Bytes(v: int): (b: Bytes)
    ensures |b| == 8
  {
    FillBytes(v % TWO_64, 8)
  }

  /** A length prefix, the data and its padding, made of `filler` bytes. */
  function PaddedBuffer(data: Bytes, filler: byte): Bytes {
    Int32Bytes(|data|) + data + Repeat(filler, PadLength(|data|))
  }

  function BufferBytes(data: Bytes): Bytes {
    PaddedBuffer(data, 0)
  }

  // ---------------------------------------------------------------------------
  // Taking items off a stream
  // ---------------------------------------------------------------------------

  datatype Taken<+T> = Got(value: T, rest: Bytes) | Short | TooLong

  function TakeBytes(p: Bytes, n: nat): Taken<Bytes> {
    if |p| < n then Short else Got(p[..n], p[n..])
  }

  function TakeUInt32(p: Bytes): (r: Taken<int>)
    ensures r.Got? ==> 0 <= r.value < TWO_32
  {
    if |p| < 4 then Short
    else
      UInt32Bound(p[..4]);
      Got(BytesToBig(p[..4]), p[4..])
  }

  function TakeInt32(p: Bytes): (r: Taken<int>)
    ensures r.Got? ==> IsInt32(r.value)
  {
    match TakeUInt32(p)
    case Got(v, rest) => Got(Wrap32(v), rest)
    case Short => Short
    case TooLong => TooLong
  }

  function TakeInt64(p: Bytes): (r: Taken<int>)
    ensures r.Got? ==> IsInt64(r.value)
  {
    if |p| < 8 then Short else Got(Wrap64(BytesToBig(p[..8])), p[8..])
  }

  lemma UInt32Bound(b: Bytes)
    requires |b| == 4
    ensures BytesToBig(b) < TWO_32
  {
    BytesToBigBound(b);
    assert Pow(256, 4) == TWO_32;
  }

  const MAX_WIRE_BUFFER_LEN := 64 * 1024 * 1024

  /** The length a prefix stands for: old servers sign-extend 16-bit lengths. */
  function PrefixLength(raw: nat): nat
    requires raw < TWO_32
  {
    if raw / 0x10000 == 0xFFFF then raw % 0x10000 else raw
  }

  function TakeBuffer(p: Bytes): Taken<Bytes> {
    match TakeUInt32(p)
    case Short => Short
    case TooLong => TooLong
    case Got(raw, rest) =>
      var length := PrefixLength(raw);
      if MAX_WIRE_BUFFER_LEN < length then TooLong
      else
        match TakeBytes(rest, length + PadLength(length))
        case Short => Short
        case TooLong => TooLong
        case Got(data, rest') => Got(data[..length], rest')
  }

  const OP_DUMMY := 71

  /** The first opcode that is not a keep-alive. */
  function TakeOpcode(p: Bytes): Taken<int>
    decreases |p|
  {
    match TakeInt32(p)
    case Got(op, rest) => if op == OP_DUMMY then TakeOpcode(rest) else Got(op, rest)
    case Short => Short
    case TooLong => TooLong
  }

  // ---------------------------------------------------------------------------
  // Round trips
  // ---------------------------------------------------------------------------

  /** Sections 4.1 and 4.5 of RFC 4506: numbers travel in two's complement, the most significant byte first. */
  lemma NumberLayout(v: int)
    ensures Int32Bytes(v) == BigEndian(v, 4) && Int64Bytes(v) == BigEndian(v, 8)
  {
    PowAdd(256, 4, 4);
    assert Pow(256, 4) == TWO_32;
    FillsBigEndian(v, 4);
    FillsBigEndian(v, 8);
  }

  lemma UInt32RoundTrip(v: nat, rest: Bytes)
    requires v < TWO_32
    ensures TakeUInt32(Int32Bytes(v) + rest) == Got(v, rest)
  {
    assert Pow(256, 4) == TWO_32;
    FillBytesRoundTrip(v, 4);
    assert (Int32Bytes(v) + rest)[..4] == Int32Bytes(v);
    assert (Int32Bytes(v) + rest)[4..] == rest;
  }

  lemma Int64RoundTrip(v: int, rest: Bytes)
    requires IsInt64(v)
    ensures TakeInt64(Int64Bytes(v) + rest) == Got(v, rest)
  {
    PowAdd(256, 4, 4);
    assert Pow(256, 4) == TWO_32;
    hide FillBytes, BytesToBig;
    FillBytesRoundTrip(v % TWO_64, 8);
    assert (Int64Bytes(v) + rest)[..8] == Int64Bytes(v);
    assert (Int64Bytes(v) + rest)[8..] == rest;
  }

  lemma PaddedRoundTrip(data: Bytes, filler: byte, rest: Bytes)
    requires |data| <= MAX_WIRE_BUFFER_LEN
    ensures TakeBuffer(PaddedBuffer(data, filler) + rest) == Got(data, rest)
  {
    hide TakeUInt32, Int32Bytes;
    var n, pad := |data|, Repeat(filler, PadLength(|data|));
    var body := data + pad + rest;
    assert PaddedBuffer(data, filler) + rest == Int32Bytes(n) + body;
    UInt32RoundTrip(n, body);
    assert body[..n + |pad|] == data + pad;
    assert body[n + |pad|..] == rest;
  }

  /** Reading a written buffer gives it back exactly up to the 64 MiB cap, whatever follows it. */
  lemma BufferRoundTrip(data: Bytes, rest: Bytes)
    ensures TakeBuffer(BufferBytes(data) + rest) == Got(data, rest) <==> |data| <= MAX_WIRE_BUFFER_LEN
  {
    if |data| <= MAX_WIRE_BUFFER_LEN {
      PaddedRoundTrip(data, 0, rest);
    } else {
      var r := TakeBuffer(BufferBytes(data) + rest);
      assert r.Got? ==> |r.value| <= MAX_WIRE_BUFFER_LEN;
    }
  }
}
