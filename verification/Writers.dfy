/** The growing request buffer and its fixed-size stack counterpart. */
module Writers {
  import opened Common
  import opened Xdr

  /** Copies `src` into `dst` at `at`. */
  method CopyInto(dst: array<byte>, at: nat, src: Bytes)
    requires at + |src| <= dst.Length
    modifies dst
    ensures dst[..at + |src|] == old(dst[..at]) + src
    ensures dst[at + |src|..] == old(dst[at + |src|..])
  {
    ghost var before := dst[..at];
    forall i | 0 <= i < |src| {
      dst[at + i] := src[i];
    }
    assert dst[..at] == before;
    assert dst[at..at + |src|] == src;
  }

  const DEFAULT_WRITE_BUF_SIZE := 32 * 1024

  class Writer {
    var buf: array<byte>
    var n: nat

    ghost predicate Valid()
      reads this
    {
      n <= buf.Length && 0 < buf.Length
    }

    /** The bytes accumulated so far. */
    ghost function Written(): (s: Bytes)
      requires Valid()
      reads this, buf
      ensures |s| == n
    {
      buf[..n]
    }

    constructor ()
      ensures Valid() && Written() == [] && fresh(buf)
    {
      buf := new byte[DEFAULT_WRITE_BUF_SIZE];
      n := 0;
    }

    /** Makes room for `k` more bytes, doubling the buffer as often as needed. */
    method Grow(k: nat)
      requires Valid()
      modifies this`buf
      ensures Valid() && Written() == old(Written()) && n + k <= buf.Length
      ensures buf == old(buf) || fresh(buf)
    {
      if n + k <= buf.Length {
        return;
      }
      var newSize := buf.Length * 2;
      while newSize < n + k
        invariant 0 < newSize && n <= newSize
        decreases n + k - newSize
      {
        newSize := newSize * 2;
      }
      var newBuf := new byte[newSize];
      CopyInto(newBuf, 0, buf[..n]);
      buf := newBuf;
    }

    /** Appends exactly the given bytes: every Write operation comes down to this. */
    method WriteRaw(data: Bytes)
      requires Valid()
      modifies this, buf
      ensures Valid() && Written() == old(Written()) + data
      ensures buf == old(buf) || fresh(buf)
    {
      Grow(|data|);
      CopyInto(buf, n, data);
      n := n + |data|;
    }

    method WriteInt32(v: int)
      requires Valid() && IsInt32(v)
      modifies this, buf
      ensures Valid() && Written() == old(Written()) + Int32Bytes(v)
      ensures buf == old(buf) || fresh(buf)
    {
      WriteRaw(Int32Bytes(v));
    }

    method WriteUInt32(v: nat)
      requires Valid() && v < TWO_32
      modifies this, buf
      ensures Valid() && Written() == old(Written()) + Int32Bytes(v)
      ensures buf == old(buf) || fresh(buf)
    {
      WriteRaw(Int32Bytes(v));
    }

    method WriteInt64(v: int)
      requires Valid() && IsInt64(v)
      modifies this, buf
      ensures Valid() && Written() == old(Written()) + Int64Bytes(v)
      ensures buf == old(buf) || fresh(buf)
    {
      WriteRaw(Int64Bytes(v));
    }

    /** Length prefix, data and padding, with room for all three reserved at once. */
    method WriteBuffer(data: Bytes)
      requires Valid()
      modifies this, buf
      ensures Valid() && Written() == old(Written()) + BufferBytes(data)
      ensures buf == old(buf) || fresh(buf)
    {
      WritePadded(data, 0);
    }

    method WritePadded(data: Bytes, filler: byte)
      requires Valid()
      modifies this, buf
      ensures Valid() && Written() == old(Written()) + PaddedBuffer(data, filler)
      ensures buf == old(buf) || fresh(buf)
    {
      hide Int32Bytes, PadLength;
      var l, pad := |data|, PadLength(|data|);
      Grow(4 + l + pad);
      ghost var before := buf[..n];
      CopyInto(buf, n, Int32Bytes(l));
      n := n + 4;
      CopyInto(buf, n, data);
      n := n + l;
      CopyInto(buf, n, Repeat(filler, pad));
      n := n + pad;
      assert buf[..n] == before + Int32Bytes(l) + data + Repeat(filler, pad);
      Associate(before, Int32Bytes(l), data, Repeat(filler, pad));
    }

    /**
     * Hands the buffered bytes to a stream that takes everything, or fails
     * after the given number of bytes. The buffer is empty afterwards either
     * way; an empty one asks nothing of the stream and cannot fail.
     */
    method Flush(failsAfter: Option<nat>) returns (sent: Bytes, ok: bool)
      requires Valid()
      modifies this`n
      ensures Valid() && Written() == []
      ensures ok <==> old(Written()) == [] || failsAfter.None?
      ensures ok ==> sent == old(Written())
      ensures !ok ==> sent == old(Written())[..Min(failsAfter.value, |old(Written())|)]
    {
      if n == 0 {
        return [], true;
      }
      var taken := if failsAfter.None? then n else Min(failsAfter.value, n);
      sent, ok := buf[..taken], failsAfter.None?;
      n := 0;
    }
  }

  const STACK_SIZE := 1024

  /** What a write does to the contents of a stack buffer: all of it or none of it. */
  function StackAppend(contents: Bytes, data: Bytes): Bytes {
    if STACK_SIZE < |contents| + |data| then contents else contents + data
  }

  /** A fixed buffer whose overflow flag, once raised, stays raised. */
  class StackWriter {
    const buf: array<byte>
    var n: nat
    var overflow: bool

    ghost predicate Valid()
      reads this
    {
      n <= buf.Length == STACK_SIZE
    }

    ghost function Written(): (s: Bytes)
      requires Valid()
      reads this, buf
      ensures |s| == n
    {
      buf[..n]
    }

    constructor ()
      ensures Valid() && Written() == [] && !overflow && fresh(buf)
    {
      buf := new byte[STACK_SIZE];
      n, overflow := 0, false;
    }

    method Reset()
      requires Valid()
      modifies this
      ensures Valid() && Written() == [] && !overflow
    {
      n, overflow := 0, false;
    }

    method WriteRaw(data: Bytes)
      requires Valid()
      modifies this, buf
      ensures Valid() && Written() == StackAppend(old(Written()), data)
      ensures overflow <==> old(overflow) || STACK_SIZE < old(n) + |data|
    {
      if n + |data| > buf.Length {
        overflow := true;
        return;
      }
      CopyInto(buf, n, data);
      n := n + |data|;
    }

    method WritePadded(data: Bytes, filler: byte)
      requires Valid()
      modifies this, buf
      ensures Valid() && Written() == StackAppend(old(Written()), PaddedBuffer(data, filler))
      ensures overflow <==> old(overflow) || STACK_SIZE < old(n) + |PaddedBuffer(data, filler)|
    {
      hide Int32Bytes, PadLength;
      var l, pad := |data|, PadLength(|data|);
      if n + 4 + l + pad > buf.Length {
        overflow := true;
        return;
      }
      ghost var before := buf[..n];
      CopyInto(buf, n, Int32Bytes(l));
      n := n + 4;
      CopyInto(buf, n, data);
      n := n + l;
      CopyInto(buf, n, Repeat(filler, pad));
      n := n + pad;
      assert buf[..n] == before + Int32Bytes(l) + data + Repeat(filler, pad);
      Associate(before, Int32Bytes(l), data, Repeat(filler, pad));
    }
  }
}
