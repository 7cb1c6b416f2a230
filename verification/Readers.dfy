/** The sliding-window reader over a stream that delivers its bytes in arbitrary chunks. */
module Readers {
  import opened Common
  import opened BigInt
  import opened Xdr
  import opened Writers

  /** How much one Read call delivers at most, and whether it also reports an error. */
  datatype Chunk = Chunk(size: nat, fails: bool)

  datatype ReadError = UnexpectedEOF | NoProgress | Failed | LengthTooLarge

  /** An underlying stream: the bytes it still holds and the chunks in which it will hand them out. */
  class Source {
    var data: Bytes
    var plan: seq<Chunk>

    constructor (data: Bytes, plan: seq<Chunk>)
      ensures this.data == data && this.plan == plan
    {
      this.data, this.plan := data, plan;
    }

    /** No chunk is empty or fails, and there are enough of them for every byte. */
    ghost predicate Productive()
      reads this
    {
      |data| <= |plan| && forall c :: c in plan ==> 0 < c.size && !c.fails
    }

    method Read(dst: array<byte>, from: nat) returns (m: nat, error: Option<ReadError>)
      requires from < dst.Length
      modifies this, dst
      ensures m <= |old(data)| && from + m <= dst.Length
      ensures dst[..from + m] == old(dst[..from]) + old(data)[..m] && data == old(data)[m..]
      ensures old(Productive()) ==> Productive() && (if old(data) == [] then m == 0 else error.None? && 0 < m)
    {
      if plan == [] || data == [] {
        return 0, Some(UnexpectedEOF);
      }
      m := Min(plan[0].size, Min(dst.Length - from, |data|));
      error := if plan[0].fails then Some(Failed) else None;
      CopyInto(dst, from, data[..m]);
      data := data[m..];
      plan := plan[1..];
    }
  }

  const DEFAULT_READ_BUF_SIZE := 16 * 1024

  class Reader {
    const rd: Source
    var err: Option<ReadError>
    var buf: array<byte>
    var start: nat
    var end: nat

    ghost predicate Valid()
      reads this
    {
      start <= end <= buf.Length && 0 < buf.Length
    }

    /** The bytes not yet handed out: those in the window and those still in the stream. */
    ghost function Pending(): Bytes
      requires Valid()
      reads this, buf, rd
    {
      buf[start..end] + rd.data
    }

    constructor (rd: Source)
      ensures Valid() && err.None? && this.rd == rd && Pending() == rd.data && fresh(buf)
    {
      this.rd := rd;
      err := None;
      buf := new byte[DEFAULT_READ_BUF_SIZE];
      start, end := 0, 0;
    }

    /** Brings at least `n` unread bytes into the window, growing or compacting it first. */
    method Ensure(n: nat) returns (ok: bool)
      requires Valid()
      modifies this, buf, rd
      ensures Valid() && Pending() == old(Pending())
      ensures buf == old(buf) || fresh(buf)
      ensures ok ==> err.None? && old(err).None? && n <= end - start
      ensures !ok ==> err.Some?
      ensures old(rd.Productive()) ==> rd.Productive()
      ensures old(rd.Productive()) && old(err).None? ==> (ok <==> n <= |old(Pending())|)
    {
      if err.Some? {
        return false;
      }
      if n <= end - start {
        return true;
      }
      MakeRoom(n);
      while end - start < n
        invariant Valid() && start == 0 && n <= buf.Length && err.None?
        invariant Pending() == old(Pending())
        invariant old(rd.Productive()) ==> rd.Productive()
        invariant buf == old(buf) || fresh(buf)
        decreases n - (end - start)
      {
        var m := Refill();
        if err.Some? {
          return false;
        }
        if m == 0 {
          err := Some(NoProgress);
          return false;
        }
      }
      ok := true;
    }

    /** One Read call into the free end of the buffer. */
    method Refill() returns (m: nat)
      requires Valid() && start == 0 && end < buf.Length && err.None?
      modifies this`end, this`err, buf, rd
      ensures Valid() && Pending() == old(Pending()) && end == old(end) + m
      ensures old(rd.Productive()) ==> rd.Productive()
      ensures old(rd.Productive()) && (err.Some? || m == 0) ==> m == 0 && |Pending()| == end - start
    {
      ghost var window, unread := buf[..end], rd.data;
      var error;
      m, error := rd.Read(buf, end);
      end := end + m;
      err := error;
      assert unread == unread[..m] + unread[m..];
      assert buf[0..end] + rd.data == window + unread;
    }

    /** Moves the unread bytes to the front of a buffer that holds at least `n` bytes. */
    method MakeRoom(n: nat)
      requires Valid() && end - start < n
      modifies this, buf
      ensures Valid() && Pending() == old(Pending()) && start == 0 && n <= buf.Length && err == old(err)
      ensures end == old(end - start)
      ensures buf == old(buf) || fresh(buf)
    {
      var unread := end - start;
      ghost var window := buf[start..end];
      if n > buf.Length {
        var newSize := buf.Length;
        while newSize < n
          invariant 0 < newSize && buf.Length <= newSize
          decreases n - newSize
        {
          newSize := newSize * 2;
        }
        var newBuf := new byte[newSize];
        CopyInto(newBuf, 0, buf[start..end]);
        buf := newBuf;
        start, end := 0, unread;
      } else if unread > 0 && start > 0 {
        CopyInto(buf, 0, buf[start..end]);
        start, end := 0, unread;
      } else if unread == 0 {
        start, end := 0, 0;
      }
      assert buf[start..end] == window;
    }

    /** Removes exactly the first `n` pending bytes, however the stream chunks them. */
    method ReadView(n: nat) returns (view: Bytes)
      requires Valid()
      modifies this, buf, rd
      ensures Valid() && (buf == old(buf) || fresh(buf))
      ensures old(rd.Productive()) ==> rd.Productive()
      ensures err.None? ==> old(err).None? && TakeBytes(old(Pending()), n) == Got(view, Pending())
      ensures n == 0 ==> err == old(err)
      ensures old(err).None? && old(rd.Productive()) ==> (err.None? <==> n <= |old(Pending())|)
    {
      if n == 0 {
        assert Pending()[0..] == Pending();
        return [];
      }
      var ok := Ensure(n);
      if !ok {
        return [];
      }
      view := buf[start..start + n];
      assert buf[start..end] == view + buf[start + n..end];
      start := start + n;
      assert old(Pending()) == view + Pending();
    }

    method ReadUInt32() returns (v: int)
      requires Valid()
      modifies this, buf, rd
      ensures Valid() && (buf == old(buf) || fresh(buf))
      ensures old(rd.Productive()) ==> rd.Productive()
      ensures err.None? ==> old(err).None? && TakeUInt32(old(Pending())) == Got(v, Pending())
      ensures old(err).None? && old(rd.Productive()) ==> (err.None? <==> TakeUInt32(old(Pending())).Got?)
    {
      var b := ReadView(4);
      if err.Some? {
        return 0;
      }
      v := BytesToBig(b);
    }

    method ReadInt32() returns (v: int)
      requires Valid()
      modifies this, buf, rd
      ensures Valid() && (buf == old(buf) || fresh(buf)) && IsInt32(v)
      ensures old(rd.Productive()) ==> rd.Productive()
      ensures err.None? ==> old(err).None? && TakeInt32(old(Pending())) == Got(v, Pending())
      ensures old(err).None? && old(rd.Productive()) ==> (err.None? <==> TakeInt32(old(Pending())).Got?)
    {
      var b := ReadView(4);
      if err.Some? {
        return 0;
      }
      v := Wrap32(BytesToBig(b));
    }

    method ReadInt64() returns (v: int)
      requires Valid()
      modifies this, buf, rd
      ensures Valid() && (buf == old(buf) || fresh(buf)) && IsInt64(v)
      ensures old(rd.Productive()) ==> rd.Productive()
      ensures err.None? ==> old(err).None? && TakeInt64(old(Pending())) == Got(v, Pending())
      ensures old(err).None? && old(rd.Productive()) ==> (err.None? <==> TakeInt64(old(Pending())).Got?)
    {
      var b := ReadView(8);
      if err.Some? {
        return 0;
      }
      v := Wrap64(BytesToBig(b));
    }

    /** Reinterpreting a signed 32-bit read as unsigned undoes the sign. */
    static lemma UnsignedAgain(p: Bytes, raw: int)
      ensures TakeInt32(p).Got? <==> TakeUInt32(p).Got?
      ensures TakeInt32(p).Got? && TakeInt32(p).value == raw ==>
                TakeUInt32(p) == Got(raw % TWO_32, TakeInt32(p).rest)
    {
    }

    /** A length-prefixed buffer; a length above the cap is an error of its own. */
    method ReadBuffer() returns (data: Bytes)
      requires Valid()
      modifies this, buf, rd
      ensures Valid() && (buf == old(buf) || fresh(buf))
      ensures old(rd.Productive()) ==> rd.Productive()
      ensures err.None? ==> old(err).None? && TakeBuffer(old(Pending())) == Got(data, Pending())
      ensures old(err).None? && old(rd.Productive()) ==> (err.None? <==> TakeBuffer(old(Pending())).Got?)
    {
      hide BytesToBig, TakeUInt32;
      var raw := ReadInt32();
      if err.Some? {
        return [];
      }
      var ulen := raw % TWO_32;
      UnsignedAgain(old(Pending()), raw);
      if ulen / 0x10000 == 0xFFFF {
        ulen := ulen % 0x10000;
      }
      if ulen > MAX_WIRE_BUFFER_LEN {
        err := Some(LengthTooLarge);
        return [];
      }
      var view := ReadView(ulen + PadLength(ulen));
      if err.Some? {
        return [];
      }
      data := view[..ulen];
    }

    /** An opcode, after any number of keep-alives. */
    method ReadOpcode() returns (op: int)
      requires Valid()
      modifies this, buf, rd
      ensures Valid() && (buf == old(buf) || fresh(buf))
      ensures old(rd.Productive()) ==> rd.Productive()
      ensures err.None? ==> old(err).None? && TakeOpcode(old(Pending())) == Got(op, Pending())
      ensures old(err).None? && old(rd.Productive()) ==> (err.None? <==> TakeOpcode(old(Pending())).Got?)
    {
      op := ReadInt32();
      while err.None? && op == OP_DUMMY
        invariant Valid() && (buf == old(buf) || fresh(buf))
        invariant old(rd.Productive()) ==> rd.Productive()
        invariant err.None? ==> old(err).None?
        invariant err.None? ==> TakeOpcode(old(Pending())) == if op == OP_DUMMY then TakeOpcode(Pending()) else Got(op, Pending())
        invariant old(err).None? && old(rd.Productive()) ==> (err.Some? ==> !TakeOpcode(old(Pending())).Got?)
        decreases if err.None? then |Pending()| + 1 else 0
      {
        op := ReadInt32();
      }
    }
  }
}
