/** Decoding columns and rows straight from the reader into a window of the value array. */
module RowDecoder {
  import opened Common
  import opened BigInt
  import opened ScaledText
  import opened DateTime
  import opened Descriptors
  import opened Int128
  import opened DecFloatWire
  import opened NullBitmap
  import opened Xdr
  import opened Writers
  import opened Readers
  import opened RowFormat

  /**
   * A read did what its specification says: without an error it took exactly
   * the specified value, and over a productive stream errors come only from
   * input that the specification rejects.
   */
  ghost predicate Consumed<T(!new)>(spec: Taken<T>, value: T, after: Bytes, failedBefore: bool, failed: bool, productive: bool) {
    && (!failed ==> !failedBefore && spec == Got(value, after))
    && (!failedBefore && productive ==> (!failed <==> spec.Got?))
  }

  method TrimRightSpaces(b: Bytes) returns (r: Bytes)
    ensures r == TrimSpaces(b)
  {
    var i := |b|;
    assert b[..|b|] == b;
    while i > 0 && b[i - 1] == 0x20
      invariant 0 <= i <= |b| && TrimSpaces(b[..i]) == TrimSpaces(b)
    {
      assert b[..i][..i - 1] == b[..i - 1];
      i := i - 1;
    }
    r := b[..i];
  }

  method ReadIntegerColumn(env: Env, r: Reader, d: ColumnDescriptor) returns (cell: Cell)
    requires r.Valid() && ValidColumn(d)
    requires d.BaseType() == SQL_SHORT || d.BaseType() == SQL_LONG || d.BaseType() == SQL_INT64
    modifies r, r.buf, r.rd
    ensures r.Valid() && (r.buf == old(r.buf) || fresh(r.buf)) && (old(r.rd.Productive()) ==> r.rd.Productive())
    ensures Consumed(DecodeColumn(env, d, old(r.Pending())), cell, r.Pending(),
                     old(r.err).Some?, r.err.Some?, old(r.rd.Productive()))
  {
    hide TakeInt32, TakeInt64, ScaledInt64;
    var t := d.BaseType();
    var v;
    if t == SQL_INT64 {
      v := r.ReadInt64();
    } else {
      v := r.ReadInt32();
      if t == SQL_SHORT {
        v := Int16Of(v);
      }
    }
    cell := IntegerCell(v, d.scale);
  }

  method ReadZonedTime(env: Env, r: Reader) returns (cell: Cell)
    requires r.Valid()
    modifies r, r.buf, r.rd
    ensures r.Valid() && (r.buf == old(r.buf) || fresh(r.buf)) && (old(r.rd.Productive()) ==> r.rd.Productive())
    ensures Consumed(DecodeZonedTime(old(r.Pending())), cell, r.Pending(),
                     old(r.err).Some?, r.err.Some?, old(r.rd.Productive()))
    ensures r.err.None? ==> cell.CZonedTime?
  {
    hide TakeInt32, TakeUInt32, TicksToTime;
    var ticks := r.ReadUInt32();
    var zone := r.ReadUInt32();
    var offset := r.ReadInt32();
    cell := if ticks < 0 || zone < 0 then Null else CZonedTime(TicksToTime(ticks), zone, offset);
  }

  method ReadTimeColumn(env: Env, r: Reader, d: ColumnDescriptor) returns (cell: Cell)
    requires r.Valid() && ValidColumn(d) && IsTime(d.BaseType())
    modifies r, r.buf, r.rd
    ensures r.Valid() && (r.buf == old(r.buf) || fresh(r.buf)) && (old(r.rd.Productive()) ==> r.rd.Productive())
    ensures Consumed(DecodeColumn(env, d, old(r.Pending())), cell, r.Pending(),
                     old(r.err).Some?, r.err.Some?, old(r.rd.Productive()))
  {
    hide TakeInt32, TakeUInt32, TicksToTime, MJDToDate, DecodeZonedTime;
    var t := d.BaseType();
    if t == SQL_TIME_TZ || t == SQL_TIME_TZ_EX {
      cell := ReadZonedTime(env, r);
      return;
    }
    var mjd := 0;
    if t != SQL_TYPE_TIME {
      mjd := r.ReadInt32();
      if t == SQL_TYPE_DATE {
        return CDate(MJDToDate(mjd));
      }
    }
    if t == SQL_TIMESTAMP_TZ || t == SQL_TIMESTAMP_TZ_EX {
      ghost var rest := r.Pending();
      var zoned := ReadZonedTime(env, r);
      cell := if zoned.CZonedTime? then CZonedTimestamp(MJDToDate(mjd), zoned.utcTime, zoned.timeZone, zoned.timeOffset) else Null;
      ZonedShape(rest);
      return;
    }
    var ticks := r.ReadUInt32();
    var clock := TicksToTime(if ticks < 0 then 0 else ticks);
    cell := if t == SQL_TIMESTAMP then CTimestamp(MJDToDate(mjd), clock) else CClock(clock);
  }

  predicate IsTime(t: int) {
    t == SQL_TYPE_DATE || t == SQL_TYPE_TIME || t == SQL_TIMESTAMP || t == SQL_TIME_TZ || t == SQL_TIME_TZ_EX
    || t == SQL_TIMESTAMP_TZ || t == SQL_TIMESTAMP_TZ_EX
  }

  lemma ZonedShape(p: Bytes)
    ensures DecodeZonedTime(p).Got? ==> DecodeZonedTime(p).value.CZonedTime?
  {
  }

  lemma TextDecoded(env: Env, d: ColumnDescriptor, p: Bytes)
    requires ValidColumn(d) && d.BaseType() == SQL_TEXT
    ensures var n := d.length + PadLength(d.length);
            DecodeColumn(env, d, p) ==
            if d.length == 0 then Got(CText(""), p)
            else if |p| < n then Short
            else Got(TextCell(env, d, p[..n][..d.length]), p[n..])
  {
    hide PadLength, TextCell, BytesToBig, TakeUInt32, TakeBuffer, DecodeZonedTime, DecodeZonedTimestamp;
  }

  method ReadTextColumn(env: Env, r: Reader, d: ColumnDescriptor) returns (cell: Cell)
    requires r.Valid() && ValidColumn(d) && d.BaseType() == SQL_TEXT
    modifies r, r.buf, r.rd
    ensures r.Valid() && (r.buf == old(r.buf) || fresh(r.buf)) && (old(r.rd.Productive()) ==> r.rd.Productive())
    ensures Consumed(DecodeColumn(env, d, old(r.Pending())), cell, r.Pending(),
                     old(r.err).Some?, r.err.Some?, old(r.rd.Productive()))
  {
    hide PadLength, CharsetDecode, TrimSpaces, DecodeColumn;
    TextDecoded(env, d, r.Pending());
    var length := d.length;
    if length <= 0 {
      return CText("");
    }
    var padded := r.ReadView(length + PadLength(length));
    if r.err.Some? {
      return CText("");
    }
    var result := padded[..length];
    if d.subType == CS_OCTETS {
      return CBytes(result);
    }
    result := TrimRightSpaces(result);
    if d.subType == CS_NONE {
      return CBytes(result);
    }
    cell := CText(CharsetDecode(env, d.CharsetId(), result));
  }

  method ReadOtherColumn(env: Env, r: Reader, d: ColumnDescriptor) returns (cell: Cell)
    requires r.Valid() && ValidColumn(d) && !IsTime(d.BaseType()) && d.BaseType() != SQL_TEXT
    requires d.BaseType() != SQL_SHORT && d.BaseType() != SQL_LONG && d.BaseType() != SQL_INT64
    modifies r, r.buf, r.rd
    ensures r.Valid() && (r.buf == old(r.buf) || fresh(r.buf)) && (old(r.rd.Productive()) ==> r.rd.Productive())
    ensures Consumed(DecodeColumn(env, d, old(r.Pending())), cell, r.Pending(),
                     old(r.err).Some?, r.err.Some?, old(r.rd.Productive()))
  {
    hide TakeInt32, TakeInt64, TakeUInt32, TakeBuffer, BytesToBig, Decimal64Text, Decimal128Text, SignedOf, ScaledBigInt, CharsetDecode;
    var t := d.BaseType();
    if t == SQL_FLOAT {
      var bits := r.ReadUInt32();
      cell := if bits < 0 then Null else CFloat32(bits);
    } else if t == SQL_DOUBLE {
      var b := r.ReadView(8);
      cell := CFloat64(BytesToBig(b));
    } else if t == SQL_BOOLEAN {
      var v := r.ReadInt32();
      cell := CBool(v != 0);
    } else if t == SQL_VARYING {
      var data := r.ReadBuffer();
      cell := VaryingCell(env, d, data);
    } else if t == SQL_BLOB {
      var v := r.ReadInt64();
      cell := CInt(v);
    } else if t == SQL_DEC16 {
      var b := r.ReadView(8);
      var s := Decfloat64BytesToString(b);
      cell := CText(s);
    } else if t == SQL_DEC34 {
      var b := r.ReadView(16);
      var s := Decfloat128BytesToString(b);
      cell := CText(s);
    } else if t == SQL_INT128 {
      var b := r.ReadView(16);
      cell := if r.err.Some? then CText("") else CText(ScaledBigInt(SignedOf(b), d.scale));
    } else {
      var data := r.ReadBuffer();
      cell := CText(env.text(data));
    }
  }

  /** One column, by its type; a sticky error makes the value meaningless. */
  method ReadColumn(env: Env, r: Reader, d: ColumnDescriptor) returns (cell: Cell)
    requires r.Valid() && ValidColumn(d)
    modifies r, r.buf, r.rd
    ensures r.Valid() && (r.buf == old(r.buf) || fresh(r.buf)) && (old(r.rd.Productive()) ==> r.rd.Productive())
    ensures Consumed(DecodeColumn(env, d, old(r.Pending())), cell, r.Pending(),
                     old(r.err).Some?, r.err.Some?, old(r.rd.Productive()))
  {
    hide DecodeColumn;
    var t := d.BaseType();
    if t == SQL_SHORT || t == SQL_LONG || t == SQL_INT64 {
      cell := ReadIntegerColumn(env, r, d);
    } else if IsTime(t) {
      cell := ReadTimeColumn(env, r, d);
    } else if t == SQL_TEXT {
      cell := ReadTextColumn(env, r, d);
    } else {
      cell := ReadOtherColumn(env, r, d);
    }
  }

  // ---------------------------------------------------------------------------
  // Rows
  // ---------------------------------------------------------------------------

  function PrependCells(cells: seq<Cell>, r: Taken<seq<Cell>>): Taken<seq<Cell>> {
    match r
    case Got(rest, p) => Got(cells + rest, p)
    case Short => Short
    case TooLong => TooLong
  }

  lemma DecodedCell(env: Env, descs: seq<ColumnDescriptor>, bitset: Bytes, i: nat, p: Bytes, cell: Cell, p': Bytes, cells: seq<Cell>)
    requires i < |descs| && ValidColumns(descs)
    requires (if IsNull(bitset, i) then Got(Null, p) else DecodeColumn(env, descs[i], p)) == Got(cell, p')
    ensures PrependCells(cells, DecodeFrom(env, descs, bitset, i, p))
         == PrependCells(cells + [cell], DecodeFrom(env, descs, bitset, i + 1, p'))
  {
    hide DecodeColumn;
    var r := DecodeFrom(env, descs, bitset, i + 1, p');
    if r.Got? {
      assert cells + ([cell] + r.value) == cells + [cell] + r.value;
    }
  }

  lemma UndecodedCell(env: Env, descs: seq<ColumnDescriptor>, bitset: Bytes, i: nat, p: Bytes, cells: seq<Cell>)
    requires i < |descs| && ValidColumns(descs) && !IsNull(bitset, i) && !DecodeColumn(env, descs[i], p).Got?
    ensures !PrependCells(cells, DecodeFrom(env, descs, bitset, i, p)).Got?
  {
    hide DecodeColumn;
  }

  /** The null bitmap, read into a buffer that is enlarged when a row has very many columns. */
  method ReadNullBitset(r: Reader, colCount: nat, scratch: array<byte>) returns (bitset: Bytes)
    requires r.Valid() && scratch != r.buf
    modifies r, r.buf, r.rd, scratch
    ensures r.Valid() && (r.buf == old(r.buf) || fresh(r.buf)) && (old(r.rd.Productive()) ==> r.rd.Productive())
    ensures r.err.None? ==> old(r.err).None?
    ensures r.err.None? ==>
              match TakeBytes(old(r.Pending()), PaddedSize(colCount))
              case Got(b, rest) => bitset == b[..(colCount + 7) / 8] && r.Pending() == rest
              case _ => false
    ensures old(r.err).None? && old(r.rd.Productive()) ==> (r.err.None? <==> PaddedSize(colCount) <= |old(r.Pending())|)
  {
    var padded := PaddedSize(colCount);
    var nullBuf := scratch;
    if scratch.Length < padded {
      nullBuf := new byte[padded];
    }
    if padded == 0 || r.err.Some? {
      assert r.Pending()[0..] == r.Pending();
      return [];
    }
    var view := r.ReadView(padded);
    if r.err.Some? {
      return [];
    }
    CopyInto(nullBuf, 0, view);
    bitset := nullBuf[..(colCount + 7) / 8];
    assert nullBuf[..padded][..(colCount + 7) / 8] == bitset;
  }

  /** Decodes one row into `row[at..at + |descs|]` and touches nothing else of `row`. */
  method ReadRow(env: Env, r: Reader, descs: seq<ColumnDescriptor>, scratch: array<byte>, row: array<Cell>, at: nat)
    requires r.Valid() && ValidColumns(descs) && scratch != r.buf && at + |descs| <= row.Length
    modifies r, r.buf, r.rd, scratch, row
    ensures r.Valid() && (r.buf == old(r.buf) || fresh(r.buf)) && (old(r.rd.Productive()) ==> r.rd.Productive())
    ensures row[..at] == old(row[..at]) && row[at + |descs|..] == old(row[at + |descs|..])
    ensures Consumed(DecodeRow(env, descs, old(r.Pending())), row[at..at + |descs|], r.Pending(),
                     old(r.err).Some?, r.err.Some?, old(r.rd.Productive()))
  {
    hide DecodeColumn, DecodeFrom, IsNull, PaddedSize;
    ghost var spec := DecodeRow(env, descs, r.Pending());
    var bitset := ReadNullBitset(r, |descs|, scratch);
    ghost var failed := r.err.Some?;
    ghost var from := if failed then [] else r.Pending();
    assert !failed ==> spec == PrependCells([], DecodeFrom(env, descs, bitset, 0, from)) by {
      if !failed && spec.Got? {
        assert [] + spec.value == spec.value;
      }
    }
    assert row[at..at + 0] == [];
    for i := 0 to |descs|
      invariant r.Valid() && (r.buf == old(r.buf) || fresh(r.buf)) && (old(r.rd.Productive()) ==> r.rd.Productive())
      invariant row[..at] == old(row[..at]) && row[at + |descs|..] == old(row[at + |descs|..])
      invariant r.err.None? ==> old(r.err).None?
      invariant r.err.None? ==> spec == PrependCells(row[at..at + i], DecodeFrom(env, descs, bitset, i, r.Pending()))
      invariant old(r.err).None? && old(r.rd.Productive()) && r.err.Some? ==> !spec.Got?
    {
      ghost var cells, p, failedBefore := row[at..at + i], r.Pending(), r.err.Some?;
      var cell := Null;
      if !IsNull(bitset, i) {
        cell := ReadColumn(env, r, descs[i]);
        if r.err.Some? && !failedBefore && old(r.rd.Productive()) {
          UndecodedCell(env, descs, bitset, i, p, cells);
        }
      }
      row[at + i] := cell;
      assert row[at..at + i + 1] == cells + [cell];
      if r.err.None? {
        DecodedCell(env, descs, bitset, i, p, cell, r.Pending(), cells);
      }
    }
    LastCell(env, descs, bitset, r.Pending(), row[at..at + |descs|]);
  }

  lemma LastCell(env: Env, descs: seq<ColumnDescriptor>, bitset: Bytes, p: Bytes, cells: seq<Cell>)
    requires ValidColumns(descs)
    ensures PrependCells(cells, DecodeFrom(env, descs, bitset, |descs|, p)) == Got(cells, p)
  {
    assert cells + [] == cells;
  }
}
