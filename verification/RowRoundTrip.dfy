/** Decoding undoes encoding: for one column, and for whole rows with nulls anywhere. */
module RowRoundTrip {
  import opened Common
  import opened Powers
  import opened BigInt
  import opened DecimalText
  import opened Numeric
  import opened ScaledText
  import opened DateTime
  import opened Descriptors
  import opened Int128
  import opened NullBitmap
  import opened Xdr
  import opened RowFormat

  /** Types whose two directions are inverses; DECFLOAT travels as text one way and as DPD the other. */
  predicate Reversible(d: ColumnDescriptor) {
    ValidColumn(d) && d.length <= MAX_WIRE_BUFFER_LEN && d.BaseType() != SQL_DEC16 && d.BaseType() != SQL_DEC34
  }

  predicate IsListed(t: int) {
    t == SQL_SHORT || t == SQL_LONG || t == SQL_INT64 || t == SQL_FLOAT || t == SQL_DOUBLE || t == SQL_BOOLEAN
    || t == SQL_TYPE_DATE || t == SQL_TYPE_TIME || t == SQL_TIMESTAMP || t == SQL_TEXT || t == SQL_VARYING
    || t == SQL_BLOB || t == SQL_INT128 || t == SQL_TIMESTAMP_TZ || t == SQL_TIMESTAMP_TZ_EX
    || t == SQL_TIME_TZ || t == SQL_TIME_TZ_EX
  }

  /** The bytes of a parameter bound to a type the driver does not know. */
  function RawBytes(env: Env, v: Value): Bytes {
    if v.VBytes? then v.bytes else env.utf8(ToText(env, v))
  }

  function FieldBytes(env: Env, d: ColumnDescriptor, v: Value): Bytes
    requires FittingText(env, d, v).Ok?
  {
    FittingText(env, d, v).value
  }

  /** What a parameter reads back as, said in terms of the value and not of its bytes. */
  ghost predicate ReadsBackAs(env: Env, d: ColumnDescriptor, v: Value, cell: Cell)
    requires ValidColumn(d) && v.Valid()
  {
    var t := d.BaseType();
    if t == SQL_SHORT || t == SQL_LONG || t == SQL_INT64 then
      var n := NumericInt64(env, v, d.scale);
      n.Ok? && IsInt64(n.value) && cell == IntegerCell(n.value, d.scale)
    else if t == SQL_FLOAT then FloatValue(env, v).Ok? && cell == CFloat32(env.float32(FloatValue(env, v).value))
    else if t == SQL_DOUBLE then FloatValue(env, v).Ok? && cell == CFloat64(FloatValue(env, v).value)
    else if t == SQL_BOOLEAN then cell == CBool(ToBool(v))
    else if t == SQL_TYPE_DATE then v.VTime? && cell == CDate(MJDToDate(DateToMJD(v.t.localDate)))
    else if t == SQL_TYPE_TIME then v.VTime? && cell == CClock(TruncateToTick(v.t.localClock))
    else if t == SQL_TIMESTAMP then
      v.VTime? && cell == CTimestamp(MJDToDate(DateToMJD(v.t.localDate)), TruncateToTick(v.t.localClock))
    else if t == SQL_TEXT then
      && FittingText(env, d, v).Ok?
      && var data := FieldBytes(env, d, v);
         cell == if d.length == 0 then CText("")
                 else if d.subType == CS_OCTETS then CBytes(data + Repeat(0x20, d.length - |data|))
                 else if d.subType == CS_NONE then CBytes(TrimSpaces(data))
                 else CText(CharsetDecode(env, d.CharsetId(), TrimSpaces(data)))
    else if t == SQL_VARYING then FittingText(env, d, v).Ok? && cell == VaryingCell(env, d, FieldBytes(env, d, v))
    else if t == SQL_BLOB then cell == CInt(ToInt64(env, v))
    else if t == SQL_INT128 then
      && Int128Text(env, v).Ok?
      && var n := ScaledBigIntOf(Int128Text(env, v).value, d.scale);
         n.Ok? && cell == CText(ScaledBigInt(SignedOf(Int128Bytes(n.value)), d.scale))
    else if t == SQL_TIMESTAMP_TZ || t == SQL_TIMESTAMP_TZ_EX then
      v.VTime? && cell == CZonedTimestamp(MJDToDate(DateToMJD(v.t.utcDate)), TruncateToTick(v.t.utcClock),
                                          OffsetZone(v.t.offset) % TWO_32, Wrap32(GoDiv(v.t.offset, 60)))
    else if t == SQL_TIME_TZ || t == SQL_TIME_TZ_EX then
      v.VTime? && cell == CZonedTime(TruncateToTick(v.t.utcClock), OffsetZone(v.t.offset) % TWO_32,
                                     Wrap32(GoDiv(v.t.offset, 60)))
    else cell == CText(env.text(RawBytes(env, v)))
  }

  lemma TakeOneInt32(v: int, rest: Bytes)
    requires -TWO_31 <= v < TWO_32
    ensures 0 <= v % TWO_32 && TakeUInt32(Int32Bytes(v) + rest) == Got(v % TWO_32, rest)
    ensures TakeInt32(Int32Bytes(v) + rest) == Got(Wrap32(v), rest)
  {
    UInt32RoundTrip(v % TWO_32, rest);
    assert Int32Bytes(v % TWO_32) == Int32Bytes(v);
  }

  lemma FlattenOne(b: Bytes)
    ensures Flatten([b]) == b
  {
    assert Flatten<byte>([]) == [];
  }

  lemma IntegerColumn(env: Env, d: ColumnDescriptor, v: Value, b: Bytes, rest: Bytes) returns (cell: Cell)
    requires ValidColumn(d) && v.Valid() && EncodeValue(env, d, v) == Ok(b)
    requires d.BaseType() == SQL_SHORT || d.BaseType() == SQL_LONG || d.BaseType() == SQL_INT64
    ensures ReadsBackAs(env, d, v, cell) && DecodeColumn(env, d, b + rest) == Got(cell, rest)
  {
    hide Int32Bytes, Int64Bytes, TakeUInt32, ScaledInt64Of, ScaledInt64, IntegralScaled;
    var n := NumericInt64(env, v, d.scale).value;
    assert IsInt64(n) by {
      NumericInRange(env, v, d.scale);
    }
    FlattenOne(Int32Bytes(n));
    FlattenOne(Int64Bytes(n));
    if d.BaseType() == SQL_INT64 {
      Int64RoundTrip(n, rest);
    } else {
      TakeOneInt32(n, rest);
    }
    cell := IntegerCell(n, d.scale);
  }

  lemma NumericInRange(env: Env, v: Value, scale: int)
    requires v.Valid() && NumericInt64(env, v, scale).Ok?
    ensures IsInt64(NumericInt64(env, v, scale).value)
  {
    hide ScaledBigIntOf;
  }

  lemma FloatColumn(env: Env, d: ColumnDescriptor, v: Value, b: Bytes, rest: Bytes) returns (cell: Cell)
    requires env.Valid() && ValidColumn(d) && v.Valid() && EncodeValue(env, d, v) == Ok(b)
    requires d.BaseType() == SQL_FLOAT || d.BaseType() == SQL_DOUBLE
    ensures ReadsBackAs(env, d, v, cell) && DecodeColumn(env, d, b + rest) == Got(cell, rest)
  {
    hide FillBytes, BytesToBig;
    var f := FloatValue(env, v).value;
    assert f < TWO_64;
    FlattenOne(Int32Bytes(env.float32(f)));
    FlattenOne(Int64Bytes(f));
    if d.BaseType() == SQL_FLOAT {
      UInt32RoundTrip(env.float32(f), rest);
      cell := CFloat32(env.float32(f));
    } else {
      PowAdd(256, 4, 4);
      assert Pow(256, 4) == TWO_32;
      FillBytesRoundTrip(f, 8);
      assert (b + rest)[..8] == b && (b + rest)[8..] == rest;
      cell := CFloat64(f);
    }
  }

  lemma SimpleColumn(env: Env, d: ColumnDescriptor, v: Value, b: Bytes, rest: Bytes) returns (cell: Cell)
    requires env.Valid() && ValidColumn(d) && v.Valid() && EncodeValue(env, d, v) == Ok(b)
    requires d.BaseType() == SQL_BOOLEAN || d.BaseType() == SQL_BLOB
    ensures ReadsBackAs(env, d, v, cell) && DecodeColumn(env, d, b + rest) == Got(cell, rest)
  {
    hide Int32Bytes, Int64Bytes, TakeUInt32;
    if d.BaseType() == SQL_BOOLEAN {
      var flag := if ToBool(v) then 0x100_0000 else 0;
      FlattenOne(Int32Bytes(flag));
      TakeOneInt32(flag, rest);
      cell := CBool(ToBool(v));
    } else {
      FlattenOne(Int64Bytes(ToInt64(env, v)));
      Int64RoundTrip(ToInt64(env, v), rest);
      cell := CInt(ToInt64(env, v));
    }
  }

  lemma Sequence2(a: Bytes, b: Bytes, rest: Bytes)
    ensures Flatten([a, b]) + rest == a + (b + rest)
  {
    assert [a, b][1..] == [b];
    FlattenOne(b);
  }

  lemma Sequence3(a: Bytes, b: Bytes, c: Bytes, rest: Bytes)
    ensures Flatten([a, b, c]) + rest == a + (b + (c + rest))
  {
    assert [a, b, c][1..] == [b, c];
    Sequence2(b, c, rest);
  }

  lemma TimeColumn(env: Env, d: ColumnDescriptor, v: Value, b: Bytes, rest: Bytes) returns (cell: Cell)
    requires ValidColumn(d) && v.Valid() && EncodeValue(env, d, v) == Ok(b)
    requires d.BaseType() == SQL_TYPE_DATE || d.BaseType() == SQL_TYPE_TIME || d.BaseType() == SQL_TIMESTAMP
    ensures ReadsBackAs(env, d, v, cell) && DecodeColumn(env, d, b + rest) == Got(cell, rest)
  {
    hide Int32Bytes, TakeUInt32, CivilToUnixDays, MJDToDate, TicksToTime, TimeToTicks;
    var m := v.t;
    var mjd, ticks := DateToMJD(m.localDate), TimeToTicks(m.localClock);
    TicksRoundTrip(m.localClock, 0);
    FlattenOne(Int32Bytes(mjd));
    FlattenOne(Int32Bytes(ticks));
    Sequence2(Int32Bytes(mjd), Int32Bytes(ticks), rest);
    TakeOneInt32(mjd, rest);
    TakeOneInt32(mjd, Int32Bytes(ticks) + rest);
    TakeOneInt32(ticks, rest);
    cell := if d.BaseType() == SQL_TYPE_DATE then CDate(MJDToDate(mjd))
            else if d.BaseType() == SQL_TYPE_TIME then CClock(TruncateToTick(m.localClock))
            else CTimestamp(MJDToDate(mjd), TruncateToTick(m.localClock));
  }

  lemma ZonedTimeBytes(m: Moment, rest: Bytes)
    requires m.Valid() && IsInt32(m.offset)
    ensures DecodeZonedTime(Int32Bytes(TimeToTicks(m.utcClock))
                            + (Int32Bytes(OffsetZone(m.offset)) + (Int32Bytes(GoDiv(m.offset, 60)) + rest)))
         == Got(CZonedTime(TruncateToTick(m.utcClock), OffsetZone(m.offset) % TWO_32, Wrap32(GoDiv(m.offset, 60))), rest)
  {
    hide Int32Bytes, TakeUInt32, TicksToTime, TimeToTicks;
    var zone, minutes := Int32Bytes(OffsetZone(m.offset)), Int32Bytes(GoDiv(m.offset, 60));
    TicksRoundTrip(m.utcClock, 0);
    TakeOneInt32(TimeToTicks(m.utcClock), zone + (minutes + rest));
    TakeOneInt32(OffsetZone(m.offset), minutes + rest);
    TakeOneInt32(GoDiv(m.offset, 60), rest);
  }

  lemma ZonedColumn(env: Env, d: ColumnDescriptor, v: Value, b: Bytes, rest: Bytes) returns (cell: Cell)
    requires ValidColumn(d) && v.Valid() && EncodeValue(env, d, v) == Ok(b)
    requires v.VTime? ==> IsInt32(v.t.offset)
    requires d.BaseType() == SQL_TIMESTAMP_TZ || d.BaseType() == SQL_TIMESTAMP_TZ_EX
             || d.BaseType() == SQL_TIME_TZ || d.BaseType() == SQL_TIME_TZ_EX
    ensures ReadsBackAs(env, d, v, cell) && DecodeColumn(env, d, b + rest) == Got(cell, rest)
  {
    hide Int32Bytes, TakeUInt32, DecodeZonedTime, CivilToUnixDays, MJDToDate, TimeToTicks;
    var m := v.t;
    var mjd := Int32Bytes(DateToMJD(m.utcDate));
    var x, y, z := Int32Bytes(TimeToTicks(m.utcClock)), Int32Bytes(OffsetZone(m.offset)), Int32Bytes(GoDiv(m.offset, 60));
    var clock, zone, minutes := TruncateToTick(m.utcClock), OffsetZone(m.offset) % TWO_32, Wrap32(GoDiv(m.offset, 60));
    ZonedTimeBytes(m, rest);
    Sequence3(x, y, z, rest);
    if d.BaseType() == SQL_TIME_TZ || d.BaseType() == SQL_TIME_TZ_EX {
      cell := CZonedTime(clock, zone, minutes);
    } else {
      assert [mjd, x, y, z][1..] == [x, y, z];
      assert b + rest == mjd + (Flatten([x, y, z]) + rest);
      TakeOneInt32(DateToMJD(m.utcDate), Flatten([x, y, z]) + rest);
      cell := CZonedTimestamp(MJDToDate(DateToMJD(m.utcDate)), clock, zone, minutes);
    }
  }

  lemma BlanksTrimmed(data: Bytes, n: nat)
    ensures TrimSpaces(data + Repeat(0x20, n)) == TrimSpaces(data)
  {
    if n == 0 {
      assert data + Repeat(0x20, 0) == data;
    } else {
      assert (data + Repeat(0x20, n))[..|data| + n - 1] == data + Repeat(0x20, n - 1);
      BlanksTrimmed(data, n - 1);
    }
  }

  lemma TextColumn(env: Env, d: ColumnDescriptor, v: Value, b: Bytes, rest: Bytes) returns (cell: Cell)
    requires Reversible(d) && v.Valid() && EncodeValue(env, d, v) == Ok(b)
    requires d.BaseType() == SQL_TEXT || d.BaseType() == SQL_VARYING
    ensures ReadsBackAs(env, d, v, cell) && DecodeColumn(env, d, b + rest) == Got(cell, rest)
  {
    hide *;
    if d.BaseType() == SQL_TEXT {
      cell := FixedTextColumn(env, d, v, b, rest);
    } else {
      cell := VaryingColumn(env, d, v, b, rest);
    }
  }

  lemma FieldStarts(d: ColumnDescriptor, data: Bytes)
    requires |data| <= d.length
    ensures TextField(d, data)[..d.length] == data + Repeat(0x20, d.length - |data|)
  {
    hide PadLength;
  }

  lemma FixedTextColumn(env: Env, d: ColumnDescriptor, v: Value, b: Bytes, rest: Bytes) returns (cell: Cell)
    requires Reversible(d) && v.Valid() && EncodeValue(env, d, v) == Ok(b) && d.BaseType() == SQL_TEXT
    ensures ReadsBackAs(env, d, v, cell) && DecodeColumn(env, d, b + rest) == Got(cell, rest)
  {
    hide CharsetEncode, CharsetDecode, FittingText, TrimSpaces, TakeBuffer, PaddedBuffer, TextField;
    var data := FieldBytes(env, d, v);
    FieldStarts(d, data);
    var field := TextField(d, data);
    var blanks := Repeat(0x20, d.length - |data|);
    FlattenOne(field);
    BlanksTrimmed(data, d.length - |data|);
    assert (b + rest)[..|field|] == field && (b + rest)[|field|..] == rest;
    cell := if d.length == 0 then CText("") else TextCell(env, d, data + blanks);
  }

  lemma VaryingColumn(env: Env, d: ColumnDescriptor, v: Value, b: Bytes, rest: Bytes) returns (cell: Cell)
    requires Reversible(d) && v.Valid() && EncodeValue(env, d, v) == Ok(b) && d.BaseType() == SQL_VARYING
    ensures ReadsBackAs(env, d, v, cell) && DecodeColumn(env, d, b + rest) == Got(cell, rest)
  {
    hide CharsetEncode, CharsetDecode, FittingText, TrimSpaces, TakeBuffer, PaddedBuffer;
    var data := FieldBytes(env, d, v);
    FlattenOne(PaddedBuffer(data, PaddingByte(d)));
    PaddedRoundTrip(data, PaddingByte(d), rest);
    cell := VaryingCell(env, d, data);
  }

  lemma Int128Column(env: Env, d: ColumnDescriptor, v: Value, b: Bytes, rest: Bytes) returns (cell: Cell)
    requires ValidColumn(d) && v.Valid() && EncodeValue(env, d, v) == Ok(b) && d.BaseType() == SQL_INT128
    ensures ReadsBackAs(env, d, v, cell) && DecodeColumn(env, d, b + rest) == Got(cell, rest)
  {
    hide ScaledBigIntOf, Int128Bytes, SignedOf, ScaledBigInt;
    var n := ScaledBigIntOf(Int128Text(env, v).value, d.scale).value;
    FlattenOne(Int128Bytes(n));
    assert (b + rest)[..16] == b && (b + rest)[16..] == rest;
    cell := CText(ScaledBigInt(SignedOf(Int128Bytes(n)), d.scale));
  }

  lemma OtherColumn(env: Env, d: ColumnDescriptor, v: Value, b: Bytes, rest: Bytes) returns (cell: Cell)
    requires Reversible(d) && v.Valid() && EncodeValue(env, d, v) == Ok(b)
    requires !IsListed(d.BaseType()) && |RawBytes(env, v)| <= MAX_WIRE_BUFFER_LEN
    ensures ReadsBackAs(env, d, v, cell) && DecodeColumn(env, d, b + rest) == Got(cell, rest)
  {
    hide TakeBuffer, BufferBytes;
    var data := RawBytes(env, v);
    FlattenOne(BufferBytes(data));
    BufferRoundTrip(data, rest);
    cell := CText(env.text(data));
  }

  /** The limits of the wire format: zone offsets in 32 bits, buffers under the reader's cap. */
  predicate WithinLimits(env: Env, v: Value) {
    (v.VTime? ==> IsInt32(v.t.offset)) && |RawBytes(env, v)| <= MAX_WIRE_BUFFER_LEN
  }

  lemma ColumnRoundTrip(env: Env, d: ColumnDescriptor, v: Value, b: Bytes, rest: Bytes) returns (cell: Cell)
    requires env.Valid() && Reversible(d) && v.Valid() && WithinLimits(env, v) && EncodeValue(env, d, v) == Ok(b)
    ensures ReadsBackAs(env, d, v, cell) && DecodeColumn(env, d, b + rest) == Got(cell, rest)
  {
    hide ReadsBackAs, DecodeColumn, EncodeValue, RawBytes;
    var t := d.BaseType();
    if t == SQL_SHORT || t == SQL_LONG || t == SQL_INT64 {
      cell := IntegerColumn(env, d, v, b, rest);
    } else if t == SQL_FLOAT || t == SQL_DOUBLE {
      cell := FloatColumn(env, d, v, b, rest);
    } else if t == SQL_BOOLEAN || t == SQL_BLOB {
      cell := SimpleColumn(env, d, v, b, rest);
    } else if t == SQL_TYPE_DATE || t == SQL_TYPE_TIME || t == SQL_TIMESTAMP {
      cell := TimeColumn(env, d, v, b, rest);
    } else if t == SQL_TIMESTAMP_TZ || t == SQL_TIMESTAMP_TZ_EX || t == SQL_TIME_TZ || t == SQL_TIME_TZ_EX {
      cell := ZonedColumn(env, d, v, b, rest);
    } else if t == SQL_TEXT || t == SQL_VARYING {
      cell := TextColumn(env, d, v, b, rest);
    } else if t == SQL_INT128 {
      cell := Int128Column(env, d, v, b, rest);
    } else {
      cell := OtherColumn(env, d, v, b, rest);
    }
  }

  // ---------------------------------------------------------------------------
  // Whole rows
  // ---------------------------------------------------------------------------

  ghost predicate RowReadsBack(env: Env, descs: seq<ColumnDescriptor>, values: seq<Value>, from: nat, cells: seq<Cell>)
    requires ValidColumns(descs) && ValidValues(values)
  {
    from + |cells| == |descs|
    && forall k :: 0 <= k < |cells| ==>
         if IsNil(values, from + k) then cells[k] == Null
         else ReadsBackAs(env, descs[from + k], values[from + k], cells[k])
  }

  ghost predicate RoundTrippable(env: Env, descs: seq<ColumnDescriptor>, values: seq<Value>) {
    && env.Valid() && ValidColumns(descs) && ValidValues(values)
    && (forall i :: 0 <= i < |descs| ==> Reversible(descs[i]))
    && (forall i :: 0 <= i < |values| ==> WithinLimits(env, values[i]))
  }

  lemma {:induction false} ColumnsRoundTrip(env: Env, descs: seq<ColumnDescriptor>, values: seq<Value>, bitset: Bytes,
                                            i: nat, b: Bytes, rest: Bytes) returns (cells: seq<Cell>)
    requires RoundTrippable(env, descs, values) && i <= |descs|
    requires forall k :: 0 <= k < |descs| ==> IsNull(bitset, k) == IsNil(values, k)
    requires EncodeFrom(env, descs, values, i) == Ok(b)
    ensures DecodeFrom(env, descs, bitset, i, b + rest) == Got(cells, rest)
    ensures RowReadsBack(env, descs, values, i, cells)
    decreases |descs| - i
  {
    hide ReadsBackAs, DecodeColumn, EncodeValue, IsNull, WithinLimits, Reversible;
    if i == |descs| {
      cells := [];
      assert b + rest == rest;
    } else if IsNil(values, i) {
      var tail := ColumnsRoundTrip(env, descs, values, bitset, i + 1, b, rest);
      cells := [Null] + tail;
    } else {
      var head := EncodeValue(env, descs[i], values[i]).value;
      var others := EncodeFrom(env, descs, values, i + 1).value;
      assert b + rest == head + (others + rest);
      var cell := ColumnRoundTrip(env, descs[i], values[i], head, others + rest);
      var tail := ColumnsRoundTrip(env, descs, values, bitset, i + 1, others, rest);
      cells := [cell] + tail;
    }
  }

  /**
   * Whatever the encoder accepts, the row decoder reads back value by value,
   * NULLs included, and it consumes exactly the bytes that were written.
   */
  lemma RowRoundTrip(env: Env, descs: seq<ColumnDescriptor>, values: seq<Value>, b: Bytes, rest: Bytes)
    returns (cells: seq<Cell>)
    requires RoundTrippable(env, descs, values)
    requires EncodeRow(env, descs, values) == Ok(b)
    ensures DecodeRow(env, descs, b + rest) == Got(cells, rest)
    ensures RowReadsBack(env, descs, values, 0, cells)
  {
    hide PaddedSize, EncodeFrom, DecodeFrom, IsNull, RowReadsBack, Bitmap;
    var marks := NullMarks(|descs|, values);
    var bitmap := Bitmap(marks, |marks|);
    var data := EncodeFrom(env, descs, values, 0).value;
    assert b + rest == bitmap + (data + rest);
    assert (b + rest)[..|bitmap|] == bitmap && (b + rest)[|bitmap|..] == data + rest;
    var bitset := bitmap[..(|descs| + 7) / 8];
    forall k | 0 <= k < |descs| ensures IsNull(bitset, k) == IsNil(values, k) {
      BitmapRoundTrip(marks, k);
    }
    cells := ColumnsRoundTrip(env, descs, values, bitset, 0, data, rest);
  }

  // ---------------------------------------------------------------------------
  // The values themselves
  // ---------------------------------------------------------------------------

  /** In UTF-8 a blank is the byte 0x20, and only a blank ends in that byte. */
  ghost predicate BlanksAreSpaces(env: Env) {
    && (forall s :: env.utf8(s + " ") == env.utf8(s) + [0x20])
    && (forall s :: env.utf8(s) != [] && env.utf8(s)[|env.utf8(s)| - 1] == 0x20 ==> s != "" && s[|s| - 1] == ' ')
  }

  function TrimBlanks(s: string): string {
    if s != "" && s[|s| - 1] == ' ' then TrimBlanks(s[..|s| - 1]) else s
  }

  lemma {:induction false} TrimmedText(env: Env, s: string)
    requires BlanksAreSpaces(env)
    ensures TrimSpaces(env.utf8(s)) == env.utf8(TrimBlanks(s))
  {
    if s != "" && s[|s| - 1] == ' ' {
      var t := s[..|s| - 1];
      TrimmedText(env, t);
      assert s == t + " ";
      assert env.utf8(s) == env.utf8(t) + [0x20];
      assert env.utf8(s)[..|env.utf8(s)| - 1] == env.utf8(t);
    }
  }

  /** The stored text loses its trailing blanks, which the column's own blanks cannot be told from. */
  lemma TextComesBack(env: Env, d: ColumnDescriptor, v: Value, cell: Cell)
    requires ValidColumn(d) && v.VText? && env.LosslessText() && BlanksAreSpaces(env) && ReadsBackAs(env, d, v, cell)
    requires d.BaseType() == SQL_TEXT && d.subType != CS_OCTETS && d.subType != CS_NONE && IsIdentityCharset(d.CharsetId())
    ensures cell == CText(TrimBlanks(v.s))
  {
    var data := FieldBytes(env, d, v);
    var kept := TrimBlanks(v.s);
    assert env.text(env.utf8(v.s)) == v.s && env.text(env.utf8(kept)) == kept;
    if v.s != "" {
      assert data == env.utf8(v.s);
      TrimmedText(env, v.s);
    }
  }

  predicate HasDayNumber(c: Date) {
    IsInt32(CivilToUnixDays(c.year, c.month, c.day) + UNIX_TO_MJD_OFFSET)
  }

  predicate OnTick(t: Clock) { t.nanos % 100_000 == 0 }

  /** Dates come back exactly when their day number fits 32 bits, clocks exactly when they fall on a tick. */
  lemma MomentsComeBack(env: Env, d: ColumnDescriptor, v: Value, cell: Cell)
    requires ValidColumn(d) && v.VTime? && v.Valid() && ReadsBackAs(env, d, v, cell)
    ensures d.BaseType() == SQL_TYPE_DATE ==> (cell == CDate(v.t.localDate) <==> HasDayNumber(v.t.localDate))
    ensures d.BaseType() == SQL_TYPE_TIME ==> (cell == CClock(v.t.localClock) <==> OnTick(v.t.localClock))
    ensures d.BaseType() == SQL_TIMESTAMP
            ==> (cell == CTimestamp(v.t.localDate, v.t.localClock)
                 <==> HasDayNumber(v.t.localDate) && OnTick(v.t.localClock))
    ensures d.BaseType() == SQL_TIME_TZ || d.BaseType() == SQL_TIME_TZ_EX
            ==> cell.CZonedTime? && (cell.utcTime == v.t.utcClock <==> OnTick(v.t.utcClock))
    ensures d.BaseType() == SQL_TIMESTAMP_TZ || d.BaseType() == SQL_TIMESTAMP_TZ_EX
            ==> cell.CZonedTimestamp?
                && (cell.utcDay == v.t.utcDate && cell.utcOfDay == v.t.utcClock
                    <==> HasDayNumber(v.t.utcDate) && OnTick(v.t.utcClock))
  {
    hide MJDToDate, DateToMJD, CivilToUnixDays, OffsetZone, GoDiv, FittingText, VaryingCell, NumericInt64, Int128Text;
    MJDRoundTrip(v.t.localDate, 0);
    MJDRoundTrip(v.t.utcDate, 0);
    TickKept(v.t.localClock);
    TickKept(v.t.utcClock);
  }

  lemma TickKept(t: Clock)
    ensures TruncateToTick(t) == t <==> OnTick(t)
  {
  }

  /**
   * Read as values: integers come back as themselves, scaled numbers as text
   * that names the same number, INT128 within its range, truth values, doubles
   * and blob ids as themselves, byte strings unchanged, dates within 32-bit day numbers, clocks up to a
   * tick, and text in a lossless character set unchanged where its length
   * travels with it and without trailing blanks where it does not.
   */
  lemma ValuesComeBack(env: Env, d: ColumnDescriptor, v: Value, cell: Cell)
    requires ValidColumn(d) && v.Valid() && env.LosslessText() && BlanksAreSpaces(env) && ReadsBackAs(env, d, v, cell)
    ensures v.VInt? && d.scale == 0 && (d.BaseType() == SQL_SHORT || d.BaseType() == SQL_LONG || d.BaseType() == SQL_INT64)
            ==> cell == CInt(v.i)
    ensures d.scale < 0 && (d.BaseType() == SQL_SHORT || d.BaseType() == SQL_LONG || d.BaseType() == SQL_INT64)
            ==> cell.CText? && NumericInt64(env, VText(cell.s), d.scale) == NumericInt64(env, v, d.scale)
    ensures d.BaseType() == SQL_INT128 && d.scale <= 0 && Int128Text(env, v).Ok?
            ==> cell.CText?
                && var n := ScaledBigIntOf(Int128Text(env, v).value, d.scale);
                   n.Ok? && (ScaledBigIntOf(cell.s, d.scale) == n <==> -TWO_127 <= n.value < TWO_127)
    ensures v.VText? && d.BaseType() == SQL_VARYING && d.subType != CS_OCTETS && d.subType != CS_NONE
            ==> cell == CText(v.s)
    ensures v.VText? && d.BaseType() == SQL_TEXT && d.subType != CS_OCTETS && d.subType != CS_NONE
            && IsIdentityCharset(d.CharsetId())
            ==> cell == CText(TrimBlanks(v.s))
    ensures v.VBool? && d.BaseType() == SQL_BOOLEAN ==> cell == CBool(v.b)
    ensures v.VFloat? && d.BaseType() == SQL_DOUBLE ==> cell == CFloat64(v.bits)
    ensures v.VInt? && d.BaseType() == SQL_BLOB ==> cell == CInt(v.i)
    ensures v.VInt? && d.BaseType() == SQL_BOOLEAN ==> cell == CBool(v.i != 0)
    ensures v.VText? && d.BaseType() == SQL_BOOLEAN ==> cell == CBool(v.s != "" && v.s != "0" && v.s != "false")
    ensures v.VInt? && d.BaseType() == SQL_DOUBLE ==> cell == CFloat64(env.floatOfInt(v.i))
    ensures v.VBytes? && d.BaseType() == SQL_VARYING && (d.subType == CS_OCTETS || d.subType == CS_NONE)
            ==> cell == CBytes(v.bytes)
    ensures v.VTime? && d.BaseType() == SQL_TYPE_DATE ==> (cell == CDate(v.t.localDate) <==> HasDayNumber(v.t.localDate))
    ensures v.VTime? && d.BaseType() == SQL_TYPE_TIME ==> (cell == CClock(v.t.localClock) <==> OnTick(v.t.localClock))
    ensures v.VTime? && d.BaseType() == SQL_TIMESTAMP
            ==> (cell == CTimestamp(v.t.localDate, v.t.localClock)
                 <==> HasDayNumber(v.t.localDate) && OnTick(v.t.localClock))
  {
    hide ScaledBigIntOf, ScaledInt64, ScaledBigInt, Int128Bytes, SignedOf, CharsetEncode, CharsetDecode;
    hide HasDayNumber, OnTick, BlanksAreSpaces, TrimBlanks, MJDToDate, DateToMJD, TruncateToTick;
    if d.BaseType() == SQL_SHORT || d.BaseType() == SQL_LONG || d.BaseType() == SQL_INT64 {
      var n := NumericInt64(env, v, d.scale).value;
      if d.scale <= 0 {
        PrintedReadsBack(n, d.scale);
      }
    } else if d.BaseType() == SQL_INT128 && d.scale <= 0 && Int128Text(env, v).Ok? {
      var n := ScaledBigIntOf(Int128Text(env, v).value, d.scale).value;
      Int128RoundTrip(n);
      PrintedReadsBack(SignedOf(Int128Bytes(n)), d.scale);
    } else if d.BaseType() == SQL_VARYING && v.VText? && d.subType != CS_OCTETS && d.subType != CS_NONE {
      CharsetRoundTrip(env, d.CharsetId(), v.s);
    } else if v.VTime? {
      MomentsComeBack(env, d, v, cell);
    } else if v.VText? && d.BaseType() == SQL_TEXT && d.subType != CS_OCTETS && d.subType != CS_NONE
              && IsIdentityCharset(d.CharsetId()) {
      TextComesBack(env, d, v, cell);
    }
  }
}
