/** Encoding parameters into the growing buffer. */
module ParamEncoder {
  import opened Common
  import opened DecimalText
  import opened Numeric
  import opened ScaledText
  import opened DateTime
  import opened Descriptors
  import opened Int128
  import opened NullBitmap
  import opened Xdr
  import opened Writers
  import opened RowFormat
  import opened RowRoundTrip

  type Outcome = Option<EncodeError>

  // ---------------------------------------------------------------------------
  // Conversions
  // ---------------------------------------------------------------------------

  method ConvertText(s: string, scale: int) returns (r: Result<int, EncodeError>)
    requires IsInt32(scale)
    ensures r == NumberResult(ScaledInt64Of(s, scale))
  {
    hide ScaledBigIntOf;
    var v := DecimalStringToScaledBigInt(s, scale);
    if v.Ok? && !IsInt64(v.value) {
      return Err(BadNumber(Overflow));
    }
    r := NumberResult(v);
  }

  method ConvertIntegral(i: int, scale: int) returns (r: Result<int, EncodeError>)
    requires IsInt64(i) && IsInt32(scale)
    ensures r == NumberResult(IntegralScaled(i, scale))
  {
    var v := ScaleIntegralInt64(i, scale);
    r := NumberResult(v);
  }

  method ConvertNumeric(env: Env, v: Value, scale: int) returns (r: Result<int, EncodeError>)
    requires v.Valid() && IsInt32(scale)
    ensures r == NumericInt64(env, v, scale)
  {
    hide ScaledInt64Of, IntegralScaled;
    match v
    case VInt(i) => r := ConvertIntegral(i, scale);
    case VFloat(bits) => r := ConvertText(env.fixed(bits), scale);
    case VBool(b) =>
      if b {
        r := ConvertIntegral(1, scale);
      } else {
        r := Ok(0);
      }
    case VText(s) => r := ConvertText(s, scale);
    case VBytes(b) => r := ConvertText(env.text(b), scale);
    case _ => r := Err(Unsupported);
  }

  method ConvertInt128(env: Env, v: Value, scale: int) returns (r: Result<Bytes, EncodeError>)
    requires IsInt32(scale)
    ensures r == match Int128Text(env, v)
                 case Err(e) => Err(e)
                 case Ok(s) => (match ScaledBigIntOf(s, scale) case Ok(n) => Ok(Int128Bytes(n)) case Err(e) => Err(BadNumber(e)))
  {
    hide ScaledBigIntOf, Int128Bytes;
    match Int128Text(env, v)
    case Err(e) => r := Err(e);
    case Ok(s) =>
      var data := StringToInt128Err(s, scale);
      r := match data case Ok(b) => Ok(b) case Err(e) => Err(BadNumber(e));
  }

  /** The text of a parameter, blank-filled to the field's length, written in place. */
  method CopyTextParam(env: Env, dst: array<byte>, at: nat, d: ColumnDescriptor, v: Value) returns (error: Outcome)
    requires ValidColumn(d) && at + d.length <= dst.Length
    modifies dst
    ensures dst[..at] == old(dst[..at])
    ensures error == match FittingText(env, d, v) case Ok(_) => None case Err(e) => Some(e)
    ensures error.None? ==>
              dst[..at + d.length] == old(dst[..at]) + FieldBytes(env, d, v) + Repeat(0x20, d.length - |FieldBytes(env, d, v)|)
  {
    hide CharsetEncode, ToText;
    var text := TextBytes(env, d, v);
    if text.Err? {
      return Some(text.error);
    }
    var data := text.value;
    if |data| > d.length {
      return Some(TooLongForColumn);
    }
    CopyInto(dst, at, data);
    CopyInto(dst, at + |data|, Repeat(0x20, d.length - |data|));
    assert dst[..at] == dst[..at + d.length][..at] == old(dst[..at]);
    error := None;
  }

  // ---------------------------------------------------------------------------
  // The growing buffer
  // ---------------------------------------------------------------------------

  method WriteTextField(env: Env, w: Writer, d: ColumnDescriptor, v: Value) returns (error: Outcome)
    requires w.Valid() && ValidColumn(d)
    modifies w, w.buf
    ensures w.Valid() && (w.buf == old(w.buf) || fresh(w.buf)) && old(w.Written()) <= w.Written()
    ensures error == match FittingText(env, d, v) case Ok(_) => None case Err(e) => Some(e)
    ensures error.None? ==> w.Written() == old(w.Written()) + TextField(d, FieldBytes(env, d, v))
  {
    hide FittingText, PadLength;
    var pad := PadLength(d.length);
    w.Grow(d.length + pad);
    ghost var before := w.Written();
    error := CopyTextParam(env, w.buf, w.n, d, v);
    if error.Some? {
      return;
    }
    w.n := w.n + d.length;
    CopyInto(w.buf, w.n, Repeat(0, pad));
    w.n := w.n + pad;
    ghost var data := FieldBytes(env, d, v);
    Associate(before, data, Repeat(0x20, d.length - |data|), Repeat(0, pad));
  }

  method WriteVaryingParam(env: Env, w: Writer, d: ColumnDescriptor, v: Value) returns (error: Outcome)
    requires w.Valid() && ValidColumn(d)
    modifies w, w.buf
    ensures w.Valid() && (w.buf == old(w.buf) || fresh(w.buf)) && old(w.Written()) <= w.Written()
    ensures error == match FittingText(env, d, v) case Ok(_) => None case Err(e) => Some(e)
    ensures error.None? ==> w.Written() == old(w.Written()) + PaddedBuffer(FieldBytes(env, d, v), PaddingByte(d))
  {
    hide PaddedBuffer, CharsetEncode, ToText;
    var text := TextBytes(env, d, v);
    if text.Err? {
      return Some(text.error);
    }
    if |text.value| > d.length {
      return Some(TooLongForColumn);
    }
    w.WritePadded(text.value, PaddingByte(d));
    error := None;
  }

  /** The outcome of encoding one value, and what the buffer then holds. */
  ghost predicate Encoded(env: Env, d: ColumnDescriptor, v: Value, before: Bytes, after: Bytes, error: Outcome)
    requires v.Valid()
  {
    before <= after
    && match EncodeValue(env, d, v)
       case Err(e) => error == Some(e)
       case Ok(b) => error == None && after == before + b
  }

  method EncodeValueHeap(env: Env, w: Writer, d: ColumnDescriptor, v: Value) returns (error: Outcome)
    requires w.Valid() && env.Valid() && ValidColumn(d) && v.Valid()
    modifies w, w.buf
    ensures w.Valid() && (w.buf == old(w.buf) || fresh(w.buf))
    ensures Encoded(env, d, v, old(w.Written()), w.Written(), error)
  {
    var t := d.BaseType();
    if t == SQL_SHORT || t == SQL_LONG || t == SQL_INT64 {
      error := EncodeIntegerHeap(env, w, d, v);
    } else if t == SQL_TYPE_DATE || t == SQL_TYPE_TIME || t == SQL_TIMESTAMP {
      error := EncodeTimeHeap(env, w, d, v);
    } else if t == SQL_TIMESTAMP_TZ || t == SQL_TIMESTAMP_TZ_EX || t == SQL_TIME_TZ || t == SQL_TIME_TZ_EX {
      error := EncodeZonedHeap(env, w, d, v);
    } else {
      error := EncodeOtherHeap(env, w, d, v);
    }
  }

  method EncodeIntegerHeap(env: Env, w: Writer, d: ColumnDescriptor, v: Value) returns (error: Outcome)
    requires w.Valid() && ValidColumn(d) && v.Valid()
    requires d.BaseType() == SQL_SHORT || d.BaseType() == SQL_LONG || d.BaseType() == SQL_INT64
    modifies w, w.buf
    ensures w.Valid() && (w.buf == old(w.buf) || fresh(w.buf))
    ensures Encoded(env, d, v, old(w.Written()), w.Written(), error)
  {
    hide NumericInt64, Int32Bytes, Int64Bytes, Flatten;
    var t := d.BaseType();
    var n := ConvertNumeric(env, v, d.scale);
    if n.Err? {
      return Some(n.error);
    }
    NumericInRange(env, v, d.scale);
    if t == SQL_SHORT && (n.value < -0x8000 || n.value > 0x7FFF) {
      return Some(BadNumber(Overflow));
    }
    if t == SQL_LONG && (n.value < -TWO_31 || n.value > TWO_31 - 1) {
      return Some(BadNumber(Overflow));
    }
    if t == SQL_INT64 {
      w.WriteInt64(n.value);
      FlattenOne(Int64Bytes(n.value));
    } else {
      w.WriteInt32(n.value);
      FlattenOne(Int32Bytes(n.value));
    }
    error := None;
  }

  method EncodeTimeHeap(env: Env, w: Writer, d: ColumnDescriptor, v: Value) returns (error: Outcome)
    requires w.Valid() && ValidColumn(d) && v.Valid()
    requires d.BaseType() == SQL_TYPE_DATE || d.BaseType() == SQL_TYPE_TIME || d.BaseType() == SQL_TIMESTAMP
    modifies w, w.buf
    ensures w.Valid() && (w.buf == old(w.buf) || fresh(w.buf))
    ensures Encoded(env, d, v, old(w.Written()), w.Written(), error)
  {
    hide Int32Bytes, Flatten, CivilToUnixDays, TimeToTicks;
    if !v.VTime? {
      return Some(Unsupported);
    }
    var t, m := d.BaseType(), v.t;
    TicksRoundTrip(m.localClock, 0);
    ghost var mjd, ticks := Int32Bytes(DateToMJD(m.localDate)), Int32Bytes(TimeToTicks(m.localClock));
    FlattenOne(mjd);
    FlattenOne(ticks);
    Sequence2(mjd, ticks, []);
    ghost var before := w.Written();
    if t == SQL_TYPE_DATE || t == SQL_TIMESTAMP {
      w.WriteInt32(DateToMJD(m.localDate));
    }
    if t == SQL_TYPE_TIME || t == SQL_TIMESTAMP {
      w.WriteUInt32(TimeToTicks(m.localClock));
    }
    error := None;
    assert t == SQL_TIMESTAMP ==> w.Written() == before + (mjd + (ticks + []));
  }

  method EncodeZonedHeap(env: Env, w: Writer, d: ColumnDescriptor, v: Value) returns (error: Outcome)
    requires w.Valid() && ValidColumn(d) && v.Valid()
    requires d.BaseType() == SQL_TIMESTAMP_TZ || d.BaseType() == SQL_TIMESTAMP_TZ_EX
             || d.BaseType() == SQL_TIME_TZ || d.BaseType() == SQL_TIME_TZ_EX
    modifies w, w.buf
    ensures w.Valid() && (w.buf == old(w.buf) || fresh(w.buf))
    ensures Encoded(env, d, v, old(w.Written()), w.Written(), error)
  {
    hide Int32Bytes, Flatten, CivilToUnixDays, TimeToTicks, OffsetZone, ZoneParts;
    if !v.VTime? {
      return Some(Unsupported);
    }
    var t, m := d.BaseType(), v.t;
    ZonePieces(m);
    if t == SQL_TIMESTAMP_TZ || t == SQL_TIMESTAMP_TZ_EX {
      w.WriteRaw(Int32Bytes(DateToMJD(m.utcDate)));
    }
    WriteZoneParts(w, m);
    error := None;
  }

  function ZoneParts(m: Moment): Bytes
    requires m.Valid()
  {
    Int32Bytes(TimeToTicks(m.utcClock)) + Int32Bytes(OffsetZone(m.offset)) + Int32Bytes(GoDiv(m.offset, 60))
  }

  method WriteZoneParts(w: Writer, m: Moment)
    requires w.Valid() && m.Valid()
    modifies w, w.buf
    ensures w.Valid() && (w.buf == old(w.buf) || fresh(w.buf)) && w.Written() == old(w.Written()) + ZoneParts(m)
  {
    hide Int32Bytes, TimeToTicks, OffsetZone;
    ghost var x, y, z := Int32Bytes(TimeToTicks(m.utcClock)), Int32Bytes(OffsetZone(m.offset)), Int32Bytes(GoDiv(m.offset, 60));
    ghost var before := w.Written();
    w.WriteRaw(Int32Bytes(TimeToTicks(m.utcClock)));
    w.WriteRaw(Int32Bytes(OffsetZone(m.offset)));
    w.WriteRaw(Int32Bytes(GoDiv(m.offset, 60)));
    Associate(before, x, y, z);
  }

  lemma ZonePieces(m: Moment)
    requires m.Valid()
    ensures var mjd := Int32Bytes(DateToMJD(m.utcDate));
            var x, y, z := Int32Bytes(TimeToTicks(m.utcClock)), Int32Bytes(OffsetZone(m.offset)), Int32Bytes(GoDiv(m.offset, 60));
            Flatten([x, y, z]) == ZoneParts(m) && Flatten([mjd, x, y, z]) == mjd + ZoneParts(m)
  {
    hide Int32Bytes, Flatten, CivilToUnixDays, TimeToTicks, OffsetZone;
    var mjd := Int32Bytes(DateToMJD(m.utcDate));
    var x, y, z := Int32Bytes(TimeToTicks(m.utcClock)), Int32Bytes(OffsetZone(m.offset)), Int32Bytes(GoDiv(m.offset, 60));
    Sequence3(x, y, z, []);
    Sequence4(mjd, x, y, z);
    assert x + (y + (z + [])) == x + y + z;
  }

  lemma Sequence4(a: Bytes, b: Bytes, c: Bytes, d: Bytes)
    ensures Flatten([a, b, c, d]) == a + (b + (c + (d + [])))
  {
    assert [a, b, c, d][1..] == [b, c, d];
    Sequence3(b, c, d, []);
  }

  method EncodeOtherHeap(env: Env, w: Writer, d: ColumnDescriptor, v: Value) returns (error: Outcome)
    requires w.Valid() && env.Valid() && ValidColumn(d) && v.Valid() && IsOther(d)
    modifies w, w.buf
    ensures w.Valid() && (w.buf == old(w.buf) || fresh(w.buf))
    ensures Encoded(env, d, v, old(w.Written()), w.Written(), error)
  {
    hide Int128Text, ScaledBigIntOf, Int128Bytes, Int32Bytes, Int64Bytes, FittingText, TextField, PaddedBuffer, ToText, Flatten;
    var t := d.BaseType();
    ghost var before := w.Written();
    if t == SQL_FLOAT {
      var f := FloatValue(env, v);
      if f.Err? {
        return Some(f.error);
      }
      w.WriteUInt32(env.float32(f.value));
    } else if t == SQL_DOUBLE {
      var f := FloatValue(env, v);
      if f.Err? {
        return Some(f.error);
      }
      w.WriteRaw(Int64Bytes(f.value));
    } else if t == SQL_BOOLEAN {
      w.WriteUInt32(if ToBool(v) then 0x100_0000 else 0);
    } else if t == SQL_TEXT {
      error := WriteTextField(env, w, d, v);
      if error.Some? {
        return;
      }
    } else if t == SQL_VARYING {
      error := WriteVaryingParam(env, w, d, v);
      if error.Some? {
        return;
      }
    } else if t == SQL_BLOB {
      w.WriteInt64(ToInt64(env, v));
    } else if t == SQL_INT128 {
      var data := ConvertInt128(env, v, d.scale);
      if data.Err? {
        return Some(data.error);
      }
      w.WriteRaw(data.value);
    } else if t == SQL_DEC16 || t == SQL_DEC34 {
      w.WriteBuffer(env.utf8(ToText(env, v)));
    } else if v.VBytes? {
      w.WriteBuffer(v.bytes);
    } else {
      w.WriteBuffer(env.utf8(ToText(env, v)));
    }
    error := None;
    FlattenOne(Pieces(env, d, v).value[0]);
  }

  predicate IsOther(d: ColumnDescriptor) {
    var t := d.BaseType();
    t != SQL_SHORT && t != SQL_LONG && t != SQL_INT64 && t != SQL_TYPE_DATE && t != SQL_TYPE_TIME && t != SQL_TIMESTAMP
    && t != SQL_TIMESTAMP_TZ && t != SQL_TIMESTAMP_TZ_EX && t != SQL_TIME_TZ && t != SQL_TIME_TZ_EX
  }

  function Prepend(data: Bytes, r: Result<Bytes, EncodeError>): Result<Bytes, EncodeError> {
    match r
    case Ok(rest) => Ok(data + rest)
    case Err(e) => Err(e)
  }

  /** `data` is what the columns before `i` contribute to the row. */
  ghost predicate Contributed(env: Env, descs: seq<ColumnDescriptor>, values: seq<Value>, i: nat, data: Bytes)
    requires i <= |descs| && ValidValues(values)
  {
    EncodeFrom(env, descs, values, 0) == Prepend(data, EncodeFrom(env, descs, values, i))
  }

  lemma ContributedStart(env: Env, descs: seq<ColumnDescriptor>, values: seq<Value>)
    requires ValidValues(values)
    ensures Contributed(env, descs, values, 0, [])
  {
    hide EncodeFrom;
    var all := EncodeFrom(env, descs, values, 0);
    if all.Ok? {
      assert [] + all.value == all.value;
    }
  }

  lemma ContributedNull(env: Env, descs: seq<ColumnDescriptor>, values: seq<Value>, i: nat, data: Bytes)
    requires i < |descs| && ValidValues(values) && Contributed(env, descs, values, i, data) && IsNil(values, i)
    ensures Contributed(env, descs, values, i + 1, data)
  {
  }

  lemma ContributedValue(env: Env, descs: seq<ColumnDescriptor>, values: seq<Value>, i: nat, data: Bytes)
    requires i < |descs| && ValidValues(values) && Contributed(env, descs, values, i, data) && !IsNil(values, i)
    ensures match EncodeValue(env, descs[i], values[i])
            case Ok(b) => Contributed(env, descs, values, i + 1, data + b)
            case Err(e) => EncodeRow(env, descs, values) == Err(e)
  {
    hide EncodeValue, Bitmap;
    var b, next := EncodeValue(env, descs[i], values[i]), EncodeFrom(env, descs, values, i + 1);
    if b.Ok? && next.Ok? {
      assert data + (b.value + next.value) == data + b.value + next.value;
    }
  }

  lemma ContributedAll(env: Env, descs: seq<ColumnDescriptor>, values: seq<Value>, data: Bytes)
    requires ValidValues(values) && Contributed(env, descs, values, |descs|, data)
    ensures EncodeRow(env, descs, values)
         == Ok(Bitmap(NullMarks(|descs|, values), |descs|) + data)
  {
    hide Bitmap;
    assert data + [] == data;
  }

  /** One pass over the columns: null bits set in place, values appended. */
  method EncodeNamedParamsErr(env: Env, w: Writer, descs: seq<ColumnDescriptor>, values: seq<Value>) returns (error: Outcome)
    requires w.Valid() && env.Valid() && ValidColumns(descs) && ValidValues(values)
    modifies w, w.buf
    ensures w.Valid() && (w.buf == old(w.buf) || fresh(w.buf)) && old(w.Written()) <= w.Written()
    ensures match EncodeRow(env, descs, values)
            case Ok(b) => error == None && w.Written() == old(w.Written()) + b
            case Err(e) => error == Some(e)
  {
    hide EncodeValue, EncodeFrom, PaddedSize, Bitmap, Contributed, EncodeRow;
    ghost var before := w.Written();
    ghost var marks := NullMarks(|descs|, values);
    var bitsetStart := ReserveNullBitset(w, |descs|, marks);
    ghost var data := [];
    ContributedStart(env, descs, values);
    assert before + Bitmap(marks, 0) + data == before + Bitmap(marks, 0);
    var i := 0;
    while i < |descs|
      invariant i <= |descs| && w.Valid() && (w.buf == old(w.buf) || fresh(w.buf))
      invariant w.Written() == before + Bitmap(marks, i) + data
      invariant Contributed(env, descs, values, i, data)
    {
      if i >= |values| || values[i].Nil? {
        ContributedNull(env, descs, values, i, data);
        MarkColumn(w, bitsetStart, i, before, marks, data);
      } else {
        ContributedValue(env, descs, values, i, data);
        ghost var s := w.Written();
        error := EncodeValueHeap(env, w, descs[i], values[i]);
        if error.Some? {
          Prefixes(before, Bitmap(marks, i) + data, s, w.Written());
          return;
        }
        ghost var b := EncodeValue(env, descs[i], values[i]).value;
        Associate(before, Bitmap(marks, i), data, b);
        assert before + Bitmap(marks, i) + (data + b) == before + (Bitmap(marks, i) + data + b);
        UnmarkedBit(marks, i);
        data := data + b;
      }
      i := i + 1;
    }
    ContributedAll(env, descs, values, data);
    assert before + Bitmap(marks, i) + data == before + (Bitmap(marks, i) + data);
    error := None;
  }

  lemma Prefixes(before: Bytes, more: Bytes, s: Bytes, s': Bytes)
    requires s == before + more && s <= s'
    ensures before <= s'
  {
  }

  lemma UnmarkedBit(marks: seq<bool>, i: nat)
    requires i < |marks| && !marks[i]
    ensures Bitmap(marks, i + 1) == Bitmap(marks, i)
  {
  }

  method ReserveNullBitset(w: Writer, colCount: nat, ghost marks: seq<bool>) returns (start: nat)
    requires w.Valid() && |marks| == colCount
    modifies w, w.buf
    ensures w.Valid() && (w.buf == old(w.buf) || fresh(w.buf))
    ensures start == |old(w.Written())| && w.Written() == old(w.Written()) + Bitmap(marks, 0)
  {
    var padded := PaddedSize(colCount);
    w.Grow(padded);
    start := w.n;
    CopyInto(w.buf, w.n, Repeat(0, padded));
    w.n := w.n + padded;
  }

  /** Sets the bit of column `i` inside the bitmap that lies between `before` and `data`. */
  method MarkColumn(w: Writer, bitsetStart: nat, i: nat, ghost before: Bytes, ghost marks: seq<bool>, ghost data: Bytes)
    requires w.Valid() && i < |marks| && marks[i] && bitsetStart == |before|
    requires w.Written() == before + Bitmap(marks, i) + data
    modifies w.buf
    ensures w.Valid() && w.Written() == before + Bitmap(marks, i + 1) + data
  {
    hide SetBit, Bitmap, PaddedSize;
    BitmapCovers(marks, i);
    ghost var s := w.Written();
    var at := bitsetStart + i / 8;
    assert s[at] == w.buf[at] == Bitmap(marks, i)[i / 8];
    w.buf[at] := SetBit(w.buf[at], i % 8);
    assert w.Written() == s[at := SetBit(s[at], i % 8)];
    MarkWithin(before, Bitmap(marks, i), data, i);
    MarkedBit(marks, i);
  }

  lemma MarkedBit(marks: seq<bool>, i: nat)
    requires i < |marks| && marks[i] && i / 8 < PaddedSize(|marks|)
    ensures Bitmap(marks, i + 1) == Mark(Bitmap(marks, i), i)
  {
  }

  lemma BitmapCovers(marks: seq<bool>, i: nat)
    requires i < |marks|
    ensures i / 8 < PaddedSize(|marks|)
  {
  }

  lemma MarkWithin(before: Bytes, bitmap: Bytes, data: Bytes, i: nat)
    requires i / 8 < |bitmap|
    ensures (before + bitmap + data)[|before| + i / 8 := SetBit(bitmap[i / 8], i % 8)] == before + Mark(bitmap, i) + data
  {
  }
}
