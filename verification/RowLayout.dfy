/** What an encoded parameter looks like on the wire, byte by byte. */
module RowLayout {
  import opened Common
  import opened Powers
  import opened BigInt
  import opened DecimalText
  import opened Numeric
  import opened ScaledText
  import opened DateTime
  import opened Descriptors
  import opened Int128
  import opened NullBitmap
  import opened Xdr
  import opened RowFormat
  import opened RowRoundTrip
  import opened RowValues

  /** Numbers are big-endian in four or eight bytes, truth values a byte of 0 or 1 and three zeros. */
  lemma NumbersTravel(env: Env, d: ColumnDescriptor, v: Value, b: Bytes)
    requires v.Valid() && EncodeValue(env, d, v) == Ok(b)
    ensures d.BaseType() == SQL_SHORT || d.BaseType() == SQL_LONG ==>
      exists n :: NamesNumber(env, v, d.scale, Ok(n)) && b == BigEndian(n, 4)
    ensures d.BaseType() == SQL_INT64 ==> exists n :: NamesNumber(env, v, d.scale, Ok(n)) && b == BigEndian(n, 8)
    ensures d.BaseType() == SQL_BOOLEAN ==>
      b == [if v == VBool(true) || (v.VInt? && v.i != 0) || (v.VText? && v.s != "" && v.s != "0" && v.s != "false")
            then 1 else 0, 0, 0, 0]
    ensures d.BaseType() == SQL_BLOB && v.VInt? ==> b == BigEndian(v.i, 8)
    ensures d.BaseType() == SQL_DOUBLE && v.VFloat? ==> b == BigEndian(v.bits, 8)
    ensures d.BaseType() == SQL_FLOAT && v.VFloat? ==> b == BigEndian(env.float32(v.bits), 4)
    ensures d.BaseType() == SQL_INT128 ==>
      && AsDecimal(env, v).Some?
      && var n := ScaledBigIntOf(AsDecimal(env, v).value, d.scale);
         n.Ok? && (-TWO_128 <= n.value ==> b == BigEndian(n.value, 16))
  {
    hide Int32Bytes, Int64Bytes, Int128Bytes, BigEndian, ScaledInt64Of, ScaledBigIntOf, Pow, FittingText;
    var t := d.BaseType();
    FlattenOne(b);
    if t == SQL_SHORT || t == SQL_LONG || t == SQL_INT64 {
      var n := NumericInt64(env, v, d.scale).value;
      NumberNamed(env, v, d.scale);
      NumberLayout(n);
      FlattenOne(Int32Bytes(n));
      FlattenOne(Int64Bytes(n));
    } else if t == SQL_BOOLEAN {
      FlattenOne(Int32Bytes(if ToBool(v) then 0x100_0000 else 0));
      FlagBytes();
    } else if t == SQL_BLOB {
      FlattenOne(Int64Bytes(ToInt64(env, v)));
      NumberLayout(ToInt64(env, v));
    } else if (t == SQL_DOUBLE || t == SQL_FLOAT) && v.VFloat? {
      FlattenOne(Int64Bytes(v.bits));
      FlattenOne(Int32Bytes(env.float32(v.bits)));
      NumberLayout(v.bits);
      NumberLayout(env.float32(v.bits));
    } else if t == SQL_INT128 {
      var n := ScaledBigIntOf(Int128Text(env, v).value, d.scale).value;
      FlattenOne(Int128Bytes(n));
      if -TWO_128 <= n {
        Int128Layout(n);
      }
    }
  }

  lemma FlagBytes()
    ensures Int32Bytes(0x100_0000) == [1, 0, 0, 0] && Int32Bytes(0) == [0, 0, 0, 0]
  {
    assert FillBytes(1, 1) == [1] && FillBytes(0, 0) == [];
    assert FillBytes(0x100, 2) == [1, 0];
    assert FillBytes(0x1_0000, 3) == [1, 0, 0];
    assert FillBytes(0x100_0000, 4) == [1, 0, 0, 0];
    assert FillBytes(0, 2) == [0, 0];
    assert FillBytes(0, 4) == [0, 0, 0, 0];
  }

  // ---------------------------------------------------------------------------
  // Dates, times and zones
  // ---------------------------------------------------------------------------

  /** Days are counted from 17 November 1858. */
  predicate IsDay(c: Date, n: int) { AddDays(Date(1858, 11, 17), n) == c }

  /** Ten thousand ticks make a second. */
  function Ticks(t: Clock): int { ((t.hour * 60 + t.minute) * 60 + t.second) * 10_000 + t.nanos / 100_000 }

  /** Offsets are given in seconds and travel in minutes, cut towards zero. */
  function Minutes(offset: int): int { if 0 <= offset then offset / 60 else -(-offset / 60) }

  lemma DayBytes(c: Date, n: int)
    requires c.Valid() && IsDay(c, n)
    ensures Int32Bytes(DateToMJD(c)) == BigEndian(n, 4)
  {
    hide CivilToUnixDays, BigEndian, AddDays, FillBytes, Wrap32;
    EpochNumber();
    AddDaysNumber(MJD_EPOCH, n);
    assert CivilToUnixDays(c.year, c.month, c.day) + UNIX_TO_MJD_OFFSET == n;
    WrapSame(n);
    NumberLayout(n);
  }

  lemma WrapSame(n: int)
    ensures Wrap32(n) % TWO_32 == n % TWO_32
  {
    var q := (n + TWO_31) / TWO_32;
    assert Wrap32(n) == n - q * TWO_32;
    ModShift(n, -q, TWO_32);
  }

  lemma TickBytes(t: Clock)
    requires t.Valid()
    ensures Int32Bytes(TimeToTicks(t)) == BigEndian(Ticks(t), 4)
  {
    hide Int32Bytes, BigEndian;
    NumberLayout(TimeToTicks(t));
  }

  /** A date is its day number, a time its ticks, a timestamp both. */
  lemma MomentsTravel(env: Env, d: ColumnDescriptor, v: Value, b: Bytes)
    requires v.Valid() && EncodeValue(env, d, v) == Ok(b) && v.VTime?
    ensures d.BaseType() == SQL_TYPE_DATE ==> forall n | IsDay(v.t.localDate, n) :: b == BigEndian(n, 4)
    ensures d.BaseType() == SQL_TYPE_TIME ==> b == BigEndian(Ticks(v.t.localClock), 4)
    ensures d.BaseType() == SQL_TIMESTAMP ==>
      forall n | IsDay(v.t.localDate, n) :: b == BigEndian(n, 4) + BigEndian(Ticks(v.t.localClock), 4)
  {
    hide Int32Bytes, Int64Bytes, BigEndian, DateToMJD, TimeToTicks, Ticks, IsDay, FittingText, Flatten, GoDiv;
    hide PaddedBuffer, TextField, NumericInt64, Int128Text, FloatValue, ToText;
    var day, clock := Int32Bytes(DateToMJD(v.t.localDate)), Int32Bytes(TimeToTicks(v.t.localClock));
    TickBytes(v.t.localClock);
    FlattenOne(day);
    FlattenOne(clock);
    FlattenTwo(day, clock);
    forall n | IsDay(v.t.localDate, n) ensures day == BigEndian(n, 4) {
      DayBytes(v.t.localDate, n);
    }
  }

  lemma FlattenTwo(x: Bytes, y: Bytes)
    ensures Flatten([x, y]) == x + y
  {
    Sequence2(x, y, []);
  }

  lemma FlattenThree(x: Bytes, y: Bytes, z: Bytes)
    ensures Flatten([x, y, z]) == x + y + z
  {
    Sequence3(x, y, z, []);
    assert x + (y + (z + [])) == x + y + z;
  }

  lemma FlattenFour(x: Bytes, y: Bytes, z: Bytes, w: Bytes)
    ensures Flatten([x, y, z, w]) == x + (y + z + w)
  {
    assert [x, y, z, w][1..] == [y, z, w];
    FlattenThree(y, z, w);
  }

  /** Zoned values travel in UTC, followed by a zone id and the offset in minutes. */
  lemma ZonesTravel(env: Env, d: ColumnDescriptor, v: Value, b: Bytes)
    requires v.Valid() && EncodeValue(env, d, v) == Ok(b) && v.VTime?
    ensures var m := Minutes(v.t.offset);
            var zoned := BigEndian(Ticks(v.t.utcClock), 4) + BigEndian(m + 1439, 4) + BigEndian(m, 4);
            && (d.BaseType() == SQL_TIME_TZ || d.BaseType() == SQL_TIME_TZ_EX ==> b == zoned)
            && (d.BaseType() == SQL_TIMESTAMP_TZ || d.BaseType() == SQL_TIMESTAMP_TZ_EX ==>
                  forall n | IsDay(v.t.utcDate, n) :: b == BigEndian(n, 4) + zoned)
  {
    hide Int32Bytes, Int64Bytes, BigEndian, DateToMJD, TimeToTicks, Ticks, IsDay, FittingText, Flatten, GoDiv, Minutes;
    hide PaddedBuffer, TextField, NumericInt64, Int128Text, FloatValue, ToText;
    var m := Minutes(v.t.offset);
    var day, clock := Int32Bytes(DateToMJD(v.t.utcDate)), Int32Bytes(TimeToTicks(v.t.utcClock));
    MinutesOf(v.t.offset);
    NumberLayout(m);
    NumberLayout(m + 1439);
    TickBytes(v.t.utcClock);
    FlattenThree(clock, Int32Bytes(m + 1439), Int32Bytes(m));
    FlattenFour(day, clock, Int32Bytes(m + 1439), Int32Bytes(m));
    forall n | IsDay(v.t.utcDate, n) ensures day == BigEndian(n, 4) {
      DayBytes(v.t.utcDate, n);
    }
  }

  lemma MinutesOf(offset: int)
    ensures GoDiv(offset, 60) == Minutes(offset)
  {
  }

  // ---------------------------------------------------------------------------
  // Text
  // ---------------------------------------------------------------------------

  /**
   * The bytes of a parameter in a text column: as given, or its text in the character set the low byte of the
   * subtype names. NONE, OCTETS, UNICODE_FSS and UTF8 take it as UTF-8.
   */
  function TextIn(env: Env, d: ColumnDescriptor, v: Value): Option<Bytes> {
    var id := d.subType % 256;
    if v.VBytes? then Some(v.bytes)
    else if AsText(env, v) == "" then Some([])
    else if id == 0 || id == 1 || id == 3 || id == 4 then Some(env.utf8(AsText(env, v)))
    else env.encode(id, AsText(env, v))
  }

  /** How many bytes complete `n` to a multiple of four. */
  function Missing(n: nat): nat { if n % 4 == 0 then 0 else 4 - n % 4 }

  /** Text is filled up with blanks to its column, varying text goes behind its length; both end on four bytes. */
  lemma TextsTravel(env: Env, d: ColumnDescriptor, v: Value, b: Bytes)
    requires v.Valid() && EncodeValue(env, d, v) == Ok(b)
    requires d.BaseType() == SQL_TEXT || d.BaseType() == SQL_VARYING
    ensures TextIn(env, d, v).Some? && |TextIn(env, d, v).value| <= d.length
    ensures var data := TextIn(env, d, v).value;
            b == if d.BaseType() == SQL_TEXT then
                   data + Repeat(32, d.length - |data|) + Repeat(0, Missing(d.length))
                 else
                   BigEndian(|data|, 4) + data + Repeat(if d.subType == CS_OCTETS then 0 else 32, Missing(|data|))
  {
    hide Int32Bytes, BigEndian, CharsetEncode, NumericInt64, Int128Text, FloatValue, Flatten, PadLength, Missing, TextIn;
    var data := TextFound(env, d, v);
    NumberLayout(|data|);
    PadMissing(d.length);
    PadMissing(|data|);
    FlattenOne(TextField(d, data));
    FlattenOne(PaddedBuffer(data, PaddingByte(d)));
  }

  lemma TextFound(env: Env, d: ColumnDescriptor, v: Value) returns (data: Bytes)
    requires FittingText(env, d, v).Ok?
    ensures FittingText(env, d, v) == Ok(data) && TextIn(env, d, v) == Some(data) && |data| <= d.length
  {
    data := FittingText(env, d, v).value;
  }

  lemma PadMissing(n: nat)
    ensures PadLength(n) == Missing(n)
  {
  }

  /** The bitmap in front of a row has bit `i mod 8` of byte `i / 8` set exactly for a null in column `i`. */
  lemma NullsTravel(nulls: seq<bool>, i: nat)
    requires i < |nulls|
    ensures i / 8 < |Bitmap(nulls, |nulls|)| && 0 < Pow(2, i % 8)
    ensures Bitmap(nulls, |nulls|)[i / 8] / Pow(2, i % 8) % 2 == if nulls[i] then 1 else 0
    ensures |Bitmap(nulls, |nulls|)| == 4 * ((|nulls| + 31) / 32)
  {
    hide Bitmap, Pow2;
    BitmapMarks(nulls, |nulls|, i);
    PowerOf(i % 8);
  }

  lemma PowerOf(j: nat)
    requires j < 8
    ensures Pow2(j) == Pow(2, j)
  {
    assert Pow(2, 0) == 1 && Pow(2, 1) == 2 && Pow(2, 2) == 4 && Pow(2, 3) == 8;
    assert Pow(2, 4) == 16 && Pow(2, 5) == 32 && Pow(2, 6) == 64 && Pow(2, 7) == 128;
  }
}
