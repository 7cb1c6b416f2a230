/** Every conversion a parameter can go through, seen from its value to the cell that is read back. */
module RowValues {
  import opened Common
  import opened Powers
  import opened DecimalText
  import opened Digits
  import opened Numeric
  import opened ScaledText
  import opened DateTime
  import opened Descriptors
  import opened Int128
  import opened Xdr
  import opened RowFormat
  import opened RowRoundTrip

  predicate IsIntegerType(t: int) { t == SQL_SHORT || t == SQL_LONG || t == SQL_INT64 }

  /** The number a parameter names in a column of this scale: integers and truth values exactly, others as text. */
  predicate NamesNumber(env: Env, v: Value, scale: int, n: Result<int, DecimalError>) {
    match v
    case VInt(i) => n == if scale < 0 then CheckInt64(Ok(i * Pow(10, -scale))) else Ok(i)
    case VBool(b) =>
      n == if !b then Ok(0) else if scale < 0 then CheckInt64(Ok(Pow(10, -scale))) else Ok(1)
    case VText(s) => n == ScaledInt64Of(s, scale)
    case VFloat(bits) => n == ScaledInt64Of(env.fixed(bits), scale)
    case VBytes(b) => n == ScaledInt64Of(env.text(b), scale)
    case _ => false
  }

  /** Integer columns hold the number; scaled ones as text that names it. */
  lemma IntegersComeBack(env: Env, d: ColumnDescriptor, v: Value, cell: Cell)
    requires ValidColumn(d) && v.Valid() && IsIntegerType(d.BaseType()) && ReadsBackAs(env, d, v, cell)
    ensures 0 <= d.scale ==> cell.CInt? && NamesNumber(env, v, d.scale, Ok(cell.i))
    ensures d.scale < 0 ==> cell.CText? && NamesNumber(env, v, d.scale, ScaledInt64Of(cell.s, d.scale))
  {
    hide ScaledInt64Of, ScaledInt64, ScaledBigIntOf, ScaledBigInt, Pow;
    var n := NumericInt64(env, v, d.scale).value;
    if d.scale < 0 {
      PrintedReadsBack(n, d.scale);
    }
  }

  /** Truth values, blob ids and floating point. */
  lemma SimpleComeBack(env: Env, d: ColumnDescriptor, v: Value, cell: Cell)
    requires ValidColumn(d) && v.Valid() && ReadsBackAs(env, d, v, cell)
    ensures d.BaseType() == SQL_BOOLEAN ==>
      cell == CBool((v.VBool? && v.b) || (v.VInt? && v.i != 0)
                    || (v.VText? && v.s != "" && v.s != "0" && v.s != "false"))
    ensures d.BaseType() == SQL_BLOB ==>
      cell == CInt(if v.VInt? then v.i else if v.VFloat? then env.intOfFloat(v.bits) else if v == VBool(true) then 1 else 0)
    ensures d.BaseType() == SQL_DOUBLE || d.BaseType() == SQL_FLOAT ==>
      && (v.VFloat? || v.VInt? || (v.VText? && env.parseFloat(v.s).Some?))
      && var f := if v.VFloat? then v.bits else if v.VInt? then env.floatOfInt(v.i) else env.parseFloat(v.s).value;
         cell == if d.BaseType() == SQL_DOUBLE then CFloat64(f) else CFloat32(env.float32(f))
  {
    hide FittingText, VaryingCell, NumericInt64, Int128Text;
  }

  /** The text a parameter is in a text column. */
  function AsText(env: Env, v: Value): string {
    match v
    case VText(s) => s
    case VBytes(b) => env.text(b)
    case VInt(i) => FormatInt(i)
    case VFloat(bits) => env.general(bits)
    case VBool(b) => if b then "true" else "false"
    case VTime(t) => env.timeText(t)
    case Nil => "<nil>"
  }

  /** How bytes read in the character set the low byte of the subtype names. */
  function TextOf(env: Env, d: ColumnDescriptor, data: Bytes): string {
    var id := d.subType % 256;
    if data == [] then ""
    else if id == 0 || id == 1 || id == 3 || id == 4 then env.text(data)
    else env.decode(id, data)
  }

  /** Bytes in OCTETS and NONE columns come back as bytes; all else in a character set as its text. */
  lemma TextsComeBack(env: Env, d: ColumnDescriptor, v: Value, cell: Cell)
    requires ValidColumn(d) && v.Valid() && env.LosslessText() && ReadsBackAs(env, d, v, cell)
    ensures d.BaseType() == SQL_VARYING && (d.subType == CS_OCTETS || d.subType == CS_NONE) && v.VBytes?
            ==> cell == CBytes(v.bytes)
    ensures d.BaseType() == SQL_VARYING && (d.subType == CS_OCTETS || d.subType == CS_NONE) && !v.VBytes?
            ==> cell.CBytes? && TextOf(env, d, cell.bytes) == AsText(env, v)
    ensures d.BaseType() == SQL_VARYING && d.subType != CS_OCTETS && d.subType != CS_NONE && !v.VBytes?
            ==> cell == CText(AsText(env, v))
    ensures d.BaseType() == SQL_VARYING && d.subType != CS_OCTETS && d.subType != CS_NONE && v.VBytes?
            ==> cell == CText(TextOf(env, d, v.bytes))
    ensures d.BaseType() == SQL_TEXT && d.subType == CS_OCTETS && v.VBytes? && 0 < d.length
            ==> |v.bytes| <= d.length && cell == CBytes(v.bytes + Repeat(0x20, d.length - |v.bytes|))
    ensures d.BaseType() == SQL_TEXT && d.subType == CS_NONE && v.VBytes? && 0 < d.length
            ==> cell == CBytes(TrimSpaces(v.bytes))
    ensures !IsListed(d.BaseType()) ==> cell == CText(if v.VBytes? then env.text(v.bytes) else AsText(env, v))
  {
    hide CharsetEncode, CharsetDecode, TextOf, TrimSpaces, NumericInt64, Int128Text, FloatValue;
    if d.BaseType() == SQL_VARYING {
      Reads(env, d, FieldBytes(env, d, v));
    }
    if d.BaseType() == SQL_VARYING && !v.VBytes? {
      CharsetRoundTrip(env, d.CharsetId(), ToText(env, v));
    }
    assert env.text(env.utf8(ToText(env, v))) == ToText(env, v);
  }

  lemma Reads(env: Env, d: ColumnDescriptor, data: Bytes)
    ensures CharsetDecode(env, d.CharsetId(), data) == TextOf(env, d, data)
  {
  }

  /** Zoned values carry their offset in whole minutes, and a zone id that counts minutes from -1439. */
  lemma ZonesComeBack(env: Env, d: ColumnDescriptor, v: Value, cell: Cell)
    requires ValidColumn(d) && v.Valid() && v.VTime? && IsInt32(v.t.offset) && ReadsBackAs(env, d, v, cell)
    ensures var offset := v.t.offset;
            var minutes := if 0 <= offset then offset / 60 else -(-offset / 60);
            && (d.BaseType() == SQL_TIME_TZ || d.BaseType() == SQL_TIME_TZ_EX ==>
                  cell.CZonedTime? && cell.timeOffset == minutes
                  && (-1439 <= minutes ==> cell.timeZone == minutes + 1439))
            && (d.BaseType() == SQL_TIMESTAMP_TZ || d.BaseType() == SQL_TIMESTAMP_TZ_EX ==>
                  cell.CZonedTimestamp? && cell.zoneOffset == minutes
                  && (-1439 <= minutes ==> cell.zone == minutes + 1439))
  {
    hide MJDToDate, DateToMJD, TruncateToTick, FittingText, VaryingCell, NumericInt64, Int128Text;
    var offset := v.t.offset;
    assert GoDiv(offset, 60) == if 0 <= offset then offset / 60 else -(-offset / 60);
  }

  /** The decimal text of a parameter bound to INT128. */
  function AsDecimal(env: Env, v: Value): Option<string> {
    match v
    case VInt(i) => Some(FormatInt(i))
    case VFloat(bits) => Some(env.fixed(bits))
    case VBool(b) => Some(if b then "1" else "0")
    case VText(s) => Some(s)
    case VBytes(b) => Some(env.text(b))
    case _ => None
  }

  /** INT128 columns come back as text that names the same number, as long as it is in range. */
  lemma Int128ComesBack(env: Env, d: ColumnDescriptor, v: Value, cell: Cell)
    requires ValidColumn(d) && v.Valid() && d.BaseType() == SQL_INT128 && d.scale <= 0 && ReadsBackAs(env, d, v, cell)
    ensures AsDecimal(env, v).Some? && cell.CText?
            && var n := ScaledBigIntOf(AsDecimal(env, v).value, d.scale);
               n.Ok? && (-TWO_127 <= n.value < TWO_127 ==> ScaledBigIntOf(cell.s, d.scale) == n)
    ensures v.VInt? && d.scale == 0 ==> ScaledBigIntOf(cell.s, 0) == Ok(v.i)
  {
    hide ScaledBigIntOf, ScaledBigInt, Int128Bytes, SignedOf, FormatInt, CheckInt64;
    var n := ScaledBigIntOf(Int128Text(env, v).value, d.scale).value;
    Int128RoundTrip(n);
    PrintedReadsBack(SignedOf(Int128Bytes(n)), d.scale);
    if v.VInt? && d.scale == 0 {
      PlainInteger(v.i);
    }
  }

  lemma PlainInteger(i: int)
    requires IsInt64(i)
    ensures ScaledBigIntOf(FormatInt(i), 0) == Ok(i)
  {
    hide ScaledBigIntOf, FormatInt;
    IntegralAgreesWithText(i, 0);
    assert Pow(10, 0) == 1;
  }

  // ---------------------------------------------------------------------------
  // Which values are accepted
  // ---------------------------------------------------------------------------

  /** Whether a text fits a column of the given length in bytes. */
  predicate TextFits(env: Env, d: ColumnDescriptor, v: Value) {
    if v.VBytes? then |v.bytes| <= d.length
    else
      var b := CharsetEncode(env, d.CharsetId(), AsText(env, v));
      b.Some? && |b.value| <= d.length
  }

  /** A parameter is encoded exactly when it can be expressed in its column's type, and refused otherwise. */
  lemma AcceptedExactly(env: Env, d: ColumnDescriptor, v: Value)
    requires ValidColumn(d) && v.Valid()
    ensures var t, ok := d.BaseType(), EncodeValue(env, d, v).Ok?;
            && (t == SQL_SHORT ==> (ok <==> exists n :: -0x8000 <= n <= 0x7FFF && NamesNumber(env, v, d.scale, Ok(n))))
            && (t == SQL_LONG ==> (ok <==> exists n :: -TWO_31 <= n < TWO_31 && NamesNumber(env, v, d.scale, Ok(n))))
            && (t == SQL_INT64 ==> (ok <==> exists n :: NamesNumber(env, v, d.scale, Ok(n))))
            && (t == SQL_FLOAT || t == SQL_DOUBLE ==>
                  (ok <==> v.VFloat? || v.VInt? || (v.VText? && env.parseFloat(v.s).Some?)))
            && (t == SQL_TYPE_DATE || t == SQL_TYPE_TIME || t == SQL_TIMESTAMP ==> (ok <==> v.VTime?))
            && (t == SQL_TIMESTAMP_TZ || t == SQL_TIMESTAMP_TZ_EX || t == SQL_TIME_TZ || t == SQL_TIME_TZ_EX ==>
                  (ok <==> v.VTime?))
            && (t == SQL_TEXT || t == SQL_VARYING ==> (ok <==> TextFits(env, d, v)))
            && (t == SQL_INT128 ==>
                  (ok <==> AsDecimal(env, v).Some? && ScaledBigIntOf(AsDecimal(env, v).value, d.scale).Ok?))
            && (t == SQL_BOOLEAN || t == SQL_BLOB || t == SQL_DEC16 || t == SQL_DEC34 ==> ok)
            && (!IsListed(t) ==> ok)
  {
    hide ScaledInt64Of, ScaledBigIntOf, CharsetEncode, Int32Bytes, Int64Bytes, Int128Bytes, Pow, PaddedBuffer, TextField;
    hide Flatten, DateToMJD, TimeToTicks, FormatInt;
    if IsIntegerType(d.BaseType()) {
      NumberNamed(env, v, d.scale);
    }
  }

  /** A parameter names at most one number, the one the encoder takes. */
  lemma NumberNamed(env: Env, v: Value, scale: int)
    ensures forall n :: NamesNumber(env, v, scale, Ok(n)) <==> NumericInt64(env, v, scale) == Ok(n)
  {
    hide ScaledInt64Of, Pow;
  }

  /** DECFLOAT parameters and those of unknown types travel as their UTF-8 text behind a length. */
  lemma TravelsAsText(env: Env, d: ColumnDescriptor, v: Value)
    requires ValidColumn(d) && v.Valid()
    requires d.BaseType() == SQL_DEC16 || d.BaseType() == SQL_DEC34 || (!IsListed(d.BaseType()) && !v.VBytes?)
    requires |env.utf8(AsText(env, v))| <= MAX_WIRE_BUFFER_LEN
    ensures EncodeValue(env, d, v).Ok?
            && forall rest :: TakeBuffer(EncodeValue(env, d, v).value + rest) == Got(env.utf8(AsText(env, v)), rest)
  {
    hide TakeBuffer, PaddedBuffer;
    var data := env.utf8(AsText(env, v));
    FlattenOne(BufferBytes(data));
    forall rest ensures TakeBuffer(BufferBytes(data) + rest) == Got(data, rest) {
      BufferRoundTrip(data, rest);
    }
  }
}
