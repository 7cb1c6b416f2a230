/** The wire form of one parameter and of one row: what the encoders write and the decoder reads. */
module RowFormat {
  import opened Common
  import opened Powers
  import opened BigInt
  import opened Digits
  import opened DecimalText
  import opened Numeric
  import opened ScaledText
  import opened DateTime
  import opened Descriptors
  import opened Int128
  import opened DecFloatWire
  import opened NullBitmap
  import opened Xdr

  datatype EncodeError = BadNumber(cause: DecimalError) | Unsupported | TooLongForColumn | NotInCharset

  /** Descriptors for which the original neither panics nor overflows its own arithmetic. */
  predicate ValidColumn(d: ColumnDescriptor) {
    IsInt32(d.sqlType) && IsInt32(d.subType) && -TWO_31 < d.scale < TWO_31 && 0 <= d.length < TWO_31
  }

  // ---------------------------------------------------------------------------
  // Conversions of parameters
  // ---------------------------------------------------------------------------

  function NumberResult(r: Result<int, DecimalError>): Result<int, EncodeError> {
    match r
    case Ok(v) => Ok(v)
    case Err(e) => Err(BadNumber(e))
  }

  function IntegralScaled(v: int, scale: int): Result<int, DecimalError> {
    if 0 <= scale then Ok(v) else CheckInt64(Ok(v * Pow(10, -scale)))
  }

  function NumericInt64(env: Env, v: Value, scale: int): Result<int, EncodeError> {
    match v
    case VInt(i) => NumberResult(IntegralScaled(i, scale))
    case VFloat(bits) => NumberResult(ScaledInt64Of(env.fixed(bits), scale))
    case VBool(b) => if b then NumberResult(IntegralScaled(1, scale)) else Ok(0)
    case VText(s) => NumberResult(ScaledInt64Of(s, scale))
    case VBytes(b) => NumberResult(ScaledInt64Of(env.text(b), scale))
    case _ => Err(Unsupported)
  }

  function CheckRange(r: Result<int, EncodeError>, low: int, high: int): Result<int, EncodeError> {
    if r.Ok? && !(low <= r.value <= high) then Err(BadNumber(Overflow)) else r
  }

  function FloatValue(env: Env, v: Value): Result<nat, EncodeError> {
    match v
    case VFloat(bits) => Ok(bits)
    case VInt(i) => Ok(env.floatOfInt(i))
    case VText(s) => (match env.parseFloat(s) case Some(bits) => Ok(bits) case None => Err(Unsupported))
    case _ => Err(Unsupported)
  }

  function ToBool(v: Value): bool {
    match v
    case VBool(b) => b
    case VInt(i) => i != 0
    case VText(s) => s != "" && s != "0" && s != "false"
    case _ => false
  }

  function TimeValue(v: Value): Result<Moment, EncodeError> {
    if v.VTime? then Ok(v.t) else Err(Unsupported)
  }

  /** Floats are cut to an integer; text and bytes count as 0. */
  function ToInt64(env: Env, v: Value): int {
    match v
    case VInt(i) => i
    case VFloat(bits) => env.intOfFloat(bits)
    case VBool(b) => if b then 1 else 0
    case _ => 0
  }

  function ToText(env: Env, v: Value): string {
    match v
    case VText(s) => s
    case VBytes(b) => env.text(b)
    case VInt(i) => FormatInt(i)
    case VFloat(bits) => env.general(bits)
    case VBool(b) => if b then "true" else "false"
    case VTime(t) => env.timeText(t)
    case Nil => "<nil>"
  }

  function Int128Text(env: Env, v: Value): Result<string, EncodeError> {
    match v
    case VInt(i) => Ok(FormatInt(i))
    case VFloat(bits) => Ok(env.fixed(bits))
    case VBool(b) => Ok(if b then "1" else "0")
    case VText(s) => Ok(s)
    case VBytes(b) => Ok(env.text(b))
    case _ => Err(Unsupported)
  }

  /** The bytes of a text parameter in the column's character set; byte slices pass unchanged. */
  function TextBytes(env: Env, d: ColumnDescriptor, v: Value): Result<Bytes, EncodeError> {
    if v.VBytes? then Ok(v.bytes)
    else
      match CharsetEncode(env, d.CharsetId(), ToText(env, v))
      case Some(b) => Ok(b)
      case None => Err(NotInCharset)
  }

  function FittingText(env: Env, d: ColumnDescriptor, v: Value): (r: Result<Bytes, EncodeError>)
    ensures r.Ok? ==> |r.value| <= d.length
  {
    var data :- TextBytes(env, d, v);
    if d.length < |data| then Err(TooLongForColumn) else Ok(data)
  }

  /** A fixed-length field: the text, blanks up to its length, and zero padding. */
  function TextField(d: ColumnDescriptor, data: Bytes): (b: Bytes)
    requires |data| <= d.length
    ensures |b| == d.length + PadLength(d.length)
  {
    data + Repeat(0x20, d.length - |data|) + Repeat(0, PadLength(d.length))
  }

  function PaddingByte(d: ColumnDescriptor): byte {
    if d.subType == CS_OCTETS then 0x00 else 0x20
  }

  /** Offset zone ids count minutes from -1439. */
  function OffsetZone(offset: int): int { GoDiv(offset, 60) + 1439 }

  // ---------------------------------------------------------------------------
  // Encoding
  // ---------------------------------------------------------------------------

  /** The separate writes that encode one non-null value. */
  function Pieces(env: Env, d: ColumnDescriptor, v: Value): Result<seq<Bytes>, EncodeError>
    requires v.Valid()
  {
    var t := d.BaseType();
    if t == SQL_SHORT then
      var n :- CheckRange(NumericInt64(env, v, d.scale), -0x8000, 0x7FFF);
      Ok([Int32Bytes(n)])
    else if t == SQL_LONG then
      var n :- CheckRange(NumericInt64(env, v, d.scale), -TWO_31, TWO_31 - 1);
      Ok([Int32Bytes(n)])
    else if t == SQL_INT64 then
      var n :- NumericInt64(env, v, d.scale);
      Ok([Int64Bytes(n)])
    else if t == SQL_FLOAT then
      var f :- FloatValue(env, v);
      Ok([Int32Bytes(env.float32(f))])
    else if t == SQL_DOUBLE then
      var f :- FloatValue(env, v);
      Ok([Int64Bytes(f)])
    else if t == SQL_BOOLEAN then
      Ok([Int32Bytes(if ToBool(v) then 0x100_0000 else 0)])
    else if t == SQL_TYPE_DATE then
      var m :- TimeValue(v);
      Ok([Int32Bytes(DateToMJD(m.localDate))])
    else if t == SQL_TYPE_TIME then
      var m :- TimeValue(v);
      Ok([Int32Bytes(TimeToTicks(m.localClock))])
    else if t == SQL_TIMESTAMP then
      var m :- TimeValue(v);
      Ok([Int32Bytes(DateToMJD(m.localDate)), Int32Bytes(TimeToTicks(m.localClock))])
    else if t == SQL_TEXT then
      var data :- FittingText(env, d, v);
      Ok([TextField(d, data)])
    else if t == SQL_VARYING then
      var data :- FittingText(env, d, v);
      Ok([PaddedBuffer(data, PaddingByte(d))])
    else if t == SQL_BLOB then
      Ok([Int64Bytes(ToInt64(env, v))])
    else if t == SQL_DEC16 || t == SQL_DEC34 then
      Ok([BufferBytes(env.utf8(ToText(env, v)))])
    else if t == SQL_INT128 then
      var s :- Int128Text(env, v);
      var n :- NumberResult(ScaledBigIntOf(s, d.scale));
      Ok([Int128Bytes(n)])
    else if t == SQL_TIMESTAMP_TZ || t == SQL_TIMESTAMP_TZ_EX then
      var m :- TimeValue(v);
      Ok([Int32Bytes(DateToMJD(m.utcDate)), Int32Bytes(TimeToTicks(m.utcClock)),
          Int32Bytes(OffsetZone(m.offset)), Int32Bytes(GoDiv(m.offset, 60))])
    else if t == SQL_TIME_TZ || t == SQL_TIME_TZ_EX then
      var m :- TimeValue(v);
      Ok([Int32Bytes(TimeToTicks(m.utcClock)), Int32Bytes(OffsetZone(m.offset)), Int32Bytes(GoDiv(m.offset, 60))])
    else
      Ok([BufferBytes(if v.VBytes? then v.bytes else env.utf8(ToText(env, v)))])
  }

  function EncodeValue(env: Env, d: ColumnDescriptor, v: Value): Result<Bytes, EncodeError>
    requires v.Valid()
  {
    var pieces :- Pieces(env, d, v);
    Ok(Flatten(pieces))
  }

  predicate IsNil(values: seq<Value>, i: nat) {
    |values| <= i || values[i].Nil?
  }

  function NullMarks(n: nat, values: seq<Value>): (marks: seq<bool>)
    ensures |marks| == n && forall i :: 0 <= i < n ==> marks[i] == IsNil(values, i)
  {
    seq(n, i requires 0 <= i => IsNil(values, i))
  }

  ghost predicate ValidValues(values: seq<Value>) {
    forall i :: 0 <= i < |values| ==> values[i].Valid()
  }

  ghost predicate ValidColumns(descs: seq<ColumnDescriptor>) {
    forall i :: 0 <= i < |descs| ==> ValidColumn(descs[i])
  }

  /** The values of the columns from `i` on, in order; nulls take no space. */
  ghost function EncodeFrom(env: Env, descs: seq<ColumnDescriptor>, values: seq<Value>, i: nat): Result<Bytes, EncodeError>
    requires i <= |descs| && ValidValues(values)
    decreases |descs| - i
  {
    if i == |descs| then Ok([])
    else if IsNil(values, i) then EncodeFrom(env, descs, values, i + 1)
    else
      var b :- EncodeValue(env, descs[i], values[i]);
      var rest :- EncodeFrom(env, descs, values, i + 1);
      Ok(b + rest)
  }

  ghost function EncodeRow(env: Env, descs: seq<ColumnDescriptor>, values: seq<Value>): Result<Bytes, EncodeError>
    requires ValidValues(values)
  {
    var data :- EncodeFrom(env, descs, values, 0);
    var marks := NullMarks(|descs|, values);
    Ok(Bitmap(marks, |marks|) + data)
  }

  // ---------------------------------------------------------------------------
  // Decoding
  // ---------------------------------------------------------------------------

  function TrimSpaces(b: Bytes): (r: Bytes)
    ensures |r| <= |b|
  {
    if b != [] && b[|b| - 1] == 0x20 then TrimSpaces(b[..|b| - 1]) else b
  }

  function IntegerCell(v: int, scale: int): Cell
    requires IsInt64(v) && -TWO_31 < scale < TWO_31
  {
    if scale < 0 then CText(ScaledInt64(v, scale)) else CInt(v)
  }

  function TextCell(env: Env, d: ColumnDescriptor, raw: Bytes): Cell {
    if d.subType == CS_OCTETS then CBytes(raw)
    else if d.subType == CS_NONE then CBytes(TrimSpaces(raw))
    else CText(CharsetDecode(env, d.CharsetId(), TrimSpaces(raw)))
  }

  function VaryingCell(env: Env, d: ColumnDescriptor, data: Bytes): Cell {
    if d.subType == CS_OCTETS || d.subType == CS_NONE then CBytes(data)
    else CText(CharsetDecode(env, d.CharsetId(), data))
  }

  function Int16Of(v: int): (r: int)
    ensures -0x8000 <= r < 0x8000 && (r == v <==> -0x8000 <= v < 0x8000)
  {
    (v + 0x8000) % 0x10000 - 0x8000
  }

  function MapTaken<A, B>(r: Taken<A>, f: A --> B): Taken<B>
    requires r.Got? ==> f.requires(r.value)
  {
    match r
    case Got(v, rest) => Got(f(v), rest)
    case Short => Short
    case TooLong => TooLong
  }

  function DecodeColumn(env: Env, d: ColumnDescriptor, p: Bytes): Taken<Cell>
    requires ValidColumn(d)
  {
    var t := d.BaseType();
    if t == SQL_SHORT then
      MapTaken(TakeInt32(p), v requires IsInt32(v) => IntegerCell(Int16Of(v), d.scale))
    else if t == SQL_LONG then
      MapTaken(TakeInt32(p), v requires IsInt32(v) => IntegerCell(v, d.scale))
    else if t == SQL_INT64 then
      MapTaken(TakeInt64(p), v requires IsInt64(v) => IntegerCell(v, d.scale))
    else if t == SQL_FLOAT then
      MapTaken(TakeUInt32(p), v requires 0 <= v => CFloat32(v))
    else if t == SQL_DOUBLE then
      MapTaken(TakeBytes(p, 8), b => CFloat64(BytesToBig(b)))
    else if t == SQL_BOOLEAN then
      MapTaken(TakeInt32(p), v => CBool(v != 0))
    else if t == SQL_TYPE_DATE then
      MapTaken(TakeInt32(p), v => CDate(MJDToDate(v)))
    else if t == SQL_TYPE_TIME then
      MapTaken(TakeUInt32(p), v requires 0 <= v => CClock(TicksToTime(v)))
    else if t == SQL_TIMESTAMP then
      match TakeInt32(p)
      case Short => Short
      case TooLong => TooLong
      case Got(mjd, rest) =>
        MapTaken(TakeUInt32(rest), v requires 0 <= v => CTimestamp(MJDToDate(mjd), TicksToTime(v)))
    else if t == SQL_TIME_TZ || t == SQL_TIME_TZ_EX then DecodeZonedTime(p)
    else if t == SQL_TIMESTAMP_TZ || t == SQL_TIMESTAMP_TZ_EX then DecodeZonedTimestamp(p)
    else if t == SQL_TEXT then
      if d.length == 0 then Got(CText(""), p)
      else
        MapTaken(TakeBytes(p, d.length + PadLength(d.length)),
                 b requires |b| == d.length + PadLength(d.length) => TextCell(env, d, b[..d.length]))
    else if t == SQL_VARYING then
      MapTaken(TakeBuffer(p), data => VaryingCell(env, d, data))
    else if t == SQL_BLOB then
      MapTaken(TakeInt64(p), v => CInt(v))
    else if t == SQL_DEC16 then
      MapTaken(TakeBytes(p, 8), b => CText(Decimal64Text(b)))
    else if t == SQL_DEC34 then
      MapTaken(TakeBytes(p, 16), b => CText(Decimal128Text(b)))
    else if t == SQL_INT128 then
      MapTaken(TakeBytes(p, 16), b requires |b| == 16 => CText(ScaledBigInt(SignedOf(b), d.scale)))
    else
      MapTaken(TakeBuffer(p), data => CText(env.text(data)))
  }

  function DecodeZonedTime(p: Bytes): Taken<Cell> {
    match TakeUInt32(p)
    case Short => Short
    case TooLong => TooLong
    case Got(ticks, rest) =>
      match TakeUInt32(rest)
      case Short => Short
      case TooLong => TooLong
      case Got(zone, rest') =>
        MapTaken(TakeInt32(rest'), offset => CZonedTime(TicksToTime(ticks), zone, offset))
  }

  function DecodeZonedTimestamp(p: Bytes): Taken<Cell> {
    match TakeInt32(p)
    case Short => Short
    case TooLong => TooLong
    case Got(mjd, rest) =>
      match DecodeZonedTime(rest)
      case Got(CZonedTime(clock, zone, offset), rest') =>
        Got(CZonedTimestamp(MJDToDate(mjd), clock, zone, offset), rest')
      case _ => Short
  }

  ghost function DecodeFrom(env: Env, descs: seq<ColumnDescriptor>, bitset: Bytes, i: nat, p: Bytes): Taken<seq<Cell>>
    requires i <= |descs| && ValidColumns(descs)
    decreases |descs| - i
  {
    if i == |descs| then Got([], p)
    else
      match if IsNull(bitset, i) then Got(Null, p) else DecodeColumn(env, descs[i], p)
      case Short => Short
      case TooLong => TooLong
      case Got(cell, rest) =>
        match DecodeFrom(env, descs, bitset, i + 1, rest)
        case Got(cells, rest') => Got([cell] + cells, rest')
        case Short => Short
        case TooLong => TooLong
  }

  ghost function DecodeRow(env: Env, descs: seq<ColumnDescriptor>, p: Bytes): Taken<seq<Cell>>
    requires ValidColumns(descs)
  {
    match TakeBytes(p, PaddedSize(|descs|))
    case Short => Short
    case TooLong => TooLong
    case Got(bitmap, rest) => DecodeFrom(env, descs, bitmap[..(|descs| + 7) / 8], 0, rest)
  }
}
