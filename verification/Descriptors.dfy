/** Column and parameter descriptors, and the values that travel in them. */
module Descriptors {
  import opened Common
  import opened DateTime

  const SQL_TEXT := 452
  const SQL_VARYING := 448
  const SQL_SHORT := 500
  const SQL_LONG := 496
  const SQL_FLOAT := 482
  const SQL_DOUBLE := 480
  const SQL_TIMESTAMP := 510
  const SQL_BLOB := 520
  const SQL_TYPE_DATE := 570
  const SQL_TYPE_TIME := 560
  const SQL_INT64 := 580
  const SQL_INT128 := 32752
  const SQL_TIMESTAMP_TZ := 32754
  const SQL_TIME_TZ := 32756
  const SQL_TIME_TZ_EX := 32750
  const SQL_TIMESTAMP_TZ_EX := 32748
  const SQL_DEC16 := 32760
  const SQL_DEC34 := 32762
  const SQL_BOOLEAN := 32764

  const CS_NONE := 0
  const CS_OCTETS := 1
  const CS_UNICODE_FSS := 3
  const CS_UTF8 := 4

  datatype ColumnDescriptor = ColumnDescriptor(
    fieldName: Bytes,
    relationName: Bytes,
    ownerName: Bytes,
    aliasName: Bytes,
    sqlType: int,
    subType: int,
    scale: int,
    length: int,
    nullable: bool,
    subTypeFromNone: bool)
  {
    /** The type without its nullable flag. */
    function BaseType(): int { sqlType - sqlType % 2 }

    /** The low byte of the subtype; the rest is a collation. */
    function CharsetId(): (id: int)
      ensures 0 <= id < 256
    {
      subType % 256
    }
  }

  /** An instant as civil fields: its local reading, its UTC reading and the offset between them. */
  datatype Moment = Moment(localDate: Date, localClock: Clock, utcDate: Date, utcClock: Clock, offset: int) {
    predicate Valid() {
      localDate.Valid() && localClock.Valid() && utcDate.Valid() && utcClock.Valid()
    }
  }

  /** A parameter as the driver's value checker leaves it; floats are their 64 bits. */
  datatype Value =
    | Nil
    | VInt(i: int)
    | VFloat(bits: nat)
    | VBool(b: bool)
    | VText(s: string)
    | VBytes(bytes: Bytes)
    | VTime(t: Moment)
  {
    predicate Valid() {
      (VInt? ==> IsInt64(i)) && (VFloat? ==> bits < TWO_64) && (VTime? ==> t.Valid())
    }
  }

  /** What decoding puts into a row. */
  datatype Cell =
    | Null
    | CInt(i: int)
    | CFloat32(bits32: nat)
    | CFloat64(bits: nat)
    | CBool(b: bool)
    | CText(s: string)
    | CBytes(bytes: Bytes)
    | CDate(date: Date)
    | CClock(clock: Clock)
    | CTimestamp(day: Date, time: Clock)
    | CZonedTime(utcTime: Clock, timeZone: nat, timeOffset: int)
    | CZonedTimestamp(utcDay: Date, utcOfDay: Clock, zone: nat, zoneOffset: int)

  /** Character-set and floating-point conversions that live outside the driver. */
  datatype Env = Env(
    utf8: string -> Bytes,
    text: Bytes -> string,
    encode: (int, string) -> Option<Bytes>,
    decode: (int, Bytes) -> string,
    floatOfInt: int -> nat,
    intOfFloat: nat -> int,
    parseFloat: string -> Option<nat>,
    float32: nat -> nat,
    fixed: nat -> string,
    general: nat -> string,
    timeText: Moment -> string)
  {
    ghost predicate Valid() {
      && (forall i :: floatOfInt(i) < TWO_64)
      && (forall b :: IsInt64(intOfFloat(b)))
      && (forall s :: parseFloat(s).Some? ==> parseFloat(s).value < TWO_64)
      && (forall b :: float32(b) < TWO_32)
    }

    /** Text and bytes convert into each other without loss. */
    ghost predicate LosslessText() {
      && (forall s :: text(utf8(s)) == s)
      && text([]) == ""
      && (forall id, s :: encode(id, s).Some? ==> decode(id, encode(id, s).value) == s)
      && (forall id, s :: encode(id, s) == Some([]) ==> s == "")
    }
  }

  predicate IsIdentityCharset(id: int) {
    id == CS_NONE || id == CS_OCTETS || id == CS_UNICODE_FSS || id == CS_UTF8
  }

  function CharsetEncode(env: Env, id: int, s: string): Option<Bytes> {
    if s == "" then Some([])
    else if IsIdentityCharset(id) then Some(env.utf8(s))
    else env.encode(id, s)
  }

  function CharsetDecode(env: Env, id: int, data: Bytes): string {
    if data == [] then ""
    else if IsIdentityCharset(id) then env.text(data)
    else env.decode(id, data)
  }

  lemma CharsetRoundTrip(env: Env, id: int, s: string)
    requires env.LosslessText() && CharsetEncode(env, id, s).Some?
    ensures CharsetDecode(env, id, CharsetEncode(env, id, s).value) == s
  {
    assert env.text(env.utf8(s)) == s;
  }
}
