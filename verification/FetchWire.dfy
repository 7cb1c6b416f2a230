/** The bytes a server sends for a cursor, and what fetching makes of them. */
module FetchWire {
  import opened Common
  import opened BigInt
  import opened Descriptors
  import opened DateTime
  import opened Int128
  import opened Numeric
  import opened ScaledText
  import opened Xdr
  import opened RowFormat
  import opened RowRoundTrip
  import opened Fetch
  import opened Cursor

  /** A row as it is sent: keep-alives, a fetch response announcing it, and its data. */
  datatype Sent = Sent(keepAlives: nat, status: int, messages: int, data: Bytes, row: Row)

  /** Keep-alives carry the opcode 71 and nothing else. */
  function KeepAlives(n: nat): Bytes {
    if n == 0 then [] else Int32Bytes(71) + KeepAlives(n - 1)
  }

  /** A fetch response, opcode 66. */
  function Message(keepAlives: nat, status: int, messages: int): Bytes {
    KeepAlives(keepAlives) + (Int32Bytes(66) + (Int32Bytes(status) + Int32Bytes(messages)))
  }

  function RowBytes(sent: seq<Sent>): Bytes {
    if sent == [] then []
    else Message(sent[0].keepAlives, sent[0].status, sent[0].messages) + (sent[0].data + RowBytes(sent[1..]))
  }

  /** A batch: its rows, then a message without one, whose status 100 says that the cursor is exhausted. */
  function BatchBytes(sent: seq<Sent>, keepAlives: nat, status: int): Bytes {
    RowBytes(sent) + Message(keepAlives, status, 0)
  }

  function RowsOf(sent: seq<Sent>): seq<Row> { seq(|sent|, i requires 0 <= i < |sent| => sent[i].row) }

  ghost predicate Holding(env: Env, descs: seq<ColumnDescriptor>, data: Bytes, row: Row)
    requires ValidColumns(descs)
  {
    forall rest :: DecodeRow(env, descs, data + rest) == Got(row, rest)
  }

  ghost predicate Sendable(env: Env, descs: seq<ColumnDescriptor>, sent: seq<Sent>)
    requires ValidColumns(descs)
  {
    forall i :: 0 <= i < |sent| ==>
      IsInt32(sent[i].status) && IsInt32(sent[i].messages) && sent[i].messages != 0
      && Holding(env, descs, sent[i].data, sent[i].row)
  }

  lemma TakeNumber(v: int, rest: Bytes)
    requires IsInt32(v)
    ensures TakeInt32(Int32Bytes(v) + rest) == Got(v, rest)
  {
    hide FillBytes, TakeUInt32;
    UInt32RoundTrip(v % TWO_32, rest);
    assert Int32Bytes(v % TWO_32) == Int32Bytes(v);
  }

  /** Keep-alives do not matter. */
  lemma {:induction false} OpcodeRead(keepAlives: nat, op: int, rest: Bytes)
    requires IsInt32(op) && op != 71
    ensures TakeOpcode(KeepAlives(keepAlives) + (Int32Bytes(op) + rest)) == Got(op, rest)
  {
    hide TakeInt32, Int32Bytes;
    var tail := Int32Bytes(op) + rest;
    if keepAlives == 0 {
      assert [] + tail == tail;
      TakeNumber(op, rest);
    } else {
      var more := KeepAlives(keepAlives - 1) + tail;
      assert KeepAlives(keepAlives) + tail == Int32Bytes(71) + more;
      TakeNumber(71, more);
      OpcodeRead(keepAlives - 1, op, rest);
    }
  }

  lemma MessageRead(keepAlives: nat, status: int, messages: int, rest: Bytes)
    requires IsInt32(status) && IsInt32(messages)
    ensures TakeHeader(Message(keepAlives, status, messages) + rest)
         == Got(if messages == 0 then BatchEnds(status == 100) else RowFollows, rest)
  {
    hide TakeInt32, TakeOpcode, Int32Bytes, KeepAlives;
    var body := Int32Bytes(status) + (Int32Bytes(messages) + rest);
    assert Message(keepAlives, status, messages) + rest == KeepAlives(keepAlives) + (Int32Bytes(66) + body);
    OpcodeRead(keepAlives, 66, body);
    TakeNumber(status, Int32Bytes(messages) + rest);
    TakeNumber(messages, rest);
  }

  /** Whatever ends the rows, they are taken first. */
  lemma {:induction false} RowsRead(env: Env, descs: seq<ColumnDescriptor>, sent: seq<Sent>, rest: Bytes)
    requires ValidColumns(descs) && Sendable(env, descs, sent)
    ensures TakeBatch(env, descs, RowBytes(sent) + rest) == PrependRows(RowsOf(sent), TakeBatch(env, descs, rest))
    decreases |sent|
  {
    hide TakeHeader, DecodeRow, Message;
    if sent == [] {
      assert RowBytes(sent) + rest == rest;
      var b := TakeBatch(env, descs, rest);
      assert b.Batch? ==> RowsOf(sent) + b.rows == b.rows;
    } else {
      var m, more := sent[0], RowBytes(sent[1..]) + rest;
      assert RowBytes(sent) + rest == Message(m.keepAlives, m.status, m.messages) + (m.data + more);
      MessageRead(m.keepAlives, m.status, m.messages, m.data + more);
      RowsRead(env, descs, sent[1..], rest);
      var b := TakeBatch(env, descs, rest);
      assert RowsOf(sent) == [m.row] + RowsOf(sent[1..]);
      PrependBoth([], m.row, PrependRows(RowsOf(sent[1..]), b));
      assert b.Batch? ==> [m.row] + (RowsOf(sent[1..]) + b.rows) == RowsOf(sent) + b.rows;
    }
  }

  /** A batch is read as its rows, and as the last one exactly if its closing message has status 100. */
  lemma BatchRead(env: Env, descs: seq<ColumnDescriptor>, sent: seq<Sent>, keepAlives: nat, status: int, rest: Bytes)
    requires ValidColumns(descs) && Sendable(env, descs, sent) && IsInt32(status)
    ensures TakeBatch(env, descs, BatchBytes(sent, keepAlives, status) + rest)
         == Batch(RowsOf(sent), status == 100, rest)
  {
    hide TakeHeader, DecodeRow, Message, RowBytes;
    var end := Message(keepAlives, status, 0) + rest;
    assert BatchBytes(sent, keepAlives, status) + rest == RowBytes(sent) + end;
    MessageRead(keepAlives, status, 0, rest);
    RowsRead(env, descs, sent, end);
    assert RowsOf(sent) + [] == RowsOf(sent);
  }

  /** A response of opcode 9 in place of a row refuses the whole batch. */
  lemma ErrorRefuses(env: Env, descs: seq<ColumnDescriptor>, sent: seq<Sent>, keepAlives: nat, rest: Bytes)
    requires ValidColumns(descs) && Sendable(env, descs, sent)
    ensures TakeBatch(env, descs, RowBytes(sent) + (KeepAlives(keepAlives) + (Int32Bytes(9) + rest))) == Refused
  {
    hide TakeOpcode, DecodeRow, RowBytes, KeepAlives, Int32Bytes;
    OpcodeRead(keepAlives, 9, rest);
    RowsRead(env, descs, sent, KeepAlives(keepAlives) + (Int32Bytes(9) + rest));
  }

  // ---------------------------------------------------------------------------
  // Whole cursors
  // ---------------------------------------------------------------------------

  datatype Sending = Sending(sent: seq<Sent>, keepAlives: nat)

  /** All batches but the last end with status 0. */
  function CursorBytes(batches: seq<Sending>): Bytes {
    if batches == [] then []
    else BatchBytes(batches[0].sent, batches[0].keepAlives, if |batches| == 1 then 100 else 0)
         + CursorBytes(batches[1..])
  }

  function BatchesOf(batches: seq<Sending>): seq<seq<Row>> {
    seq(|batches|, i requires 0 <= i < |batches| => RowsOf(batches[i].sent))
  }

  /** However a server splits a cursor into batches, all of them are read, and nothing after the last. */
  lemma {:induction false} CursorRead(env: Env, descs: seq<ColumnDescriptor>, batches: seq<Sending>, rest: Bytes)
    requires ValidColumns(descs) && batches != []
    requires forall i :: 0 <= i < |batches| ==> Sendable(env, descs, batches[i].sent)
    ensures TakeCursor(env, descs, CursorBytes(batches) + rest) == Some(BatchesOf(batches))
    decreases |batches|
  {
    hide TakeBatch, BatchBytes, Sendable;
    var b, more := batches[0], CursorBytes(batches[1..]) + rest;
    var status := if |batches| == 1 then 100 else 0;
    assert CursorBytes(batches) + rest == BatchBytes(b.sent, b.keepAlives, status) + more;
    BatchRead(env, descs, b.sent, b.keepAlives, status, more);
    if |batches| > 1 {
      CursorRead(env, descs, batches[1..], rest);
      assert BatchesOf(batches) == [RowsOf(b.sent)] + BatchesOf(batches[1..]);
    } else {
      assert BatchesOf(batches) == [RowsOf(b.sent)];
    }
  }

  /** Calling Next until the end delivers what the server sent: every row exactly if no empty batch comes too early. */
  method DrainSent(rows: Rows, ghost batches: seq<Sending>, ghost rest: Bytes) returns (all: seq<Row>)
    requires rows.Valid() && !rows.closed && !rows.eof && rows.bufIdx == 0 && rows.batch == []
    requires rows.r.err.None? && rows.r.rd.Productive() && rows.r.Pending() == CursorBytes(batches) + rest
    requires batches != [] && forall i :: 0 <= i < |batches| ==> Sendable(rows.env, rows.descs, batches[i].sent)
    modifies rows, rows.r, rows.r.buf, rows.r.rd, rows.scratch, rows.values
    ensures all == Flatten(BatchesOf(batches)) <==> !HasGap(BatchesOf(batches))
    ensures all <= Flatten(BatchesOf(batches))
  {
    hide TakeCursor, CursorBytes, Sendable, Delivered, BatchesOf, HasGap;
    CursorRead(rows.env, rows.descs, batches, rest);
    DeliversEverything(BatchesOf(batches));
    DeliversFirst(BatchesOf(batches));
    assert rows.batch[rows.bufIdx..] + Delivered(BatchesOf(batches)) == Delivered(BatchesOf(batches));
    all := Drain(rows);
  }

  /** Whatever is delivered are the first rows, in order. */
  lemma {:induction false} DeliversFirst(batches: seq<seq<Row>>)
    ensures Delivered(batches) <= Flatten(batches)
  {
    if batches != [] && batches[0] != [] {
      DeliversFirst(batches[1..]);
    }
  }

  // ---------------------------------------------------------------------------
  // Encoded rows
  // ---------------------------------------------------------------------------

  predicate IsMoment(t: int) { t == SQL_TYPE_DATE || t == SQL_TYPE_TIME || t == SQL_TIMESTAMP }

  predicate IsZoned(t: int) {
    t == SQL_TIMESTAMP_TZ || t == SQL_TIMESTAMP_TZ_EX || t == SQL_TIME_TZ || t == SQL_TIME_TZ_EX
  }

  lemma OneMoment(env: Env, d: ColumnDescriptor, v: Value, x: Cell, y: Cell)
    requires ValidColumn(d) && v.Valid() && ReadsBackAs(env, d, v, x) && ReadsBackAs(env, d, v, y)
    requires IsMoment(d.BaseType())
    ensures x == y
  {
    hide NumericInt64, FittingText, FloatValue, Int128Text, VaryingCell, IntegerCell, RawBytes, DateToMJD, MJDToDate;
    hide TruncateToTick, OffsetZone, GoDiv, Wrap32, ScaledBigIntOf, ScaledBigInt, SignedOf, Int128Bytes, FieldBytes;
    hide TrimSpaces, CharsetDecode, ColumnDescriptor.BaseType, ColumnDescriptor.CharsetId;
  }

  lemma OneZoned(env: Env, d: ColumnDescriptor, v: Value, x: Cell, y: Cell)
    requires ValidColumn(d) && v.Valid() && ReadsBackAs(env, d, v, x) && ReadsBackAs(env, d, v, y)
    requires IsZoned(d.BaseType())
    ensures x == y
  {
    hide NumericInt64, FittingText, FloatValue, Int128Text, VaryingCell, IntegerCell, RawBytes, DateToMJD, MJDToDate;
    hide TruncateToTick, OffsetZone, GoDiv, Wrap32, ScaledBigIntOf, ScaledBigInt, SignedOf, Int128Bytes, FieldBytes;
    hide TrimSpaces, CharsetDecode, ColumnDescriptor.BaseType, ColumnDescriptor.CharsetId;
  }

  lemma OneOther(env: Env, d: ColumnDescriptor, v: Value, x: Cell, y: Cell)
    requires ValidColumn(d) && v.Valid() && ReadsBackAs(env, d, v, x) && ReadsBackAs(env, d, v, y)
    requires !IsMoment(d.BaseType()) && !IsZoned(d.BaseType())
    ensures x == y
  {
    hide NumericInt64, FittingText, FloatValue, Int128Text, VaryingCell, IntegerCell, RawBytes, DateToMJD, MJDToDate;
    hide TruncateToTick, OffsetZone, GoDiv, Wrap32, ScaledBigIntOf, ScaledBigInt, SignedOf, Int128Bytes, FieldBytes;
    hide TrimSpaces, CharsetDecode, ColumnDescriptor.BaseType, ColumnDescriptor.CharsetId;
  }

  /** What a value reads back as is determined. */
  lemma OneReading(env: Env, d: ColumnDescriptor, v: Value, x: Cell, y: Cell)
    requires ValidColumn(d) && v.Valid() && ReadsBackAs(env, d, v, x) && ReadsBackAs(env, d, v, y)
    ensures x == y
  {
    hide ReadsBackAs;
    if IsMoment(d.BaseType()) {
      OneMoment(env, d, v, x, y);
    } else if IsZoned(d.BaseType()) {
      OneZoned(env, d, v, x, y);
    } else {
      OneOther(env, d, v, x, y);
    }
  }

  lemma OneRowReading(env: Env, descs: seq<ColumnDescriptor>, values: seq<Value>, x: seq<Cell>, y: seq<Cell>)
    requires ValidColumns(descs) && ValidValues(values)
    requires RowReadsBack(env, descs, values, 0, x) && RowReadsBack(env, descs, values, 0, y)
    ensures x == y
  {
    hide ReadsBackAs;
    forall k | 0 <= k < |x| ensures x[k] == y[k] {
      if !IsNil(values, k) {
        OneReading(env, descs[k], values[k], x[k], y[k]);
      }
    }
  }

  /** An encoded row is one that can be sent, and holds what its values read back as. */
  lemma EncodedHolds(env: Env, descs: seq<ColumnDescriptor>, values: seq<Value>, b: Bytes) returns (row: Row)
    requires RoundTrippable(env, descs, values) && EncodeRow(env, descs, values) == Ok(b)
    ensures Holding(env, descs, b, row) && RowReadsBack(env, descs, values, 0, row)
  {
    hide DecodeRow, EncodeRow, RowReadsBack, RoundTrippable;
    assert ValidColumns(descs) && ValidValues(values) by { Trippable(env, descs, values); }
    row := RowRoundTrip.RowRoundTrip(env, descs, values, b, []);
    forall rest ensures DecodeRow(env, descs, b + rest) == Got(row, rest) {
      var again := RowRoundTrip.RowRoundTrip(env, descs, values, b, rest);
      OneRowReading(env, descs, values, row, again);
    }
  }

  lemma Trippable(env: Env, descs: seq<ColumnDescriptor>, values: seq<Value>)
    requires RoundTrippable(env, descs, values)
    ensures ValidColumns(descs) && ValidValues(values)
  {
  }
}
