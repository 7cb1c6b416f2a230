/** A result set: batches fetched on demand and delivered one row at a time. */
module Cursor {
  import opened Common
  import opened Descriptors
  import opened Xdr
  import opened Readers
  import opened RowFormat
  import opened Fetch

  /** What repeated Next calls deliver from the given batches: an empty batch looks like the end. */
  function Delivered(batches: seq<seq<Row>>): seq<Row> {
    if batches == [] || batches[0] == [] then [] else batches[0] + Delivered(batches[1..])
  }

  /** Some batch with rows comes after one without. */
  ghost predicate HasGap(batches: seq<seq<Row>>) {
    exists i, j :: 0 <= i < j < |batches| && batches[i] == [] && batches[j] != []
  }

  /** Every row is delivered, once and in order, exactly when no empty batch precedes a non-empty one. */
  lemma {:induction false} DeliversEverything(batches: seq<seq<Row>>)
    ensures Delivered(batches) == Flatten(batches) <==> !HasGap(batches)
  {
    if batches == [] {
    } else if batches[0] == [] {
      NoRows(batches);
      if !HasGap(batches) {
        forall j | 0 <= j < |batches| ensures batches[j] == [] {
          assert j == 0 || batches[0] == [];
        }
      }
    } else {
      var rest := batches[1..];
      DeliversEverything(rest);
      Cancel(batches[0], Delivered(rest), Flatten(rest));
      GapShifts(batches);
    }
  }

  lemma GapShifts(batches: seq<seq<Row>>)
    requires batches != [] && batches[0] != []
    ensures HasGap(batches) <==> HasGap(batches[1..])
  {
    var rest := batches[1..];
    if HasGap(batches) {
      var i, j :| 0 <= i < j < |batches| && batches[i] == [] && batches[j] != [];
      assert rest[i - 1] == [] && rest[j - 1] != [];
    }
    if HasGap(rest) {
      var i, j :| 0 <= i < j < |rest| && rest[i] == [] && rest[j] != [];
      assert batches[i + 1] == [] && batches[j + 1] != [];
    }
  }

  lemma Cancel(a: seq<Row>, b: seq<Row>, c: seq<Row>)
    ensures a + b == a + c <==> b == c
  {
    assert (a + b)[|a|..] == b && (a + c)[|a|..] == c;
  }

  lemma {:induction false} NoRows(batches: seq<seq<Row>>)
    ensures Flatten(batches) == [] <==> forall j :: 0 <= j < |batches| ==> batches[j] == []
  {
    if batches != [] {
      NoRows(batches[1..]);
      assert forall j :: 1 <= j < |batches| ==> batches[j] == batches[1..][j - 1];
      assert Flatten(batches) == [] <==> batches[0] == [] && Flatten(batches[1..]) == [];
    }
  }

  /** However the server splits the cursor, full batches deliver the same rows. */
  lemma BatchingIrrelevant(batches: seq<seq<Row>>, batches': seq<seq<Row>>)
    requires Flatten(batches) == Flatten(batches') && !HasGap(batches) && !HasGap(batches')
    ensures Delivered(batches) == Delivered(batches')
  {
    DeliversEverything(batches);
    DeliversEverything(batches');
  }

  // ---------------------------------------------------------------------------
  // The batches still in the stream
  // ---------------------------------------------------------------------------

  lemma {:induction false} BatchShrinks(env: Env, descs: seq<ColumnDescriptor>, p: Bytes)
    requires ValidColumns(descs)
    ensures TakeBatch(env, descs, p).Batch? ==> |TakeBatch(env, descs, p).rest| < |p|
    decreases |p|
  {
    hide TakeHeader, DecodeRow;
    HeaderShrinks(p);
    match TakeHeader(p)
    case Got(RowFollows, data) =>
      RowShrinks(env, descs, data);
      match DecodeRow(env, descs, data) {
        case Got(row, rest) => BatchShrinks(env, descs, rest);
        case _ =>
      }
    case _ =>
  }

  /** The answers to all fetches up to the end of the cursor, if none of them fails. */
  ghost function TakeCursor(env: Env, descs: seq<ColumnDescriptor>, p: Bytes): Option<seq<seq<Row>>>
    requires ValidColumns(descs)
    decreases |p|
  {
    var b := TakeBatch(env, descs, p);
    if !b.Batch? then None
    else if b.eof then Some([b.rows])
    else
      BatchShrinks(env, descs, p);
      match TakeCursor(env, descs, b.rest)
      case None => None
      case Some(later) => Some([b.rows] + later)
  }

  datatype NextResult = RowDelivered | EndOfRows | NextFailed

  class Rows {
    const env: Env
    const r: Reader
    const descs: seq<ColumnDescriptor>
    const fetchSize: int
    const scratch: array<byte>
    var buf: seq<Window>
    var bufIdx: nat
    var eof: bool
    var closed: bool
    var values: array<Cell>
    /** The rows of the current batch. */
    ghost var batch: seq<Row>

    ghost predicate Valid()
      reads this, r, values
    {
      r.Valid() && ValidColumns(descs) && scratch != r.buf
      && Holds(buf, values, |descs|, batch) && bufIdx <= |buf|
    }

    constructor (env: Env, r: Reader, descs: seq<ColumnDescriptor>, fetchSize: int, scratch: array<byte>)
      requires r.Valid() && ValidColumns(descs) && scratch != r.buf
      ensures Valid() && this.r == r && this.descs == descs && this.env == env && fresh(values) && this.scratch == scratch
      ensures bufIdx == 0 && batch == [] && !eof && !closed
    {
      this.env, this.r, this.descs, this.fetchSize, this.scratch := env, r, descs, fetchSize, scratch;
      buf, bufIdx, eof, closed := [], 0, false, false;
      values := new Cell[8](_ => Null);
      batch := [];
    }

    /** Nothing is in the way of fetching: the stream delivers and every remaining batch is well formed. */
    ghost predicate Healthy()
      requires Valid()
      reads this, r, r.buf, r.rd, values
    {
      !closed && r.err.None? && r.rd.Productive() && (eof || TakeCursor(env, descs, r.Pending()).Some?)
    }

    /** The rows that Next calls will deliver from here on. */
    ghost function Future(): seq<Row>
      requires Valid() && Healthy()
      reads this, r, r.buf, r.rd, values
    {
      batch[bufIdx..] + if eof then [] else Delivered(TakeCursor(env, descs, r.Pending()).value)
    }

    /** Replaces the exhausted batch by the next one. */
    method FetchBatch() returns (ok: bool)
      requires Valid() && !eof
      modifies this, r, r.buf, r.rd, scratch, values
      ensures Valid() && closed == old(closed) && (values == old(values) || fresh(values)) && (r.buf == old(r.buf) || fresh(r.buf))
      ensures old(r.err).None? && old(r.rd.Productive()) ==> (ok <==> TakeBatch(env, descs, old(r.Pending())).Batch?)
      ensures ok ==> var b := TakeBatch(env, descs, old(r.Pending()));
                     b.Batch? && batch == b.rows && bufIdx == 0 && eof == b.eof && r.Pending() == b.rest && r.err.None?
      ensures old(r.rd.Productive()) ==> r.rd.Productive()
    {
      hide TakeBatch, Holds;
      ghost var spec := TakeBatch(env, descs, r.Pending());
      var fetched, values', result := FetchRowsReuse(env, r, descs, fetchSize, values, scratch);
      if !result.Fetched? {
        ok := false;
        buf, bufIdx, batch, values := [], 0, [], values';
        HoldsNothing(values, |descs|);
        return;
      }
      buf, bufIdx, values, batch := fetched, 0, values', spec.rows;
      if result.eof {
        eof := true;
      }
      ok := true;
    }

    /** Makes sure a row is at hand, fetching a batch when the current one is used up. */
    method EnsureRow() returns (result: NextResult)
      requires Valid() && !closed
      modifies this, r, r.buf, r.rd, scratch, values
      ensures Valid() && !closed && (values == old(values) || fresh(values)) && (r.buf == old(r.buf) || fresh(r.buf))
      ensures result == RowDelivered ==> bufIdx < |buf|
      ensures old(Healthy()) ==> Healthy() && (result == if old(Future()) == [] then EndOfRows else RowDelivered)
      ensures old(Healthy()) && old(Future()) != [] ==> Future() == old(Future())
      ensures old(Healthy()) && old(Future()) == [] ==> bufIdx == |buf|
    {
      hide TakeCursor, TakeBatch, Holds, Delivered;
      BatchLength();
      if bufIdx < |buf| {
        return RowDelivered;
      }
      if eof {
        return EndOfRows;
      }
      CursorStep(env, descs, r.Pending());
      var ok := FetchBatch();
      BatchLength();
      if !ok {
        return NextFailed;
      }
      assert batch[0..] == batch;
      result := if bufIdx >= |buf| then EndOfRows else RowDelivered;
    }

    /** Delivers the next row into `dest`. */
    method Next(dest: array<Cell>) returns (result: NextResult)
      requires Valid() && dest.Length == |descs| && dest != values
      modifies this, r, r.buf, r.rd, scratch, values, dest
      ensures Valid() && (values == old(values) || fresh(values)) && (r.buf == old(r.buf) || fresh(r.buf)) && dest != values
      ensures old(closed) ==> result == EndOfRows
      ensures old(Healthy()) ==> Healthy() && (result == if old(Future()) == [] then EndOfRows else RowDelivered)
      ensures old(Healthy()) && old(Future()) != [] ==> dest[..] == old(Future())[0] && Future() == old(Future())[1..]
    {
      hide TakeCursor, TakeBatch, Holds, Delivered;
      if closed {
        return EndOfRows;
      }
      result := EnsureRow();
      if result != RowDelivered {
        return;
      }
      BatchLength();
      WindowContents(buf, values, |descs|, batch, bufIdx);
      RowWidth();
      assert batch[bufIdx..] == [batch[bufIdx]] + batch[bufIdx + 1..];
      CopyRow(buf[bufIdx], dest);
      bufIdx := bufIdx + 1;
    }

    lemma BatchLength()
      requires Valid()
      ensures |batch| == |buf|
    {
    }

    lemma RowWidth()
      requires Valid() && bufIdx < |buf| && |batch| == |buf|
      ensures |batch[bufIdx]| == |descs|
    {
    }

    method CopyRow(row: Window, dest: array<Cell>)
      requires dest != row.arr && row.lo + dest.Length == row.hi <= row.arr.Length
      modifies dest
      ensures dest[..] == row.arr[row.lo..row.hi]
    {
      forall i | 0 <= i < dest.Length {
        dest[i] := row.arr[row.lo + i];
      }
    }
  }

  /** What the first remaining batch contributes. */
  lemma CursorStep(env: Env, descs: seq<ColumnDescriptor>, p: Bytes)
    requires ValidColumns(descs)
    ensures TakeCursor(env, descs, p).Some? ==>
      var b := TakeBatch(env, descs, p);
      && b.Batch?
      && (b.eof ==> Delivered(TakeCursor(env, descs, p).value) == b.rows)
      && (!b.eof ==> TakeCursor(env, descs, b.rest).Some?)
      && (!b.eof ==> Delivered(TakeCursor(env, descs, p).value)
                     == if b.rows == [] then [] else b.rows + Delivered(TakeCursor(env, descs, b.rest).value))
  {
    hide TakeBatch;
    var c := TakeCursor(env, descs, p);
    if c.Some? {
      var b := TakeBatch(env, descs, p);
      if b.eof {
        assert Delivered([]) == [];
        assert c.value[1..] == [];
      } else {
        assert c.value[1..] == TakeCursor(env, descs, b.rest).value;
      }
    }
  }

  /** One Next call of a client, with a destination of its own. */
  method NextRow(rows: Rows) returns (row: Option<Row>)
    requires rows.Valid() && rows.Healthy()
    modifies rows, rows.r, rows.r.buf, rows.r.rd, rows.scratch, rows.values
    ensures rows.Valid() && rows.Healthy()
    ensures (rows.values == old(rows.values) || fresh(rows.values)) && (rows.r.buf == old(rows.r.buf) || fresh(rows.r.buf))
    ensures if old(rows.Future()) == [] then row == None
            else row == Some(old(rows.Future())[0]) && rows.Future() == old(rows.Future())[1..]
  {
    hide TakeCursor, TakeBatch, Delivered, Holds;
    var dest := new Cell[|rows.descs|](_ => Null);
    var result := rows.Next(dest);
    row := if result == RowDelivered then Some(dest[..]) else None;
  }

  /** Calling Next until it reports the end collects exactly the deliverable rows. */
  method Drain(rows: Rows) returns (all: seq<Row>)
    requires rows.Valid() && rows.Healthy()
    modifies rows, rows.r, rows.r.buf, rows.r.rd, rows.scratch, rows.values
    ensures all == old(rows.Future())
  {
    hide TakeCursor, TakeBatch, Delivered, Holds;
    all := [];
    ghost var target := rows.Future();
    while true
      invariant rows.Valid() && rows.Healthy()
      invariant (rows.values == old(rows.values) || fresh(rows.values)) && (rows.r.buf == old(rows.r.buf) || fresh(rows.r.buf))
      invariant all + rows.Future() == target
      decreases |rows.Future()|
    {
      ghost var future, sofar := rows.Future(), all;
      var row := NextRow(rows);
      if row == None {
        assert all + future == all;
        return;
      }
      all := all + [row.value];
      assert all + future[1..] == sofar + future;
    }
  }
}
