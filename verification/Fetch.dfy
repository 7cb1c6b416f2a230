/** One fetch batch: rows decoded into windows of a reused, growing value array. */
module Fetch {
  import opened Common
  import opened Powers
  import opened Descriptors
  import opened NullBitmap
  import opened Xdr
  import opened Writers
  import opened Readers
  import opened RowFormat
  import opened RowDecoder

  const OP_RESPONSE := 9
  const OP_FETCH_RESPONSE := 66
  const END_OF_CURSOR := 100

  type Row = seq<Cell>

  datatype Batch = Batch(rows: seq<Row>, eof: bool, rest: Bytes) | Refused | Broken

  lemma ColumnShrinks(env: Env, d: ColumnDescriptor, p: Bytes)
    requires ValidColumn(d)
    ensures DecodeColumn(env, d, p).Got? ==> |DecodeColumn(env, d, p).rest| <= |p|
  {
  }

  lemma {:induction false} ColumnsShrink(env: Env, descs: seq<ColumnDescriptor>, bitset: Bytes, i: nat, p: Bytes)
    requires i <= |descs| && ValidColumns(descs)
    ensures var r := DecodeFrom(env, descs, bitset, i, p);
            r.Got? ==> |r.rest| <= |p| && |r.value| == |descs| - i
    decreases |descs| - i
  {
    hide DecodeColumn, IsNull;
    if i < |descs| {
      var r := if IsNull(bitset, i) then Got(Null, p) else DecodeColumn(env, descs[i], p);
      ColumnShrinks(env, descs[i], p);
      if r.Got? {
        ColumnsShrink(env, descs, bitset, i + 1, r.rest);
      }
    }
  }

  lemma RowShrinks(env: Env, descs: seq<ColumnDescriptor>, p: Bytes)
    requires ValidColumns(descs)
    ensures var r := DecodeRow(env, descs, p);
            r.Got? ==> |r.rest| <= |p| && |r.value| == |descs|
  {
    hide DecodeFrom;
    match TakeBytes(p, PaddedSize(|descs|))
    case Got(bitmap, rest) => ColumnsShrink(env, descs, bitmap[..(|descs| + 7) / 8], 0, rest);
    case _ =>
  }

  lemma OpcodeShrinks(p: Bytes)
    ensures TakeOpcode(p).Got? ==> |TakeOpcode(p).rest| + 4 <= |p|
    decreases |p|
  {
    match TakeInt32(p)
    case Got(op, rest) => if op == OP_DUMMY { OpcodeShrinks(rest); }
    case _ =>
  }

  /** The message in front of a row, or instead of one. */
  datatype Header = RowFollows | BatchEnds(eof: bool) | ErrorFollows | Garbled

  function TakeHeader(p: Bytes): Taken<Header> {
    match TakeOpcode(p)
    case Short => Short
    case TooLong => TooLong
    case Got(op, body) =>
      if op == OP_RESPONSE then Got(ErrorFollows, body)
      else if op != OP_FETCH_RESPONSE then Got(Garbled, body)
      else
        match TakeInt32(body)
        case Short => Short
        case TooLong => TooLong
        case Got(status, rest) =>
          MapTaken(TakeInt32(rest), messages => if messages == 0 then BatchEnds(status == END_OF_CURSOR) else RowFollows)
  }

  lemma HeaderShrinks(p: Bytes)
    ensures TakeHeader(p).Got? ==> |TakeHeader(p).rest| < |p|
  {
    hide TakeOpcode;
    OpcodeShrinks(p);
  }

  /** What one fetch request's answer says: rows up to a message that carries none. */
  ghost function TakeBatch(env: Env, descs: seq<ColumnDescriptor>, p: Bytes): Batch
    requires ValidColumns(descs)
    decreases |p|
  {
    match TakeHeader(p)
    case Got(BatchEnds(eof), rest) => Batch([], eof, rest)
    case Got(ErrorFollows, _) => Refused
    case Got(RowFollows, data) =>
      HeaderShrinks(p);
      RowShrinks(env, descs, data);
      (match DecodeRow(env, descs, data)
       case Got(row, rest) => PrependRow(row, TakeBatch(env, descs, rest))
       case _ => Broken)
    case _ => Broken
  }

  function PrependRow(row: Row, b: Batch): Batch {
    if b.Batch? then b.(rows := [row] + b.rows) else b
  }

  /** A slice of the value array. */
  datatype Window = Window(arr: array<Cell>, lo: nat, hi: nat)

  datatype FetchResult = Fetched(eof: bool) | ServerError | Failure

  // ---------------------------------------------------------------------------
  // Windows over the value array
  // ---------------------------------------------------------------------------

  /** `rows` are consecutive windows of `n` cells each, all in the same array. */
  ghost predicate Tiles(rows: seq<Window>, arr: array<Cell>, n: nat) {
    forall i :: 0 <= i < |rows| ==> rows[i] == Window(arr, i * n, (i + 1) * n)
  }

  ghost predicate AllWidth(rows: seq<Row>, n: nat) {
    forall i :: 0 <= i < |rows| ==> |rows[i]| == n
  }

  lemma {:induction false} FlattenWidth(rows: seq<Row>, n: nat)
    requires AllWidth(rows, n)
    ensures |Flatten(rows)| == |rows| * n
  {
    if rows != [] {
      assert AllWidth(rows[1..], n);
      FlattenWidth(rows[1..], n);
      assert (|rows| - 1) * n + n == |rows| * n;
    }
  }

  lemma {:induction false} FlattenWindow(rows: seq<Row>, n: nat, i: nat)
    requires AllWidth(rows, n) && i < |rows|
    ensures 0 <= i * n <= (i + 1) * n <= |Flatten(rows)|
    ensures Flatten(rows)[i * n..(i + 1) * n] == rows[i]
  {
    FlattenWidth(rows, n);
    MulMonotone(i + 1, |rows|, n);
    assert (i + 1) * n == i * n + n;
    assert AllWidth(rows[1..], n);
    if i == 0 {
      assert Flatten(rows)[0..n] == rows[0];
    } else {
      FlattenWindow(rows[1..], n, i - 1);
      assert (i - 1) * n + n == i * n;
      assert Flatten(rows)[i * n..(i + 1) * n] == Flatten(rows[1..])[(i - 1) * n..i * n];
    }
  }

  /** The rows lie side by side at the start of the array, each in its own window. */
  ghost predicate Holds(rows: seq<Window>, arr: array<Cell>, n: nat, spec: seq<Row>)
    reads arr
  {
    && |rows| == |spec| && AllWidth(spec, n) && Tiles(rows, arr, n)
    && |Flatten(spec)| <= arr.Length && arr[..|Flatten(spec)|] == Flatten(spec)
  }

  /** A window's contents are its row, and no two windows overlap. */
  lemma WindowContents(rows: seq<Window>, arr: array<Cell>, n: nat, spec: seq<Row>, i: nat)
    requires Holds(rows, arr, n, spec) && i < |rows|
    ensures rows[i].arr == arr && rows[i].lo <= rows[i].hi <= arr.Length && arr[rows[i].lo..rows[i].hi] == spec[i]
    ensures forall j :: 0 <= j < i ==> rows[j].hi <= rows[i].lo
  {
    FlattenWindow(spec, n, i);
    var flat := Flatten(spec);
    assert arr[i * n..(i + 1) * n] == arr[..|flat|][i * n..(i + 1) * n];
    forall j | 0 <= j < i ensures rows[j].hi <= rows[i].lo {
      MulMonotone(j + 1, i, n);
    }
  }

  // ---------------------------------------------------------------------------
  // The fetch loop
  // ---------------------------------------------------------------------------

  /** Room for the next row: twice the capacity, within the fetch size unless the server exceeds it. */
  function GrownCapacity(rowCapacity: nat, maxRows: nat, rowIdx: nat): (c: nat)
    ensures rowIdx < c
  {
    var doubled := if rowCapacity * 2 == 0 then 1 else rowCapacity * 2;
    var capped := if 0 < maxRows < doubled then maxRows else doubled;
    if capped <= rowIdx then rowIdx + 1 else capped
  }

  /** A larger array with the same rows in it, and every row pointed at its new place. */
  method GrowValues(values: array<Cell>, rows: seq<Window>, n: nat, newCapacity: nat, ghost spec: seq<Row>)
    returns (values': array<Cell>, rows': seq<Window>)
    requires Holds(rows, values, n, spec) && |rows| < newCapacity
    ensures fresh(values') && values'.Length == newCapacity * n && Holds(rows', values', n, spec)
  {
    FlattenWidth(spec, n);
    MulMonotone(|rows|, newCapacity, n);
    values' := CopyValues(values, |rows| * n, newCapacity * n);
    rows' := Repoint(rows, values', n);
  }

  method CopyValues(values: array<Cell>, used: nat, length: nat) returns (values': array<Cell>)
    requires used <= values.Length && used <= length
    ensures fresh(values') && values'.Length == length && values'[..used] == values[..used]
  {
    values' := new Cell[length](_ => Null);
    forall i | 0 <= i < used {
      values'[i] := values[i];
    }
  }

  method Repoint(rows: seq<Window>, values: array<Cell>, n: nat) returns (rows': seq<Window>)
    ensures |rows'| == |rows| && Tiles(rows', values, n)
  {
    rows' := rows;
    for i := 0 to |rows|
      invariant |rows'| == |rows|
      invariant forall k :: 0 <= k < i ==> rows'[k] == Window(values, k * n, (k + 1) * n)
    {
      MulMonotone(0, i, n);
      MulMonotone(0, i + 1, n);
      rows' := rows'[i := Window(values, i * n, (i + 1) * n)];
    }
  }

  method ReadHeader(r: Reader) returns (h: Header)
    requires r.Valid()
    modifies r, r.buf, r.rd
    ensures r.Valid() && (r.buf == old(r.buf) || fresh(r.buf)) && (old(r.rd.Productive()) ==> r.rd.Productive())
    ensures Consumed(TakeHeader(old(r.Pending())), h, r.Pending(), old(r.err).Some?, r.err.Some?, old(r.rd.Productive()))
  {
    hide TakeInt32, TakeOpcode;
    var op := r.ReadOpcode();
    if r.err.Some? || op != OP_FETCH_RESPONSE {
      return if op == OP_RESPONSE then ErrorFollows else Garbled;
    }
    var status := r.ReadInt32();
    var messages := r.ReadInt32();
    h := if messages == 0 then BatchEnds(status == END_OF_CURSOR) else RowFollows;
  }

  function PrependRows(rows: seq<Row>, b: Batch): Batch {
    if b.Batch? then b.(rows := rows + b.rows) else b
  }

  /** One step of the specification along the stream. */
  lemma BatchStep(env: Env, descs: seq<ColumnDescriptor>, p: Bytes, done: seq<Row>, row: Row, rest: Bytes, data: Bytes)
    requires ValidColumns(descs)
    requires TakeHeader(p) == Got(RowFollows, data) && DecodeRow(env, descs, data) == Got(row, rest)
    ensures PrependRows(done, TakeBatch(env, descs, p)) == PrependRows(done + [row], TakeBatch(env, descs, rest))
    ensures |rest| < |p| && |row| == |descs|
  {
    hide DecodeRow, TakeHeader;
    HeaderShrinks(p);
    RowShrinks(env, descs, data);
    PrependBoth(done, row, TakeBatch(env, descs, rest));
  }

  lemma PrependBoth(done: seq<Row>, row: Row, b: Batch)
    ensures PrependRows(done, PrependRow(row, b)) == PrependRows(done + [row], b)
  {
    if b.Batch? {
      assert done + ([row] + b.rows) == done + [row] + b.rows;
    }
  }

  /** The specification as the loop sees it: rows already taken, and the batch still to come. */
  ghost predicate Along(env: Env, descs: seq<ColumnDescriptor>, whole: Batch, done: seq<Row>, p: Bytes)
    requires ValidColumns(descs)
  {
    whole == PrependRows(done, TakeBatch(env, descs, p))
  }

  /** Where the batch goes wrong, it goes wrong as a whole. */
  lemma BatchFails(env: Env, descs: seq<ColumnDescriptor>, p: Bytes, done: seq<Row>)
    requires ValidColumns(descs)
    ensures !TakeHeader(p).Got? || TakeHeader(p).value.ErrorFollows? || TakeHeader(p).value.Garbled? ==>
              !PrependRows(done, TakeBatch(env, descs, p)).Batch?
    ensures TakeHeader(p).Got? && TakeHeader(p).value == RowFollows && !DecodeRow(env, descs, TakeHeader(p).rest).Got? ==>
              !PrependRows(done, TakeBatch(env, descs, p)).Batch?
  {
    hide TakeHeader, DecodeRow;
  }

  lemma FinalMessage(env: Env, descs: seq<ColumnDescriptor>, p: Bytes, eof: bool, rest: Bytes, done: seq<Row>)
    requires ValidColumns(descs) && TakeHeader(p) == Got(BatchEnds(eof), rest)
    ensures PrependRows(done, TakeBatch(env, descs, p)) == Batch(done, eof, rest)
  {
    hide TakeHeader, DecodeRow;
    assert done + [] == done;
  }

  lemma AppendRow(rows: seq<Window>, arr: array<Cell>, n: nat, spec: seq<Row>, row: Row)
    requires |rows| == |spec| && AllWidth(spec, n) && Tiles(rows, arr, n) && |row| == n
    requires 0 <= |rows| * n && |rows| * n + n <= arr.Length && |Flatten(spec)| == |rows| * n
    requires arr[..|rows| * n] == Flatten(spec) && arr[|rows| * n..|rows| * n + n] == row
    ensures Holds(rows + [Window(arr, |rows| * n, |rows| * n + n)], arr, n, spec + [row])
  {
    var at := |rows| * n;
    FlattenSnoc(spec, row);
    assert arr[..at + n] == arr[..at] + arr[at..at + n];
    assert (|rows| + 1) * n == at + n;
  }

  /** The reused array when it holds enough rows to start with, otherwise a new one. */
  method PrepareValues(valuesBuf: array<Cell>, numCols: nat, maxRows: nat, initialRows: nat)
    returns (values: array<Cell>, rowCapacity: nat)
    requires initialRows <= maxRows
    ensures values == valuesBuf || fresh(values)
    ensures rowCapacity * numCols <= values.Length
  {
    if numCols == 0 {
      values, rowCapacity := valuesBuf, maxRows;
      return;
    }
    rowCapacity := valuesBuf.Length / numCols;
    if rowCapacity >= initialRows {
      values := valuesBuf;
      assert valuesBuf.Length == rowCapacity * numCols + valuesBuf.Length % numCols;
    } else {
      rowCapacity := initialRows;
      MulMonotone(0, rowCapacity, numCols);
      values := new Cell[rowCapacity * numCols](_ => Null);
    }
  }

  method FetchRowsReuse(env: Env, r: Reader, descs: seq<ColumnDescriptor>, fetchSize: int, valuesBuf: array<Cell>, scratch: array<byte>)
    returns (rows: seq<Window>, values: array<Cell>, result: FetchResult)
    requires r.Valid() && ValidColumns(descs) && scratch != r.buf
    modifies r, r.buf, r.rd, scratch, valuesBuf
    ensures r.Valid() && (r.buf == old(r.buf) || fresh(r.buf)) && (old(r.rd.Productive()) ==> r.rd.Productive())
    ensures values == valuesBuf || fresh(values)
    ensures result.Fetched? ==> r.err.None?
    ensures result.Fetched? ==>
              var b := TakeBatch(env, descs, old(r.Pending()));
              b.Batch? && b.eof == result.eof && b.rest == r.Pending() && Holds(rows, values, |descs|, b.rows)
    ensures old(r.err).None? && old(r.rd.Productive()) ==>
              (result.Fetched? <==> TakeBatch(env, descs, old(r.Pending())).Batch?)
  {
    hide TakeBatch, DecodeRow, TakeHeader, Holds, PrependRows;
    ghost var whole := TakeBatch(env, descs, r.Pending());
    ghost var spec: seq<Row> := [];
    AlongStart(env, descs, r.Pending());
    var numCols := |descs|;
    var maxRows := if fetchSize < 0 then 0 else fetchSize;
    var initialRows := if maxRows > 8 then 8 else maxRows;
    var rowCapacity: nat;
    values, rowCapacity := PrepareValues(valuesBuf, numCols, maxRows, initialRows);
    rows := [];
    HoldsNothing(values, numCols);
    while true
      invariant r.Valid() && (r.buf == old(r.buf) || fresh(r.buf)) && (old(r.rd.Productive()) ==> r.rd.Productive())
      invariant values == valuesBuf || fresh(values)
      invariant rowCapacity * numCols <= values.Length && (r.err.None? <==> old(r.err).None?)
      invariant Holds(rows, values, numCols, spec) && Along(env, descs, whole, spec, r.Pending())
      decreases |r.Pending()|
    {
      var end;
      values, rows, rowCapacity, end, spec := FetchStep(env, r, descs, scratch, maxRows, values, rows, rowCapacity, spec);
      if end.Some? {
        return rows, values, end.value;
      }
    }
  }

  /** One message of the batch and, when it announces one, the row behind it. */
  method FetchStep(env: Env, r: Reader, descs: seq<ColumnDescriptor>, scratch: array<byte>, maxRows: nat,
                   values: array<Cell>, rows: seq<Window>, rowCapacity: nat, ghost spec: seq<Row>)
    returns (values': array<Cell>, rows': seq<Window>, capacity: nat, end: Option<FetchResult>, ghost spec': seq<Row>)
    requires r.Valid() && ValidColumns(descs) && scratch != r.buf
    requires Holds(rows, values, |descs|, spec) && rowCapacity * |descs| <= values.Length
    modifies r, r.buf, r.rd, scratch, values
    ensures r.Valid() && (r.buf == old(r.buf) || fresh(r.buf)) && (old(r.rd.Productive()) ==> r.rd.Productive())
    ensures values' == values || fresh(values')
    ensures end == None ==>
      && r.err.None? && old(r.err).None? && |r.Pending()| < |old(r.Pending())| && capacity * |descs| <= values'.Length
      && Holds(rows', values', |descs|, spec')
      && PrependRows(spec, TakeBatch(env, descs, old(r.Pending()))) == PrependRows(spec', TakeBatch(env, descs, r.Pending()))
    ensures end.Some? && end.value.Fetched? ==>
      && r.err.None? && Holds(rows', values', |descs|, spec')
      && PrependRows(spec, TakeBatch(env, descs, old(r.Pending()))) == Batch(spec', end.value.eof, r.Pending())
    ensures old(r.err).None? && old(r.rd.Productive()) && end.Some? && !end.value.Fetched? ==>
      !PrependRows(spec, TakeBatch(env, descs, old(r.Pending()))).Batch?
  {
    hide TakeBatch, DecodeRow, TakeHeader, Holds, PrependRows;
    values', rows', capacity, spec' := values, rows, rowCapacity, spec;
    ghost var p := r.Pending();
    var h := ReadHeader(r);
    BatchFails(env, descs, p, spec);
    if r.err.Some? || h == Garbled {
      end := Some(Failure);
      return;
    }
    if h == ErrorFollows {
      end := Some(ServerError);
      return;
    }
    if h.BatchEnds? {
      FinalMessage(env, descs, p, h.eof, r.Pending(), spec);
      end := Some(Fetched(h.eof));
      return;
    }
    values', rows', capacity := EnsureCapacity(values, rows, |descs|, maxRows, rowCapacity, spec);
    ghost var data := r.Pending();
    ghost var row;
    rows', row := FetchRow(env, r, descs, scratch, values', rows', spec, capacity);
    if r.err.Some? {
      end := Some(Failure);
      return;
    }
    BatchStep(env, descs, p, spec, row, r.Pending(), data);
    spec', end := spec + [row], None;
  }

  lemma AlongStart(env: Env, descs: seq<ColumnDescriptor>, p: Bytes)
    requires ValidColumns(descs)
    ensures Along(env, descs, TakeBatch(env, descs, p), [], p)
  {
    hide TakeBatch;
    var whole := TakeBatch(env, descs, p);
    if whole.Batch? {
      assert [] + whole.rows == whole.rows;
    }
  }

  lemma HoldsNothing(values: array<Cell>, n: nat)
    ensures Holds([], values, n, [])
  {
  }

  method EnsureCapacity(values: array<Cell>, rows: seq<Window>, n: nat, maxRows: nat, rowCapacity: nat, ghost spec: seq<Row>)
    returns (values': array<Cell>, rows': seq<Window>, capacity: nat)
    requires Holds(rows, values, n, spec) && rowCapacity * n <= values.Length
    ensures values' == values || fresh(values')
    ensures Holds(rows', values', n, spec) && capacity * n <= values'.Length && (n == 0 || |rows'| < capacity)
  {
    values', rows', capacity := values, rows, rowCapacity;
    if n > 0 && |rows| >= rowCapacity {
      capacity := GrownCapacity(rowCapacity, maxRows, |rows|);
      values', rows' := GrowValues(values, rows, n, capacity, spec);
    }
  }

  lemma RoomForRow(rows: nat, capacity: nat, n: nat)
    requires n == 0 || rows < capacity
    ensures 0 <= rows * n && rows * n + n <= capacity * n
  {
    MulMonotone(0, rows, n);
    if n == 0 {
      assert rows * n == 0 == capacity * n;
    } else {
      MulMonotone(rows + 1, capacity, n);
      assert (rows + 1) * n == rows * n + n;
    }
  }

  /** Decodes the next row behind those already there. */
  method FetchRow(env: Env, r: Reader, descs: seq<ColumnDescriptor>, scratch: array<byte>, values: array<Cell>, rows: seq<Window>,
                  ghost spec: seq<Row>, ghost rowCapacity: nat)
    returns (rows': seq<Window>, ghost row: Row)
    requires r.Valid() && ValidColumns(descs) && scratch != r.buf && Holds(rows, values, |descs|, spec)
    requires rowCapacity * |descs| <= values.Length && (|descs| == 0 || |rows| < rowCapacity)
    modifies r, r.buf, r.rd, scratch, values
    ensures r.Valid() && (r.buf == old(r.buf) || fresh(r.buf)) && (old(r.rd.Productive()) ==> r.rd.Productive())
    ensures Consumed(DecodeRow(env, descs, old(r.Pending())), row, r.Pending(),
                     old(r.err).Some?, r.err.Some?, old(r.rd.Productive()))
    ensures r.err.None? ==> Holds(rows', values, |descs|, spec + [row])
  {
    hide DecodeRow, DecodeFrom;
    var n := |descs|;
    RoomForRow(|rows|, rowCapacity, n);
    FlattenWidth(spec, n);
    var at := |rows| * n;
    ReadRow(env, r, descs, scratch, values, at);
    row := values[at..at + n];
    AppendRow(rows, values, n, spec, row);
    rows' := rows + [Window(values, at, at + n)];
  }
}
