/** The stack encoder, the size estimate, and the choice between stack and heap. */
module ParamStack {
  import opened Common
  import opened DateTime
  import opened DecimalText
  import opened Numeric
  import opened Descriptors
  import opened Int128
  import opened NullBitmap
  import opened Xdr
  import opened Writers
  import opened RowFormat
  import opened RowRoundTrip
  import opened ParamEncoder

  // ---------------------------------------------------------------------------
  // What the stack encoder does, as a function
  // ---------------------------------------------------------------------------

  /** Column data in the fixed buffer; `dropped` records a DOUBLE that was skipped in silence. */
  datatype Stack = Stack(data: Bytes, overflow: bool, dropped: bool)

  function AppendPiece(room: nat, st: Stack, b: Bytes): Stack {
    if room < |st.data| + |b| then st.(overflow := true) else st.(data := st.data + b)
  }

  function AppendPieces(room: nat, st: Stack, pieces: seq<Bytes>): Stack
    decreases |pieces|
  {
    if pieces == [] then st else AppendPieces(room, AppendPiece(room, st, pieces[0]), pieces[1..])
  }

  /** A TEXT field that does not fit is not even converted; a DOUBLE that does not fit raises no flag. */
  function StackValue(env: Env, room: nat, st: Stack, d: ColumnDescriptor, v: Value): Result<Stack, EncodeError>
    requires v.Valid() && ValidColumn(d)
  {
    var t := d.BaseType();
    if t == SQL_TEXT && room < |st.data| + d.length + PadLength(d.length) then Ok(st.(overflow := true))
    else
      var pieces :- Pieces(env, d, v);
      if t == SQL_DOUBLE && room < |st.data| + 8 then Ok(st.(dropped := true))
      else Ok(AppendPieces(room, st, pieces))
  }

  ghost function StackFrom(env: Env, descs: seq<ColumnDescriptor>, values: seq<Value>, room: nat, i: nat, st: Stack)
    : Result<Stack, EncodeError>
    requires i <= |descs| && ValidValues(values) && ValidColumns(descs)
    decreases |descs| - i
  {
    if i == |descs| then Ok(st)
    else if IsNil(values, i) then StackFrom(env, descs, values, room, i + 1, st)
    else
      var st' :- StackValue(env, room, st, descs[i], values[i]);
      StackFrom(env, descs, values, room, i + 1, st')
  }

  const EMPTY_STACK := Stack([], false, false)

  ghost function StackRow(env: Env, descs: seq<ColumnDescriptor>, values: seq<Value>): Result<Stack, EncodeError>
    requires ValidValues(values) && ValidColumns(descs)
  {
    if STACK_SIZE < PaddedSize(|descs|) then Ok(EMPTY_STACK.(overflow := true))
    else StackFrom(env, descs, values, STACK_SIZE - PaddedSize(|descs|), 0, EMPTY_STACK)
  }

  // ---------------------------------------------------------------------------
  // The estimate
  // ---------------------------------------------------------------------------

  function Padded(n: nat): nat { n + PadLength(n) }

  function EstimateValueSize(env: Env, d: ColumnDescriptor, v: Value): nat
    requires ValidColumn(d)
  {
    var t := d.BaseType();
    if t == SQL_SHORT || t == SQL_LONG || t == SQL_FLOAT || t == SQL_TYPE_DATE || t == SQL_TYPE_TIME then 4
    else if t == SQL_DOUBLE || t == SQL_TIMESTAMP || t == SQL_BLOB || t == SQL_INT64 then 8
    else if t == SQL_TIME_TZ || t == SQL_TIME_TZ_EX then 12
    else if t == SQL_TIMESTAMP_TZ || t == SQL_TIMESTAMP_TZ_EX then 16
    else if t == SQL_DEC16 || t == SQL_DEC34 then 4 + Padded(|env.utf8(ToText(env, v))|)
    else if t == SQL_INT128 then 16
    else if t == SQL_TEXT then Padded(d.length)
    else if t == SQL_VARYING then
      match v
      case VText(s) => 4 + Padded(|env.utf8(s)|)
      case VBytes(b) => 4 + Padded(|b|)
      case _ => 4 + Padded(32)
    else if t == SQL_BOOLEAN then 4
    else 32
  }

  ghost function EstimateFrom(env: Env, descs: seq<ColumnDescriptor>, values: seq<Value>, i: nat): nat
    requires i <= |descs| && ValidColumns(descs)
    decreases |descs| - i
  {
    if i == |descs| then 0
    else if IsNil(values, i) then EstimateFrom(env, descs, values, i + 1)
    else EstimateValueSize(env, descs[i], values[i]) + EstimateFrom(env, descs, values, i + 1)
  }

  ghost function ParamSize(env: Env, descs: seq<ColumnDescriptor>, values: seq<Value>): nat
    requires ValidColumns(descs)
  {
    PaddedSize(|descs|) + EstimateFrom(env, descs, values, 0)
  }

  method EstimateParamSize(env: Env, descs: seq<ColumnDescriptor>, values: seq<Value>) returns (size: nat)
    requires ValidColumns(descs)
    ensures size == ParamSize(env, descs, values)
  {
    size := PaddedSize(|descs|);
    for i := 0 to |descs|
      invariant size + EstimateFrom(env, descs, values, i) == ParamSize(env, descs, values)
    {
      if i >= |values| || values[i].Nil? {
        continue;
      }
      size := size + EstimateValueSize(env, descs[i], values[i]);
    }
  }

  /** What the caller ends up with. */
  ghost function Optimal(env: Env, descs: seq<ColumnDescriptor>, values: seq<Value>): Result<Bytes, EncodeError>
    requires ValidValues(values) && ValidColumns(descs)
  {
    if ParamSize(env, descs, values) <= STACK_SIZE then
      match StackRow(env, descs, values)
      case Err(e) => Err(e)
      case Ok(st) =>
        if st.overflow then EncodeRow(env, descs, values)
        else Ok(Bitmap(NullMarks(|descs|, values), |descs|) + st.data)
    else EncodeRow(env, descs, values)
  }

  // ---------------------------------------------------------------------------
  // Agreement with the heap encoder
  // ---------------------------------------------------------------------------

  lemma {:induction false} PiecesFit(room: nat, st: Stack, pieces: seq<Bytes>)
    ensures var r := AppendPieces(room, st, pieces);
            r.dropped == st.dropped && (st.overflow ==> r.overflow)
            && (!r.overflow ==> r.data == st.data + Flatten(pieces))
            && (!st.overflow && |st.data| + |Flatten(pieces)| <= room ==> !r.overflow)
            && (!r.overflow && |st.data| <= room ==> |r.data| <= room)
    decreases |pieces|
  {
    if pieces == [] {
      assert st.data + Flatten(pieces) == st.data;
    } else {
      PiecesFit(room, AppendPiece(room, st, pieces[0]), pieces[1..]);
      assert st.data + pieces[0] + Flatten(pieces[1..]) == st.data + (pieces[0] + Flatten(pieces[1..]));
    }
  }

  lemma DoubleSize(env: Env, d: ColumnDescriptor, v: Value)
    requires v.Valid() && d.BaseType() == SQL_DOUBLE && EncodeValue(env, d, v).Ok?
    ensures |EncodeValue(env, d, v).value| == 8
  {
    FlattenOne(EncodeValue(env, d, v).value);
    FlattenOne(Pieces(env, d, v).value[0]);
  }

  /** One value: the stack either appends the heap's bytes, raises the flag, or drops a DOUBLE. */
  lemma StackStep(env: Env, room: nat, st: Stack, d: ColumnDescriptor, v: Value)
    requires v.Valid() && ValidColumn(d)
    ensures var r, h := StackValue(env, room, st, d, v), EncodeValue(env, d, v);
            (r.Err? ==> h.Err?)
            && (r.Ok? && !r.value.overflow ==>
                  h.Ok? && !st.overflow
                  && ((r.value.data == st.data + h.value && r.value.dropped == st.dropped)
                      || (r.value.data == st.data && r.value.dropped && |h.value| == 8)))
            && (r.Ok? ==> (st.overflow ==> r.value.overflow) && (st.dropped ==> r.value.dropped))
            && (r.Ok? && h.Ok? && !st.overflow && |st.data| + |h.value| <= room ==>
                  !r.value.overflow && r.value.dropped == st.dropped)
  {
    hide Pieces;
    var pieces := Pieces(env, d, v);
    if pieces.Ok? {
      PiecesFit(room, st, pieces.value);
      if d.BaseType() == SQL_DOUBLE {
        DoubleSize(env, d, v);
      }
      if d.BaseType() == SQL_TEXT {
        TextSize(env, d, v);
      }
    }
  }

  lemma TextSize(env: Env, d: ColumnDescriptor, v: Value)
    requires v.Valid() && ValidColumn(d) && d.BaseType() == SQL_TEXT && EncodeValue(env, d, v).Ok?
    ensures |EncodeValue(env, d, v).value| == d.length + PadLength(d.length)
  {
    FlattenOne(Pieces(env, d, v).value[0]);
  }

  /** From column `i` on: with no overflow the stack holds the heap's bytes, less eight per dropped DOUBLE. */
  lemma {:induction false} StackAgrees(env: Env, descs: seq<ColumnDescriptor>, values: seq<Value>, room: nat, i: nat, st: Stack)
    requires i <= |descs| && ValidValues(values) && ValidColumns(descs)
    ensures var r, h := StackFrom(env, descs, values, room, i, st), EncodeFrom(env, descs, values, i);
            (r.Err? ==> h.Err?)
            && (r.Ok? ==> (st.overflow ==> r.value.overflow) && (st.dropped ==> r.value.dropped))
            && (r.Ok? && !r.value.overflow ==> h.Ok? && |r.value.data| <= |st.data| + |h.value|)
            && (r.Ok? && !r.value.overflow && !r.value.dropped ==> r.value.data == st.data + h.value)
            && (r.Ok? && !r.value.overflow && r.value.dropped && !st.dropped ==> |r.value.data| < |st.data| + |h.value|)
    decreases |descs| - i
  {
    hide StackValue, EncodeValue;
    if i == |descs| {
      assert st.data + [] == st.data;
    } else if IsNil(values, i) {
      StackAgrees(env, descs, values, room, i + 1, st);
    } else {
      StackStep(env, room, st, descs[i], values[i]);
      var r := StackValue(env, room, st, descs[i], values[i]);
      if r.Ok? {
        StackAgrees(env, descs, values, room, i + 1, r.value);
        var h, t := EncodeValue(env, descs[i], values[i]), EncodeFrom(env, descs, values, i + 1);
        if h.Ok? && t.Ok? {
          assert st.data + h.value + t.value == st.data + (h.value + t.value);
        }
      }
    }
  }

  // ---------------------------------------------------------------------------
  // When a DOUBLE is dropped, in terms of encoded sizes
  // ---------------------------------------------------------------------------

  /** The encoded size of a value; nothing for NULL. */
  ghost function SizeAt(env: Env, descs: seq<ColumnDescriptor>, values: seq<Value>, i: nat): nat
    requires i < |descs| && ValidValues(values) && ValidColumns(descs)
  {
    if IsNil(values, i) || EncodeValue(env, descs[i], values[i]).Err? then 0
    else |EncodeValue(env, descs[i], values[i]).value|
  }

  ghost function SizeBefore(env: Env, descs: seq<ColumnDescriptor>, values: seq<Value>, i: nat): nat
    requires i <= |descs| && ValidValues(values) && ValidColumns(descs)
  {
    if i == 0 then 0 else SizeBefore(env, descs, values, i - 1) + SizeAt(env, descs, values, i - 1)
  }

  /** The encoded size of everything but DOUBLEs from column `i` on. */
  ghost function OthersFrom(env: Env, descs: seq<ColumnDescriptor>, values: seq<Value>, i: nat): nat
    requires i <= |descs| && ValidValues(values) && ValidColumns(descs)
    decreases |descs| - i
  {
    if i == |descs| then 0
    else (if descs[i].BaseType() == SQL_DOUBLE then 0 else SizeAt(env, descs, values, i))
         + OthersFrom(env, descs, values, i + 1)
  }

  /** A DOUBLE for which less than 8 bytes are left, with room for everything after it that is no DOUBLE. */
  ghost predicate Squeezed(env: Env, descs: seq<ColumnDescriptor>, values: seq<Value>, room: int, k: nat)
    requires k < |descs| && ValidValues(values) && ValidColumns(descs)
  {
    && !IsNil(values, k) && descs[k].BaseType() == SQL_DOUBLE
    && room < SizeBefore(env, descs, values, k) + 8
    && SizeBefore(env, descs, values, k) + OthersFrom(env, descs, values, k + 1) <= room
  }

  ghost predicate SomeSqueezed(env: Env, descs: seq<ColumnDescriptor>, values: seq<Value>, room: int, i: nat)
    requires ValidValues(values) && ValidColumns(descs)
  {
    exists k :: i <= k < |descs| && Squeezed(env, descs, values, room, k)
  }

  /**
   * The guard of the silent branch, before anything is encoded on the stack: the row encodes, its estimate fits
   * the 1024 bytes, and some DOUBLE is squeezed out of them.
   */
  ghost predicate DropsDouble(env: Env, descs: seq<ColumnDescriptor>, values: seq<Value>)
    requires ValidValues(values) && ValidColumns(descs)
  {
    && ParamSize(env, descs, values) <= STACK_SIZE && EncodeRow(env, descs, values).Ok?
    && SomeSqueezed(env, descs, values, STACK_SIZE - PaddedSize(|descs|), 0)
  }

  lemma StackExact(env: Env, room: nat, st: Stack, d: ColumnDescriptor, v: Value)
    requires v.Valid() && ValidColumn(d) && EncodeValue(env, d, v).Ok? && !st.overflow && |st.data| <= room
    ensures var r, b := StackValue(env, room, st, d, v), EncodeValue(env, d, v).value;
            && r.Ok?
            && (d.BaseType() == SQL_DOUBLE ==> |b| == 8)
            && (if |st.data| + |b| <= room then r.value == st.(data := st.data + b)
                else if d.BaseType() == SQL_DOUBLE then r.value == st.(dropped := true)
                else r.value.overflow)
  {
    hide Pieces;
    var pieces := Pieces(env, d, v).value;
    PiecesFit(room, st, pieces);
    if d.BaseType() == SQL_DOUBLE {
      DoubleSize(env, d, v);
    } else if d.BaseType() == SQL_TEXT {
      TextSize(env, d, v);
    }
  }

  lemma {:induction false} SizesGrow(env: Env, descs: seq<ColumnDescriptor>, values: seq<Value>, i: nat, k: nat)
    requires i <= k <= |descs| && ValidValues(values) && ValidColumns(descs)
    ensures SizeBefore(env, descs, values, i) <= SizeBefore(env, descs, values, k)
  {
    if i < k {
      SizesGrow(env, descs, values, i, k - 1);
    }
  }

  lemma {:induction false} OverflowStays(env: Env, descs: seq<ColumnDescriptor>, values: seq<Value>, room: nat, i: nat, st: Stack)
    requires i <= |descs| && ValidValues(values) && ValidColumns(descs) && st.overflow
    ensures var r := StackFrom(env, descs, values, room, i, st); r.Ok? ==> r.value.overflow
    decreases |descs| - i
  {
    StackAgrees(env, descs, values, room, i, st);
  }

  /** After a DOUBLE was dropped every later one is, and all else is appended while it fits. */
  lemma {:induction false} AfterDrop(env: Env, descs: seq<ColumnDescriptor>, values: seq<Value>, room: nat, i: nat, st: Stack)
    requires i <= |descs| && ValidValues(values) && ValidColumns(descs) && EncodeFrom(env, descs, values, i).Ok?
    requires !st.overflow && st.dropped && |st.data| <= room < |st.data| + 8
    ensures var r := StackFrom(env, descs, values, room, i, st);
            && (r.Ok? && !r.value.overflow ==> r.value.dropped)
            && (r.Ok? && !r.value.overflow <==> |st.data| + OthersFrom(env, descs, values, i) <= room)
    decreases |descs| - i
  {
    hide StackValue, EncodeValue;
    if i == |descs| {
    } else if IsNil(values, i) {
      AfterDrop(env, descs, values, room, i + 1, st);
    } else {
      EncodesEach(env, descs, values, i);
      StackExact(env, room, st, descs[i], values[i]);
      var r := StackValue(env, room, st, descs[i], values[i]).value;
      if r.overflow {
        OverflowStays(env, descs, values, room, i + 1, r);
      } else {
        AfterDrop(env, descs, values, room, i + 1, r);
      }
    }
  }

  lemma EncodesEach(env: Env, descs: seq<ColumnDescriptor>, values: seq<Value>, i: nat)
    requires i < |descs| && ValidValues(values) && ValidColumns(descs) && !IsNil(values, i)
    requires EncodeFrom(env, descs, values, i).Ok?
    ensures EncodeValue(env, descs[i], values[i]).Ok? && EncodeFrom(env, descs, values, i + 1).Ok?
  {
    hide EncodeValue;
  }

  lemma NoLaterSqueeze(env: Env, descs: seq<ColumnDescriptor>, values: seq<Value>, room: nat, i: nat)
    requires i <= |descs| && ValidValues(values) && ValidColumns(descs)
    requires room < SizeBefore(env, descs, values, i)
    ensures !SomeSqueezed(env, descs, values, room, i)
  {
    hide EncodeValue;
    forall k | i <= k < |descs| ensures !Squeezed(env, descs, values, room, k) {
      SizesGrow(env, descs, values, i, k);
    }
  }

  /** Before any drop the buffer holds what the heap would; what happens next is decided by sizes alone. */
  lemma {:induction false} BeforeDrop(env: Env, descs: seq<ColumnDescriptor>, values: seq<Value>, room: nat, i: nat, st: Stack)
    requires i <= |descs| && ValidValues(values) && ValidColumns(descs) && EncodeFrom(env, descs, values, i).Ok?
    requires !st.overflow && !st.dropped && |st.data| == SizeBefore(env, descs, values, i) <= room
    ensures var r := StackFrom(env, descs, values, room, i, st);
            r.Ok? && !r.value.overflow && r.value.dropped
            <==> SomeSqueezed(env, descs, values, room, i)
    decreases |descs| - i
  {
    hide StackValue, EncodeValue, OthersFrom;
    if i == |descs| {
    } else if IsNil(values, i) {
      SqueezedAt(env, descs, values, room, i);
      BeforeDrop(env, descs, values, room, i + 1, st);
    } else {
      EncodesEach(env, descs, values, i);
      StackExact(env, room, st, descs[i], values[i]);
      SqueezedAt(env, descs, values, room, i);
      var r := StackValue(env, room, st, descs[i], values[i]).value;
      if |st.data| + SizeAt(env, descs, values, i) <= room {
        BeforeDrop(env, descs, values, room, i + 1, r);
      } else {
        NoLaterSqueeze(env, descs, values, room, i + 1);
        if r.overflow {
          OverflowStays(env, descs, values, room, i + 1, r);
        } else {
          AfterDrop(env, descs, values, room, i + 1, r);
        }
      }
    }
  }

  lemma SqueezedAt(env: Env, descs: seq<ColumnDescriptor>, values: seq<Value>, room: nat, i: nat)
    requires i < |descs| && ValidValues(values) && ValidColumns(descs)
    ensures SomeSqueezed(env, descs, values, room, i)
            <==> Squeezed(env, descs, values, room, i) || SomeSqueezed(env, descs, values, room, i + 1)
    ensures Squeezed(env, descs, values, room, i) <==>
              && !IsNil(values, i) && descs[i].BaseType() == SQL_DOUBLE
              && room < SizeBefore(env, descs, values, i) + 8
              && SizeBefore(env, descs, values, i) + OthersFrom(env, descs, values, i + 1) <= room
  {
  }

  /** What the stack encoder's run does is what the sizes say. */
  lemma DropsExactly(env: Env, descs: seq<ColumnDescriptor>, values: seq<Value>)
    requires ValidValues(values) && ValidColumns(descs) && ParamSize(env, descs, values) <= STACK_SIZE
    ensures DropsDouble(env, descs, values) <==>
              var r := StackRow(env, descs, values); r.Ok? && !r.value.overflow && r.value.dropped
  {
    hide StackFrom, EncodeFrom, PaddedSize, EstimateFrom, SomeSqueezed;
    var room := STACK_SIZE - PaddedSize(|descs|);
    StackAgrees(env, descs, values, room, 0, EMPTY_STACK);
    if EncodeFrom(env, descs, values, 0).Ok? {
      BeforeDrop(env, descs, values, room, 0, EMPTY_STACK);
    }
  }

  /** Whichever path is picked, the result is the heap encoder's, exactly unless a DOUBLE is dropped. */
  lemma OptimalAgrees(env: Env, descs: seq<ColumnDescriptor>, values: seq<Value>)
    requires ValidValues(values) && ValidColumns(descs)
    ensures var o, h := Optimal(env, descs, values), EncodeRow(env, descs, values);
            (o == h || (o.Err? && h.Err?)) <==> !DropsDouble(env, descs, values)
  {
    hide StackFrom, EncodeFrom, PaddedSize, EstimateFrom, DropsDouble, Bitmap;
    if STACK_SIZE < ParamSize(env, descs, values) {
      DropsNothing(env, descs, values);
      return;
    }
    DropsExactly(env, descs, values);
    StackAgrees(env, descs, values, STACK_SIZE - PaddedSize(|descs|), 0, EMPTY_STACK);
    var run, heap := StackRow(env, descs, values), EncodeFrom(env, descs, values, 0);
    if run.Ok? && !run.value.overflow {
      var bitmap := Bitmap(NullMarks(|descs|, values), |descs|);
      assert EMPTY_STACK.data + heap.value == heap.value;
      assert |bitmap + run.value.data| == |bitmap + heap.value| <==> !run.value.dropped;
    }
  }

  lemma DropsNothing(env: Env, descs: seq<ColumnDescriptor>, values: seq<Value>)
    requires ValidValues(values) && ValidColumns(descs) && STACK_SIZE < ParamSize(env, descs, values)
    ensures !DropsDouble(env, descs, values)
  {
  }

  /** A list whose values all keep to their estimated sizes never takes the silent branch. */
  lemma EstimatedListsAgree(env: Env, descs: seq<ColumnDescriptor>, values: seq<Value>)
    requires ValidValues(values) && ValidColumns(descs)
    requires forall i :: 0 <= i < |descs| && !IsNil(values, i) ==> KeepsEstimate(env, descs[i], values[i])
    ensures !DropsDouble(env, descs, values)
  {
    hide StackFrom, EstimateFrom, PaddedSize, KeepsEstimate, DropsDouble;
    if STACK_SIZE < ParamSize(env, descs, values) {
      DropsNothing(env, descs, values);
    } else {
      DropsExactly(env, descs, values);
      NothingDropped(env, descs, values, STACK_SIZE - PaddedSize(|descs|), 0, EMPTY_STACK);
    }
  }

  ghost predicate KeepsEstimate(env: Env, d: ColumnDescriptor, v: Value)
    requires v.Valid() && ValidColumn(d)
  {
    EncodeValue(env, d, v).Ok? ==> |EncodeValue(env, d, v).value| <= EstimateValueSize(env, d, v)
  }

  lemma {:induction false} NothingDropped(env: Env, descs: seq<ColumnDescriptor>, values: seq<Value>, room: nat, i: nat, st: Stack)
    requires i <= |descs| && ValidValues(values) && ValidColumns(descs)
    requires forall k :: 0 <= k < |descs| && !IsNil(values, k) ==> KeepsEstimate(env, descs[k], values[k])
    requires !st.overflow && !st.dropped && |st.data| + EstimateFrom(env, descs, values, i) <= room
    ensures var r := StackFrom(env, descs, values, room, i, st);
            r.Ok? ==> !r.value.overflow && !r.value.dropped
    decreases |descs| - i
  {
    hide StackValue, EncodeValue, EstimateValueSize;
    if i == |descs| {
    } else if IsNil(values, i) {
      NothingDropped(env, descs, values, room, i + 1, st);
    } else {
      StackStep(env, room, st, descs[i], values[i]);
      StackNeverDrops(env, room, st, descs[i], values[i]);
      var r := StackValue(env, room, st, descs[i], values[i]);
      if r.Ok? {
        NothingDropped(env, descs, values, room, i + 1, r.value);
      }
    }
  }

  lemma StackNeverDrops(env: Env, room: nat, st: Stack, d: ColumnDescriptor, v: Value)
    requires v.Valid() && ValidColumn(d) && !st.overflow && !st.dropped
    requires KeepsEstimate(env, d, v) && |st.data| + EstimateValueSize(env, d, v) <= room
    ensures var r := StackValue(env, room, st, d, v);
            r.Ok? ==> EncodeValue(env, d, v).Ok? && !r.value.overflow && !r.value.dropped
                      && |r.value.data| <= |st.data| + EstimateValueSize(env, d, v)
  {
    hide Pieces;
    StackStep(env, room, st, d, v);
  }

  /** The estimate is never too small for the types it knows and text that keeps its UTF-8 form. */
  lemma EstimateCovers(env: Env, d: ColumnDescriptor, v: Value)
    requires v.Valid() && ValidColumn(d) && v != Nil
    requires IsListed(d.BaseType()) || d.BaseType() == SQL_DEC16 || d.BaseType() == SQL_DEC34
    requires d.BaseType() == SQL_VARYING ==> v.VBytes? || (v.VText? && IsIdentityCharset(d.CharsetId()))
    ensures KeepsEstimate(env, d, v)
  {
    hide Pieces, TextBytes, PadLength, ToText;
    if EncodeValue(env, d, v).Ok? {
      SizeOfPieces(Pieces(env, d, v).value);
      var t := d.BaseType();
      if t == SQL_TEXT {
        TextSize(env, d, v);
      } else if t == SQL_VARYING || t == SQL_DEC16 || t == SQL_DEC34 {
        BufferSizes(env, d, v);
      } else {
        FixedSizes(env, d, v);
      }
    }
  }

  lemma BufferSizes(env: Env, d: ColumnDescriptor, v: Value)
    requires v.Valid() && ValidColumn(d) && v != Nil && Pieces(env, d, v).Ok?
    requires d.BaseType() == SQL_VARYING || d.BaseType() == SQL_DEC16 || d.BaseType() == SQL_DEC34
    requires d.BaseType() == SQL_VARYING ==> v.VBytes? || (v.VText? && IsIdentityCharset(d.CharsetId()))
    ensures var p := Pieces(env, d, v).value;
            |p| == 1 && |p[0]| <= EstimateValueSize(env, d, v)
  {
    hide Int32Bytes, PadLength;
    if d.BaseType() == SQL_VARYING {
      var data := FieldBytes(env, d, v);
      assert v.VText? && v.s != "" ==> data == env.utf8(v.s);
      EmptyPad();
    }
  }

  lemma EmptyPad()
    ensures PadLength(0) == 0
  {
  }

  lemma FixedSizes(env: Env, d: ColumnDescriptor, v: Value)
    requires v.Valid() && ValidColumn(d) && v != Nil && Pieces(env, d, v).Ok? && IsListed(d.BaseType())
    requires d.BaseType() != SQL_TEXT && d.BaseType() != SQL_VARYING
    ensures var p := Pieces(env, d, v).value;
            1 <= |p| <= 4
            && |p[0]| + (if 1 < |p| then |p[1]| else 0) + (if 2 < |p| then |p[2]| else 0) + (if 3 < |p| then |p[3]| else 0)
               <= EstimateValueSize(env, d, v)
  {
    hide Int32Bytes, Int64Bytes, Int128Bytes, NumericInt64, Int128Text, CivilToUnixDays, TimeToTicks, ToText;
  }

  lemma SizeOfPieces(p: seq<Bytes>)
    ensures |p| == 1 ==> |Flatten(p)| == |p[0]|
    ensures |p| == 2 ==> |Flatten(p)| == |p[0]| + |p[1]|
    ensures |p| == 3 ==> |Flatten(p)| == |p[0]| + |p[1]| + |p[2]|
    ensures |p| == 4 ==> |Flatten(p)| == |p[0]| + |p[1]| + |p[2]| + |p[3]|
  {
    if |p| == 1 {
      assert p == [p[0]];
      FlattenOne(p[0]);
    } else if 1 < |p| <= 4 {
      SizeOfPieces(p[1..]);
    }
  }

  // ---------------------------------------------------------------------------
  // The silent branch
  // ---------------------------------------------------------------------------

  /** 1016 bytes bound to a type the driver does not know fill the buffer; the DOUBLE after them vanishes. */
  lemma DoubleVanishes(env: Env, d: ColumnDescriptor)
    requires ValidColumn(d)
    ensures var descs := [d.(sqlType := 540), d.(sqlType := SQL_DOUBLE)];
            var values := [VBytes(Repeat(0, 1016)), VFloat(0)];
            ValidColumns(descs) && ValidValues(values) && DropsDouble(env, descs, values)
  {
    hide Int32Bytes, Int64Bytes;
    var descs := [d.(sqlType := 540), d.(sqlType := SQL_DOUBLE)];
    var data := Repeat<byte>(0, 1016);
    var values := [VBytes(data), VFloat(0)];
    var st := Stack(BufferBytes(data), false, false);
    assert Pieces(env, descs[0], values[0]) == Ok([BufferBytes(data)]);
    assert AppendPieces(1020, EMPTY_STACK, [BufferBytes(data)]) == st by {
      assert [] + BufferBytes(data) == BufferBytes(data);
      assert [BufferBytes(data)][1..] == [];
    }
    assert StackValue(env, 1020, st, descs[1], values[1]) == Ok(st.(dropped := true));
    assert StackFrom(env, descs, values, 1020, 2, st.(dropped := true)) == Ok(st.(dropped := true));
    assert StackFrom(env, descs, values, 1020, 1, st) == Ok(st.(dropped := true));
    assert EstimateFrom(env, descs, values, 2) == 0;
    assert EstimateFrom(env, descs, values, 1) == 8;
    assert EstimateFrom(env, descs, values, 0) == 40;
    DropsExactly(env, descs, values);
  }

  // ---------------------------------------------------------------------------
  // The methods
  // ---------------------------------------------------------------------------

  /** The buffer holds the bitmap, the column data and the flag of `st`. */
  ghost predicate Holds(sw: StackWriter, bitmap: Bytes, st: Stack)
    requires sw.Valid()
    reads sw, sw.buf
  {
    sw.Written() == bitmap + st.data && sw.overflow == st.overflow && |bitmap| <= STACK_SIZE
  }

  /** What a value leaves behind, given what was there before. */
  ghost predicate StackStepped(env: Env, d: ColumnDescriptor, v: Value, sw: StackWriter, bitmap: Bytes, st: Stack, error: Outcome)
    requires sw.Valid() && v.Valid() && ValidColumn(d)
    reads sw, sw.buf
  {
    |bitmap| <= STACK_SIZE
    && match StackValue(env, STACK_SIZE - |bitmap|, st, d, v)
       case Err(e) => error == Some(e)
       case Ok(st') => error == None && Holds(sw, bitmap, st')
  }

  method PushPiece(sw: StackWriter, b: Bytes, ghost bitmap: Bytes, ghost st: Stack)
    requires sw.Valid() && Holds(sw, bitmap, st)
    modifies sw, sw.buf
    ensures sw.Valid() && Holds(sw, bitmap, AppendPiece(STACK_SIZE - |bitmap|, st, b))
  {
    sw.WriteRaw(b);
    assert bitmap + st.data + b == bitmap + (st.data + b);
  }

  lemma OnePiece(room: nat, st: Stack, b: Bytes)
    ensures AppendPieces(room, st, [b]) == AppendPiece(room, st, b)
  {
    assert [b][1..] == [];
  }

  method EncodeValueStack(env: Env, sw: StackWriter, d: ColumnDescriptor, v: Value, ghost bitmap: Bytes, ghost st: Stack)
    returns (error: Outcome)
    requires sw.Valid() && env.Valid() && v.Valid() && ValidColumn(d) && Holds(sw, bitmap, st)
    modifies sw, sw.buf
    ensures sw.Valid() && StackStepped(env, d, v, sw, bitmap, st, error)
  {
    var t := d.BaseType();
    if t == SQL_SHORT || t == SQL_LONG || t == SQL_INT64 {
      error := EncodeIntegerStack(env, sw, d, v, bitmap, st);
    } else if t == SQL_TYPE_DATE || t == SQL_TYPE_TIME || t == SQL_TIMESTAMP {
      error := EncodeTimeStack(env, sw, d, v, bitmap, st);
    } else if t == SQL_TIMESTAMP_TZ || t == SQL_TIMESTAMP_TZ_EX || t == SQL_TIME_TZ || t == SQL_TIME_TZ_EX {
      error := EncodeZonedStack(env, sw, d, v, bitmap, st);
    } else if t == SQL_TEXT {
      error := EncodeTextStack(env, sw, d, v, bitmap, st);
    } else {
      error := EncodeOtherStack(env, sw, d, v, bitmap, st);
    }
  }

  method EncodeIntegerStack(env: Env, sw: StackWriter, d: ColumnDescriptor, v: Value, ghost bitmap: Bytes, ghost st: Stack)
    returns (error: Outcome)
    requires sw.Valid() && v.Valid() && ValidColumn(d) && Holds(sw, bitmap, st)
    requires d.BaseType() == SQL_SHORT || d.BaseType() == SQL_LONG || d.BaseType() == SQL_INT64
    modifies sw, sw.buf
    ensures sw.Valid() && StackStepped(env, d, v, sw, bitmap, st, error)
  {
    hide NumericInt64, Int32Bytes, Int64Bytes, AppendPieces, AppendPiece;
    var t := d.BaseType();
    var n := ConvertNumeric(env, v, d.scale);
    if n.Err? {
      return Some(n.error);
    }
    if t == SQL_SHORT && (n.value < -0x8000 || n.value > 0x7FFF) {
      return Some(BadNumber(Overflow));
    }
    if t == SQL_LONG && (n.value < -TWO_31 || n.value > TWO_31 - 1) {
      return Some(BadNumber(Overflow));
    }
    var b := if t == SQL_INT64 then Int64Bytes(n.value) else Int32Bytes(n.value);
    OnePiece(STACK_SIZE - |bitmap|, st, b);
    PushPiece(sw, b, bitmap, st);
    error := None;
  }

  method EncodeTimeStack(env: Env, sw: StackWriter, d: ColumnDescriptor, v: Value, ghost bitmap: Bytes, ghost st: Stack)
    returns (error: Outcome)
    requires sw.Valid() && v.Valid() && ValidColumn(d) && Holds(sw, bitmap, st)
    requires d.BaseType() == SQL_TYPE_DATE || d.BaseType() == SQL_TYPE_TIME || d.BaseType() == SQL_TIMESTAMP
    modifies sw, sw.buf
    ensures sw.Valid() && StackStepped(env, d, v, sw, bitmap, st, error)
  {
    hide Int32Bytes, AppendPieces, AppendPiece, CivilToUnixDays, TimeToTicks;
    if !v.VTime? {
      return Some(Unsupported);
    }
    var t, m := d.BaseType(), v.t;
    ghost var room := STACK_SIZE - |bitmap|;
    ghost var mjd, ticks := Int32Bytes(DateToMJD(m.localDate)), Int32Bytes(TimeToTicks(m.localClock));
    ghost var st1 := AppendPiece(room, st, mjd);
    OnePiece(room, st, mjd);
    OnePiece(room, st, ticks);
    TwoPieces(room, st, mjd, ticks);
    if t == SQL_TYPE_DATE || t == SQL_TIMESTAMP {
      PushPiece(sw, Int32Bytes(DateToMJD(m.localDate)), bitmap, st);
    }
    if t == SQL_TYPE_TIME || t == SQL_TIMESTAMP {
      PushPiece(sw, Int32Bytes(TimeToTicks(m.localClock)), bitmap, if t == SQL_TYPE_TIME then st else st1);
    }
    error := None;
  }

  lemma TwoPieces(room: nat, st: Stack, a: Bytes, b: Bytes)
    ensures AppendPieces(room, st, [a, b]) == AppendPiece(room, AppendPiece(room, st, a), b)
  {
    assert [a, b][1..] == [b];
    OnePiece(room, AppendPiece(room, st, a), b);
  }

  lemma ThreePieces(room: nat, st: Stack, a: Bytes, b: Bytes, c: Bytes)
    ensures AppendPieces(room, st, [a, b, c]) == AppendPiece(room, AppendPiece(room, AppendPiece(room, st, a), b), c)
  {
    assert [a, b, c][1..] == [b, c];
    TwoPieces(room, AppendPiece(room, st, a), b, c);
  }

  lemma FourPieces(room: nat, st: Stack, a: Bytes, b: Bytes, c: Bytes, d: Bytes)
    ensures AppendPieces(room, st, [a, b, c, d]) == AppendPieces(room, AppendPiece(room, st, a), [b, c, d])
  {
    assert [a, b, c, d][1..] == [b, c, d];
  }

  method EncodeZonedStack(env: Env, sw: StackWriter, d: ColumnDescriptor, v: Value, ghost bitmap: Bytes, ghost st: Stack)
    returns (error: Outcome)
    requires sw.Valid() && v.Valid() && ValidColumn(d) && Holds(sw, bitmap, st)
    requires d.BaseType() == SQL_TIMESTAMP_TZ || d.BaseType() == SQL_TIMESTAMP_TZ_EX
             || d.BaseType() == SQL_TIME_TZ || d.BaseType() == SQL_TIME_TZ_EX
    modifies sw, sw.buf
    ensures sw.Valid() && StackStepped(env, d, v, sw, bitmap, st, error)
  {
    hide Int32Bytes, AppendPieces, AppendPiece, CivilToUnixDays, TimeToTicks, OffsetZone;
    if !v.VTime? {
      return Some(Unsupported);
    }
    var t, m := d.BaseType(), v.t;
    ghost var room := STACK_SIZE - |bitmap|;
    ghost var mjd := Int32Bytes(DateToMJD(m.utcDate));
    var x, y, z := Int32Bytes(TimeToTicks(m.utcClock)), Int32Bytes(OffsetZone(m.offset)), Int32Bytes(GoDiv(m.offset, 60));
    ghost var st0 := st;
    FourPieces(room, st, mjd, x, y, z);
    if t == SQL_TIMESTAMP_TZ || t == SQL_TIMESTAMP_TZ_EX {
      PushPiece(sw, Int32Bytes(DateToMJD(m.utcDate)), bitmap, st);
      st0 := AppendPiece(room, st, mjd);
    }
    ThreePieces(room, st0, x, y, z);
    PushPiece(sw, x, bitmap, st0);
    PushPiece(sw, y, bitmap, AppendPiece(room, st0, x));
    PushPiece(sw, z, bitmap, AppendPiece(room, AppendPiece(room, st0, x), y));
    error := None;
  }

  method EncodeTextStack(env: Env, sw: StackWriter, d: ColumnDescriptor, v: Value, ghost bitmap: Bytes, ghost st: Stack)
    returns (error: Outcome)
    requires sw.Valid() && v.Valid() && ValidColumn(d) && Holds(sw, bitmap, st) && d.BaseType() == SQL_TEXT
    modifies sw, sw.buf
    ensures sw.Valid() && StackStepped(env, d, v, sw, bitmap, st, error)
  {
    hide FittingText, PadLength, AppendPieces;
    if sw.n + d.length + PadLength(d.length) > sw.buf.Length {
      sw.overflow := true;
      return None;
    }
    error := WriteTextStack(env, sw, d, v);
    if error.None? {
      ghost var field := TextField(d, FieldBytes(env, d, v));
      OnePiece(STACK_SIZE - |bitmap|, st, field);
      assert bitmap + st.data + field == bitmap + (st.data + field);
    }
  }

  method WriteTextStack(env: Env, sw: StackWriter, d: ColumnDescriptor, v: Value) returns (error: Outcome)
    requires sw.Valid() && ValidColumn(d) && sw.n + d.length + PadLength(d.length) <= STACK_SIZE
    modifies sw`n, sw.buf
    ensures sw.Valid()
    ensures error == match FittingText(env, d, v) case Ok(_) => None case Err(e) => Some(e)
    ensures error.None? ==> sw.Written() == old(sw.Written()) + TextField(d, FieldBytes(env, d, v))
  {
    hide FittingText, PadLength;
    var pad := PadLength(d.length);
    ghost var before := sw.Written();
    error := CopyTextParam(env, sw.buf, sw.n, d, v);
    if error.Some? {
      return;
    }
    sw.n := sw.n + d.length;
    CopyInto(sw.buf, sw.n, Repeat(0, pad));
    sw.n := sw.n + pad;
    ghost var data := FieldBytes(env, d, v);
    Associate(before, data, Repeat(0x20, d.length - |data|), Repeat(0, pad));
  }

  method EncodeOtherStack(env: Env, sw: StackWriter, d: ColumnDescriptor, v: Value, ghost bitmap: Bytes, ghost st: Stack)
    returns (error: Outcome)
    requires sw.Valid() && env.Valid() && v.Valid() && ValidColumn(d) && Holds(sw, bitmap, st)
    requires IsOther(d) && d.BaseType() != SQL_TEXT
    modifies sw, sw.buf
    ensures sw.Valid() && StackStepped(env, d, v, sw, bitmap, st, error)
  {
    hide Int128Text, ScaledBigIntOf, Int128Bytes, Int32Bytes, Int64Bytes, PaddedBuffer, ToText, CharsetEncode, AppendPieces, AppendPiece;
    var t := d.BaseType();
    var b: Bytes;
    if t == SQL_FLOAT || t == SQL_DOUBLE {
      var f := FloatValue(env, v);
      if f.Err? {
        return Some(f.error);
      }
      if t == SQL_DOUBLE && sw.n + 8 > sw.buf.Length {
        return None;
      }
      b := if t == SQL_FLOAT then Int32Bytes(env.float32(f.value)) else Int64Bytes(f.value);
    } else if t == SQL_BOOLEAN {
      b := Int32Bytes(if ToBool(v) then 0x100_0000 else 0);
    } else if t == SQL_VARYING {
      var text := TextBytes(env, d, v);
      if text.Err? {
        return Some(text.error);
      }
      if |text.value| > d.length {
        return Some(TooLongForColumn);
      }
      b := PaddedBuffer(text.value, PaddingByte(d));
    } else if t == SQL_BLOB {
      b := Int64Bytes(ToInt64(env, v));
    } else if t == SQL_INT128 {
      var data := ConvertInt128(env, v, d.scale);
      if data.Err? {
        return Some(data.error);
      }
      b := data.value;
    } else if t == SQL_DEC16 || t == SQL_DEC34 || !v.VBytes? {
      b := BufferBytes(env.utf8(ToText(env, v)));
    } else {
      b := BufferBytes(v.bytes);
    }
    OnePiece(STACK_SIZE - |bitmap|, st, b);
    PushPiece(sw, b, bitmap, st);
    error := None;
  }

  method EncodeNamedParamsStackErr(env: Env, sw: StackWriter, descs: seq<ColumnDescriptor>, values: seq<Value>) returns (error: Outcome)
    requires sw.Valid() && sw.Written() == [] && !sw.overflow
    requires env.Valid() && ValidColumns(descs) && ValidValues(values)
    modifies sw, sw.buf
    ensures sw.Valid()
    ensures match StackRow(env, descs, values)
            case Err(e) => error == Some(e)
            case Ok(st) =>
              && error == None && sw.overflow == st.overflow
              && (!st.overflow ==> sw.Written() == Bitmap(NullMarks(|descs|, values), |descs|) + st.data)
  {
    hide StackValue, PaddedSize, Bitmap;
    ghost var marks := NullMarks(|descs|, values);
    var padded := PaddedSize(|descs|);
    if sw.n + padded > sw.buf.Length {
      sw.overflow := true;
      return None;
    }
    CopyInto(sw.buf, sw.n, Repeat(0, padded));
    sw.n := sw.n + padded;
    ghost var room, st := STACK_SIZE - padded, EMPTY_STACK;
    assert Bitmap(marks, 0) == Repeat(0, padded) by {
      EmptyBitmap(marks);
    }
    var i := 0;
    while i < |descs|
      invariant i <= |descs| && sw.Valid() && Holds(sw, Bitmap(marks, i), st)
      invariant StackFrom(env, descs, values, room, i, st) == StackRow(env, descs, values)
    {
      if i >= |values| || values[i].Nil? {
        BitmapCovers(marks, i);
        MarkedBit(marks, i);
        MarkStackBit(sw, i, Bitmap(marks, i), st);
      } else {
        error := EncodeValueStack(env, sw, descs[i], values[i], Bitmap(marks, i), st);
        if error.Some? {
          return;
        }
        UnmarkedBit(marks, i);
        st := StackValue(env, room, st, descs[i], values[i]).value;
      }
      i := i + 1;
    }
    error := None;
  }

  lemma EmptyBitmap(marks: seq<bool>)
    ensures Bitmap(marks, 0) == Repeat(0, PaddedSize(|marks|))
  {
  }

  method MarkStackBit(sw: StackWriter, i: nat, ghost bitmap: Bytes, ghost st: Stack)
    requires sw.Valid() && Holds(sw, bitmap, st) && i / 8 < |bitmap|
    modifies sw.buf
    ensures sw.Valid() && Holds(sw, Mark(bitmap, i), st)
  {
    hide SetBit;
    ghost var s := sw.Written();
    assert s[i / 8] == sw.buf[i / 8] == bitmap[i / 8];
    sw.buf[i / 8] := SetBit(sw.buf[i / 8], i % 8);
    assert sw.Written() == s[i / 8 := SetBit(s[i / 8], i % 8)];
    assert [] + bitmap + st.data == bitmap + st.data && [] + Mark(bitmap, i) + st.data == Mark(bitmap, i) + st.data;
    MarkWithin([], bitmap, st.data, i);
  }

  /** The stack when the estimate allows it and it did not overflow, the heap otherwise. */
  method EncodeParamsOptimalErr(env: Env, sw: StackWriter, descs: seq<ColumnDescriptor>, values: seq<Value>)
    returns (r: Result<Bytes, EncodeError>)
    requires sw.Valid() && env.Valid() && ValidColumns(descs) && ValidValues(values)
    modifies sw, sw.buf
    ensures sw.Valid() && r == Optimal(env, descs, values)
  {
    hide StackRow, EncodeRow, ParamSize, Bitmap;
    var size := EstimateParamSize(env, descs, values);
    if size <= STACK_SIZE {
      sw.Reset();
      var error := EncodeNamedParamsStackErr(env, sw, descs, values);
      if error.Some? {
        return Err(error.value);
      }
      if !sw.overflow {
        return Ok(sw.buf[..sw.n]);
      }
    }
    var w := new Writer();
    var error := EncodeNamedParamsErr(env, w, descs, values);
    if error.Some? {
      return Err(error.value);
    }
    r := Ok(w.buf[..w.n]);
    ghost var h := EncodeRow(env, descs, values).value;
    assert [] + h == h;
  }
}
