/** The describe buffer of a prepared statement: its items and their parsing. */
module DescribeParser {
  import opened Common
  import opened Descriptors

  const INFO_END := 1
  const INFO_TRUNCATED := 2
  const SQL_SELECT := 4
  const SQL_BIND := 5
  const SQL_NUM_VARIABLES := 6
  const SQL_DESCRIBE_VARS := 7
  const SQL_DESCRIBE_END := 8
  const SQLDA_SEQ := 9
  const SQLDA_TYPE := 11
  const SQLDA_SUB_TYPE := 12
  const SQLDA_SCALE := 13
  const SQLDA_LENGTH := 14
  const SQLDA_NULL_IND := 15
  const SQLDA_FIELD := 16
  const SQLDA_RELATION := 17
  const SQLDA_OWNER := 18
  const SQLDA_ALIAS := 19
  const SQLDA_START := 20
  const SQL_STMT_TYPE := 21
  const MAX_DESCRIBE_COLUMNS := 4096

  const EMPTY_COLUMN := ColumnDescriptor([], [], [], [], 0, 0, 0, 0, false, false)

  /** A little-endian number of 0, 1, 2 or at least 4 bytes; three bytes count as one. */
  function ReadInfoInt32LE(data: Bytes): int {
    if |data| == 0 then 0
    else if |data| == 1 || |data| == 3 then data[0]
    else if |data| == 2 then LE16(data[0], data[1])
    else Wrap32(LE16(data[0], data[1]) + 0x10000 * LE16(data[2], data[3]))
  }

  function DescribeCount(v: int): (n: nat)
    ensures n <= MAX_DESCRIBE_COLUMNS
  {
    if v <= 0 || MAX_DESCRIBE_COLUMNS < v then 0 else v
  }

  // ---------------------------------------------------------------------------
  // Accumulated state
  // ---------------------------------------------------------------------------

  /** One section of a statement: its descriptors, how many there should be, how many are complete. */
  datatype Section = Section(columns: seq<ColumnDescriptor>, total: nat, done: nat)

  datatype State = State(stmtType: int, outputs: Section, inputs: Section)

  const EMPTY_SECTION := Section([], 0, 0)
  const INITIAL := State(0, EMPTY_SECTION, EMPTY_SECTION)

  datatype Place = Nowhere | Outputs | Inputs

  /** The parser's position: the state, the section being read and the descriptor being filled. */
  datatype Scan = Scan(st: State, place: Place, current: Option<nat>) {
    function Here(): Section
      requires place != Nowhere
    {
      if place == Outputs then st.outputs else st.inputs
    }

    function WithHere(s: Section): Scan
      requires place != Nowhere
    {
      if place == Outputs then this.(st := st.(outputs := s)) else this.(st := st.(inputs := s))
    }
  }

  function SetField(d: ColumnDescriptor, tag: int, data: Bytes): ColumnDescriptor {
    if tag == SQLDA_TYPE then d.(sqlType := ReadInfoInt32LE(data))
    else if tag == SQLDA_SUB_TYPE then d.(subType := ReadInfoInt32LE(data))
    else if tag == SQLDA_SCALE then d.(scale := ReadInfoInt32LE(data))
    else if tag == SQLDA_LENGTH then d.(length := ReadInfoInt32LE(data))
    else if tag == SQLDA_NULL_IND then d.(nullable := ReadInfoInt32LE(data) != 0)
    else if tag == SQLDA_FIELD then d.(fieldName := data)
    else if tag == SQLDA_RELATION then d.(relationName := data)
    else if tag == SQLDA_OWNER then d.(ownerName := data)
    else if tag == SQLDA_ALIAS then d.(aliasName := data)
    else d
  }

  predicate IsFieldTag(tag: int) { SQLDA_TYPE <= tag <= SQLDA_ALIAS }

  predicate IsMarker(tag: int) { tag == SQL_SELECT || tag == SQL_BIND || tag == SQL_DESCRIBE_END }

  /** Markers carry no data. */
  function ApplyMarker(tag: int, sc: Scan): Scan {
    if tag == SQL_SELECT then sc.(place := Outputs, current := None)
    else if tag == SQL_BIND then sc.(place := Inputs, current := None)
    else if sc.current.Some? && sc.place != Nowhere then
      var h := sc.Here();
      sc.WithHere(h.(done := h.done + 1)).(current := None)
    else sc.(current := None)
  }

  function Extend(columns: seq<ColumnDescriptor>, n: nat): (r: seq<ColumnDescriptor>)
    ensures |r| == if |columns| < n then n else |columns|
  {
    if |columns| < n then columns + Repeat(EMPTY_COLUMN, n - |columns|) else columns
  }

  function ApplyItem(tag: int, data: Bytes, sc: Scan): Scan {
    if tag == SQL_STMT_TYPE then sc.(st := sc.st.(stmtType := ReadInfoInt32LE(data)))
    else if sc.place == Nowhere then sc
    else
      var h := sc.Here();
      if tag == SQL_NUM_VARIABLES || tag == SQL_DESCRIBE_VARS then
        sc.WithHere(h.(total := DescribeCount(ReadInfoInt32LE(data))))
      else if tag == SQLDA_SEQ then
        var n := DescribeCount(ReadInfoInt32LE(data));
        if n == 0 || (0 < h.total < n) then sc.(current := None)
        else sc.WithHere(h.(columns := Extend(h.columns, n))).(current := Some(n - 1))
      else if IsFieldTag(tag) && sc.current.Some? && sc.current.value < |h.columns| then
        sc.WithHere(h.(columns := h.columns[sc.current.value := SetField(h.columns[sc.current.value], tag, data)]))
      else sc
  }

  /** The state at the end of a buffer, and whether it ends by announcing truncation. */
  function ParseFrom(buf: Bytes, sc: Scan): (State, bool)
    decreases |buf|
  {
    if buf == [] || buf[0] == INFO_END then (sc.st, false)
    else if buf[0] == INFO_TRUNCATED then (sc.st, true)
    else if IsMarker(buf[0]) then ParseFrom(buf[1..], ApplyMarker(buf[0], sc))
    else if |buf| < 3 || |buf| < 3 + LE16(buf[1], buf[2]) then (sc.st, false)
    else
      var length := LE16(buf[1], buf[2]);
      ParseFrom(buf[3 + length..], ApplyItem(buf[0], buf[3..3 + length], sc))
  }

  function ParseChunk(buf: Bytes, st: State): (State, bool) {
    ParseFrom(buf, Scan(st, Nowhere, None))
  }

  /** Accumulates describe data over the initial buffer and its continuations. */
  class DescribeState {
    var st: State

    constructor ()
      ensures st == INITIAL
    {
      st := INITIAL;
    }

    method ParseSQLDescribeChunk(buf: Bytes) returns (truncated: bool)
      modifies this
      ensures (st, truncated) == ParseChunk(buf, old(st))
    {
      var pos := 0;
      var sc := Scan(st, Nowhere, None);
      assert buf[0..] == buf;
      while pos < |buf|
        invariant pos <= |buf| && ParseFrom(buf[pos..], sc) == ParseChunk(buf, old(st)) && st == sc.st
        decreases |buf| - pos
      {
        var tag := buf[pos];
        ghost var rest := buf[pos..];
        assert rest[0] == tag && rest[1..] == buf[pos + 1..];
        if tag == INFO_END {
          return false;
        }
        if tag == INFO_TRUNCATED {
          return true;
        }
        pos := pos + 1;
        if IsMarker(tag) {
          sc := ApplyMarker(tag, sc);
          st := sc.st;
          continue;
        }
        if pos + 2 > |buf| {
          return false;
        }
        var length := LE16(buf[pos], buf[pos + 1]);
        assert rest[1] == buf[pos] && rest[2] == buf[pos + 1];
        pos := pos + 2;
        if pos + length > |buf| {
          return false;
        }
        assert rest[3..3 + length] == buf[pos..pos + length] && rest[3 + length..] == buf[pos + length..];
        sc := ApplyItem(tag, buf[pos..pos + length], sc);
        st := sc.st;
        pos := pos + length;
      }
      truncated := false;
    }
  }

  // ---------------------------------------------------------------------------
  // Describe buffers as token lists
  // ---------------------------------------------------------------------------

  datatype Token = Marker(tag: byte) | Item(tag: byte, data: Bytes) {
    predicate Valid() {
      match this
      case Marker(t) => IsMarker(t)
      case Item(t, data) => !IsMarker(t) && t != INFO_END && t != INFO_TRUNCATED && |data| < 65536
    }

    function Encode(): Bytes
      requires Valid()
    {
      match this
      case Marker(t) => [t]
      case Item(t, data) => [t, |data| % 256, |data| / 256] + data
    }
  }

  ghost predicate ValidTokens(ts: seq<Token>) {
    forall i :: 0 <= i < |ts| ==> ts[i].Valid()
  }

  function EncodeTokens(ts: seq<Token>): Bytes
    requires ValidTokens(ts)
  {
    if ts == [] then [] else ts[0].Encode() + EncodeTokens(ts[1..])
  }

  function Apply(t: Token, sc: Scan): Scan {
    match t
    case Marker(tag) => ApplyMarker(tag, sc)
    case Item(tag, data) => ApplyItem(tag, data, sc)
  }

  function ApplyAll(ts: seq<Token>, sc: Scan): Scan {
    if ts == [] then sc else ApplyAll(ts[1..], Apply(ts[0], sc))
  }

  lemma {:induction false} ApplyConcat(a: seq<Token>, b: seq<Token>, sc: Scan)
    ensures ApplyAll(a + b, sc) == ApplyAll(b, ApplyAll(a, sc))
    decreases |a|
  {
    if a == [] {
      assert a + b == b;
    } else {
      assert (a + b)[1..] == a[1..] + b;
      ApplyConcat(a[1..], b, Apply(a[0], sc));
    }
  }

  /** Parsing the bytes of a token list applies the tokens one after the other. */
  lemma {:induction false} ParseTokens(ts: seq<Token>, end: byte, sc: Scan)
    requires ValidTokens(ts) && (end == INFO_END || end == INFO_TRUNCATED)
    ensures ParseFrom(EncodeTokens(ts) + [end], sc) == (ApplyAll(ts, sc).st, end == INFO_TRUNCATED)
    decreases |ts|
  {
    if ts == [] {
      assert EncodeTokens(ts) + [end] == [end];
    } else {
      var rest := EncodeTokens(ts[1..]) + [end];
      assert EncodeTokens(ts) + [end] == ts[0].Encode() + rest;
      ParseToken(ts[0], rest, sc);
      ParseTokens(ts[1..], end, Apply(ts[0], sc));
    }
  }

  lemma ParseToken(t: Token, rest: Bytes, sc: Scan)
    requires t.Valid()
    ensures ParseFrom(t.Encode() + rest, sc) == ParseFrom(rest, Apply(t, sc))
  {
    hide ApplyItem, ApplyMarker;
    var buf := t.Encode() + rest;
    match t
    case Marker(tag) =>
      assert buf[1..] == rest;
    case Item(tag, data) =>
      LE16RoundTrip(|data|);
      assert buf[3..3 + |data|] == data && buf[3 + |data|..] == rest;
  }
}
