/** Describing columns given as plain descriptors: what the server writes, number by number, is what comes back. */
module DescribeNumbers {
  import opened Common
  import opened Descriptors
  import opened DescribeParser
  import opened Describe

  /** A 32-bit number as Firebird writes it: four bytes, the lowest first, negative numbers in two's complement. */
  function LittleEndian(v: int): (b: Bytes)
    ensures |b| == 4
  {
    var u := v % TWO_32;
    [u % 256, u / 256 % 256, u / 65536 % 256, u / 16777216]
  }

  /** The parser reads every 32-bit number back, whatever follows it, and small ones of one byte or two; of three it reads one. */
  lemma NumbersRead(v: int)
    requires IsInt32(v)
    ensures forall more :: ReadInfoInt32LE(LittleEndian(v) + more) == v
    ensures ReadInfoInt32LE(LittleEndian(v)) == v
    ensures 0 <= v < 65536 ==> ReadInfoInt32LE([v % 256, v / 256]) == v
    ensures 0 <= v < 256 ==> ReadInfoInt32LE([v]) == v
    ensures ReadInfoInt32LE([]) == 0
    ensures 0 <= v < 256 ==> forall x: byte, y: byte :: ReadInfoInt32LE([v, x, y]) == v
  {
    hide Wrap32, LittleEndian;
    forall more ensures ReadInfoInt32LE(LittleEndian(v) + more) == v {
      WideRead(v, more);
    }
    assert LittleEndian(v) + [] == LittleEndian(v);
    if 0 <= v < 65536 {
      LE16RoundTrip(v);
    }
  }

  lemma WideRead(v: int, more: Bytes)
    requires IsInt32(v)
    ensures ReadInfoInt32LE(LittleEndian(v) + more) == v
  {
    var u, b := v % TWO_32, LittleEndian(v) + more;
    FourBytes(u);
    assert u == if v < 0 then v + TWO_32 else v;
    assert LE16(b[0], b[1]) + 0x10000 * LE16(b[2], b[3]) == u;
    Unwrapped(v, u);
  }

  lemma Unwrapped(v: int, u: int)
    requires IsInt32(v) && u == if v < 0 then v + TWO_32 else v
    ensures Wrap32(u) == v
  {
  }

  lemma FourBytes(u: nat)
    requires u < TWO_32
    ensures u % 256 + 256 * (u / 256 % 256) + 65536 * (u / 65536 % 256 + 256 * (u / 16777216)) == u
  {
    assert u / 65536 == u / 256 / 256 && u / 16777216 == u / 65536 / 256;
  }

  // ---------------------------------------------------------------------------
  // A server's description of given columns
  // ---------------------------------------------------------------------------

  predicate Describable(d: ColumnDescriptor) {
    && IsInt32(d.sqlType) && IsInt32(d.subType) && IsInt32(d.scale) && IsInt32(d.length) && !d.subTypeFromNone
    && |d.fieldName| < 65536 && |d.relationName| < 65536 && |d.ownerName| < 65536 && |d.aliasName| < 65536
  }

  /** What the driver asks of every column and of every parameter, under the numbers Firebird gives the items. */
  const OUTPUT_FIELDS: Bytes := [11, 12, 13, 14, 15, 16, 19]
  const INPUT_FIELDS: Bytes := [11, 12, 13, 14]

  /** Both requests, byte by byte. */
  lemma Requested()
    ensures PREPARE_ITEMS == [21] + [4, 6, 7, 9] + OUTPUT_FIELDS + [8] + [5, 6, 7, 9] + INPUT_FIELDS + [8]
    ensures PREPARE_EXEC_ITEMS == [21] + [5, 6, 7, 9] + INPUT_FIELDS + [8]
  {
    assert COLUMN_ITEMS == [9] + OUTPUT_FIELDS + [8] && PARAMETER_ITEMS == [9] + INPUT_FIELDS + [8];
    assert SELECT_HEAD == [4, 6, 7] && BIND_HEAD == [5, 6, 7];
    assert [4, 6, 7] + [9] == [4, 6, 7, 9] && [5, 6, 7] + [9] == [5, 6, 7, 9];
  }

  /** One item of a descriptor. */
  function ItemFor(tag: byte, d: ColumnDescriptor): Token
    requires 11 <= tag <= 19
  {
    Item(tag, if tag == 11 then LittleEndian(d.sqlType)
              else if tag == 12 then LittleEndian(d.subType)
              else if tag == 13 then LittleEndian(d.scale)
              else if tag == 14 then LittleEndian(d.length)
              else if tag == 15 then LittleEndian(if d.nullable then 1 else 0)
              else if tag == 16 then d.fieldName
              else if tag == 17 then d.relationName
              else if tag == 18 then d.ownerName
              else d.aliasName)
  }

  /** The server sends the items it was asked for, in the order asked. */
  function FieldsOf(d: ColumnDescriptor, asked: Bytes): seq<Token> {
    if asked == [] then []
    else (if 11 <= asked[0] <= 19 then [ItemFor(asked[0], d)] else []) + FieldsOf(d, asked[1..])
  }

  /** `c` where nothing was asked, `d` where something was. */
  function Told(d: ColumnDescriptor, asked: Bytes, c: ColumnDescriptor): ColumnDescriptor {
    ColumnDescriptor(
      if 16 in asked then d.fieldName else c.fieldName,
      if 17 in asked then d.relationName else c.relationName,
      if 18 in asked then d.ownerName else c.ownerName,
      if 19 in asked then d.aliasName else c.aliasName,
      if 11 in asked then d.sqlType else c.sqlType,
      if 12 in asked then d.subType else c.subType,
      if 13 in asked then d.scale else c.scale,
      if 14 in asked then d.length else c.length,
      if 15 in asked then d.nullable else c.nullable,
      c.subTypeFromNone)
  }

  /** Whatever is asked for comes back as it is. */
  lemma {:induction false} FieldsDescribe(d: ColumnDescriptor, asked: Bytes, c: ColumnDescriptor)
    requires Describable(d)
    ensures FieldTokens(FieldsOf(d, asked)) && ApplyFields(FieldsOf(d, asked), c) == Told(d, asked, c)
    decreases |asked|
  {
    hide ItemFor, SetField, Told;
    if asked == [] {
      ToldNothing(d, c);
    } else {
      var tag, rest := asked[0], asked[1..];
      assert asked == [tag] + rest;
      ToldNext(d, tag, rest, c);
      if 11 <= tag <= 19 {
        FieldDescribes(d, tag, c);
        var item := ItemFor(tag, d);
        assert FieldsOf(d, asked)[1..] == FieldsOf(d, rest);
        FieldsDescribe(d, rest, SetField(c, tag, item.data));
      } else {
        assert FieldsOf(d, asked) == FieldsOf(d, rest);
        FieldsDescribe(d, rest, c);
      }
    }
  }

  lemma ToldNothing(d: ColumnDescriptor, c: ColumnDescriptor)
    ensures Told(d, [], c) == c
  {
  }

  lemma ToldNext(d: ColumnDescriptor, tag: byte, rest: Bytes, c: ColumnDescriptor)
    ensures Told(d, [tag] + rest, c) == Told(d, rest, Told(d, [tag], c))
    ensures !(11 <= tag <= 19) ==> Told(d, [tag], c) == c
  {
    assert forall t: byte :: t in [tag] + rest <==> t == tag || t in rest;
  }

  lemma FieldDescribes(d: ColumnDescriptor, tag: byte, c: ColumnDescriptor)
    requires Describable(d) && 11 <= tag <= 19
    ensures var item := ItemFor(tag, d);
            && item.Item? && item.tag == tag && item.Valid() && IsFieldTag(tag)
            && SetField(c, tag, item.data) == Told(d, [tag], c)
  {
    hide LittleEndian, ReadInfoInt32LE;
    NumbersRead(d.sqlType);
    NumbersRead(d.subType);
    NumbersRead(d.scale);
    NumbersRead(d.length);
    NumbersRead(if d.nullable then 1 else 0);
  }

  predicate AllDescribable(ds: seq<ColumnDescriptor>) {
    |ds| <= MAX_DESCRIBE_COLUMNS && forall i :: 0 <= i < |ds| ==> Describable(ds[i])
  }

  function VariablesOf(ds: seq<ColumnDescriptor>, asked: Bytes): Variables {
    Variables(LittleEndian(|ds|),
              seq(|ds|, i requires 0 <= i < |ds| => Variable(LittleEndian(i + 1), FieldsOf(ds[i], asked))))
  }

  lemma VariablesDescribe(ds: seq<ColumnDescriptor>, asked: Bytes)
    requires AllDescribable(ds)
    ensures VariablesOf(ds, asked).Valid() && |VariablesOf(ds, asked).Finals()| == |ds|
    ensures forall i :: 0 <= i < |ds| ==> VariablesOf(ds, asked).Finals()[i] == Told(ds[i], asked, EMPTY_COLUMN)
  {
    hide FieldsOf, ReadInfoInt32LE, LittleEndian, Told;
    var vars := VariablesOf(ds, asked);
    NumbersRead(|ds|);
    forall i | 0 <= i < |ds| ensures vars.list[i].Valid(i) && vars.list[i].Final() == Told(ds[i], asked, EMPTY_COLUMN) {
      NumbersRead(i + 1);
      FieldsDescribe(ds[i], asked, EMPTY_COLUMN);
    }
  }

  function StatementOf(stmtType: int, outputs: seq<ColumnDescriptor>, inputs: seq<ColumnDescriptor>): Statement {
    Statement(LittleEndian(stmtType), VariablesOf(outputs, OUTPUT_FIELDS), VariablesOf(inputs, INPUT_FIELDS))
  }

  /**
   * A statement of any type with any columns and parameters, described by the server: following continuations
   * ends, whenever it succeeds, with exactly that type and those descriptors, NONE columns reread.
   */
  method DescribeColumns(stmtType: int, outputs: seq<ColumnDescriptor>, inputs: seq<ColumnDescriptor>,
                         answers: nat -> Answer, buf: Bytes, charset: int, ghost first: Answer)
    returns (r: Option<Described>)
    requires IsInt32(stmtType) && AllDescribable(outputs) && AllDescribable(inputs)
    requires ValidTokens(Tokens(StatementOf(stmtType, outputs, inputs), PREPARE_ITEMS))
    requires Some(buf) == Reply(StatementOf(stmtType, outputs, inputs), PREPARE_ITEMS, first)
    ensures StatementOf(stmtType, outputs, inputs).Valid()
    ensures r.Some? <==> Completes(StatementOf(stmtType, outputs, inputs), PREPARE_ITEMS, first, answers)
    ensures r.Some? ==> |r.value.outputs| == |outputs| && |r.value.inputs| == |inputs| && r.value.stmtType == stmtType
    ensures r.Some? ==> forall i :: 0 <= i < |outputs| ==>
      Reread(r.value.outputs[i], outputs[i].(relationName := [], ownerName := []), charset)
    ensures r.Some? ==> forall i :: 0 <= i < |inputs| ==>
      var d := inputs[i];
      Reread(r.value.inputs[i],
             EMPTY_COLUMN.(sqlType := d.sqlType, subType := d.subType, scale := d.scale, length := d.length), charset)
  {
    hide Serve, Tokens, ParseFrom, Reply, Completes, ApplyNone, VariablesOf, Reread, LittleEndian, ReadInfoInt32LE, Told;
    var stmt := StatementOf(stmtType, outputs, inputs);
    VariablesDescribe(outputs, OUTPUT_FIELDS);
    VariablesDescribe(inputs, INPUT_FIELDS);
    NumbersRead(stmtType);
    WholeReply(stmt, PREPARE_ITEMS);
    r := CompleteSQLDescribe(Server(stmt, answers), buf, PREPARE_ITEMS, charset, first);
    if r.Some? {
      RereadAll(stmt.outputs.Finals(), charset);
      RereadAll(stmt.inputs.Finals(), charset);
      ToldColumns(outputs);
      ToldParameters(inputs);
    }
  }

  lemma ToldColumns(ds: seq<ColumnDescriptor>)
    requires AllDescribable(ds)
    ensures forall i :: 0 <= i < |ds| ==>
      Told(ds[i], OUTPUT_FIELDS, EMPTY_COLUMN) == ds[i].(relationName := [], ownerName := [])
  {
  }

  lemma ToldParameters(ds: seq<ColumnDescriptor>)
    ensures forall i :: 0 <= i < |ds| ==>
      var d := ds[i];
      Told(d, INPUT_FIELDS, EMPTY_COLUMN)
      == EMPTY_COLUMN.(sqlType := d.sqlType, subType := d.subType, scale := d.scale, length := d.length)
  {
  }

  /** Text in character set NONE is marked as read in another one; nothing else changes. */
  predicate Reread(r: ColumnDescriptor, d: ColumnDescriptor, charset: int) {
    if charset != 0 && d.subType == 0 && (d.sqlType / 2 == 452 / 2 || d.sqlType / 2 == 448 / 2) then
      r == d.(subType := charset, subTypeFromNone := true)
    else r == d
  }

  lemma RereadAll(ds: seq<ColumnDescriptor>, charset: int)
    ensures forall i :: 0 <= i < |ds| ==> Reread(ApplyNoneAll(ds, charset)[i], ds[i], charset)
  {
  }
}
