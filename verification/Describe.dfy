/** Resuming a truncated describe: the server's side, the client's loop, and why they meet. */
module Describe {
  import opened Common
  import opened Descriptors
  import opened DescribeParser

  const COLUMN_ITEMS: Bytes := [SQLDA_SEQ, SQLDA_TYPE, SQLDA_SUB_TYPE, SQLDA_SCALE, SQLDA_LENGTH,
                                SQLDA_NULL_IND, SQLDA_FIELD, SQLDA_ALIAS, SQL_DESCRIBE_END]
  const PARAMETER_ITEMS: Bytes := [SQLDA_SEQ, SQLDA_TYPE, SQLDA_SUB_TYPE, SQLDA_SCALE, SQLDA_LENGTH,
                                   SQL_DESCRIBE_END]
  const SELECT_HEAD: Bytes := [SQL_SELECT, SQL_NUM_VARIABLES, SQL_DESCRIBE_VARS]
  const BIND_HEAD: Bytes := [SQL_BIND, SQL_NUM_VARIABLES, SQL_DESCRIBE_VARS]
  const PREPARE_ITEMS: Bytes := [SQL_STMT_TYPE] + SELECT_HEAD + COLUMN_ITEMS + BIND_HEAD + PARAMETER_ITEMS
  const PREPARE_EXEC_ITEMS: Bytes := [SQL_STMT_TYPE] + BIND_HEAD + PARAMETER_ITEMS

  // ---------------------------------------------------------------------------
  // Building the continuation request
  // ---------------------------------------------------------------------------

  /** Before each section marker, the 1-based index of the first descriptor still wanted. */
  function InsertStarts(items: Bytes, nextOutput: nat, nextInput: nat): Bytes {
    if items == [] then []
    else (if items[0] == SQL_SELECT then StartItem(nextOutput)
          else if items[0] == SQL_BIND then StartItem(nextInput)
          else []) + [items[0]] + InsertStarts(items[1..], nextOutput, nextInput)
  }

  function StartItem(index: nat): Bytes {
    [SQLDA_START, 2, index % 256, index / 256 % 256]
  }

  lemma {:induction false} InsertStartsSnoc(items: Bytes, item: byte, nextOutput: nat, nextInput: nat)
    ensures InsertStarts(items + [item], nextOutput, nextInput)
         == InsertStarts(items, nextOutput, nextInput) + InsertStarts([item], nextOutput, nextInput)
  {
    if items == [] {
      assert items + [item] == [item];
    } else {
      assert (items + [item])[1..] == items[1..] + [item];
      InsertStartsSnoc(items[1..], item, nextOutput, nextInput);
    }
  }

  lemma InsertOne(item: byte, nextOutput: nat, nextInput: nat)
    ensures InsertStarts([item], nextOutput, nextInput)
         == (if item == SQL_SELECT then StartItem(nextOutput)
             else if item == SQL_BIND then StartItem(nextInput)
             else []) + [item]
  {
    hide StartItem;
    assert [item][1..] == [];
  }

  lemma InsertNothing(nextOutput: nat, nextInput: nat)
    ensures InsertStarts([], nextOutput, nextInput) == []
  {
  }

  method ItemsWithSqldaStart(items: Bytes, nextOutput: nat, nextInput: nat) returns (out: Bytes)
    ensures out == InsertStarts(items, nextOutput, nextInput)
  {
    hide InsertStarts, StartItem;
    out := [];
    InsertNothing(nextOutput, nextInput);
    for i := 0 to |items|
      invariant out == InsertStarts(items[..i], nextOutput, nextInput)
    {
      var item := items[i];
      InsertStartsSnoc(items[..i], item, nextOutput, nextInput);
      InsertOne(item, nextOutput, nextInput);
      assert items[..i + 1] == items[..i] + [item];
      if item == SQL_SELECT || item == SQL_BIND {
        var index := nextOutput;
        if item == SQL_BIND {
          index := nextInput;
        }
        out := out + StartItem(index);
      }
      out := out + [item];
    }
    assert items[..|items|] == items;
  }

  // ---------------------------------------------------------------------------
  // The server
  // ---------------------------------------------------------------------------

  /** One column or parameter as the server describes it; its number may be encoded in any width. */
  datatype Variable = Variable(number: Bytes, fields: seq<Token>) {
    ghost predicate Valid(position: nat) {
      && |number| < 65536 && ReadInfoInt32LE(number) == position + 1
      && FieldTokens(fields)
    }

    function Tokens(): seq<Token> {
      [Item(SQLDA_SEQ, number)] + fields + [Marker(SQL_DESCRIBE_END)]
    }

    function Final(): ColumnDescriptor { ApplyFields(fields, EMPTY_COLUMN) }
  }

  ghost predicate FieldTokens(fields: seq<Token>) {
    forall i :: 0 <= i < |fields| ==> fields[i].Valid() && fields[i].Item? && IsFieldTag(fields[i].tag)
  }

  datatype Variables = Variables(count: Bytes, list: seq<Variable>) {
    ghost predicate Valid() {
      && |list| <= MAX_DESCRIBE_COLUMNS
      && |count| < 65536 && ReadInfoInt32LE(count) == |list|
      && forall i :: 0 <= i < |list| ==> list[i].Valid(i)
    }

    function Finals(): seq<ColumnDescriptor> { seq(|list|, i requires 0 <= i < |list| => list[i].Final()) }

    /** The descriptors from one position on. */
    function From(start: nat): seq<Token>
      requires start <= |list|
      decreases |list| - start
    {
      if start == |list| then [] else list[start].Tokens() + From(start + 1)
    }

    /** A requested start of 0 or 1 asks for everything; one past the end for nothing. */
    function StartingAt(index: nat): seq<Token> {
      if index == 0 then From(0) else From(Min(index - 1, |list|))
    }
  }

  datatype Statement = Statement(typeData: Bytes, outputs: Variables, inputs: Variables) {
    ghost predicate Valid() {
      |typeData| < 65536 && outputs.Valid() && inputs.Valid()
    }

    function Section(place: Place): Variables
      requires place != Nowhere
    {
      if place == Outputs then outputs else inputs
    }
  }

  /** The server walks the request items and emits what each of them asks for. */
  function Serve(stmt: Statement, items: Bytes, place: Place, start: nat): seq<Token>
    decreases |items|
  {
    if items == [] then []
    else if items[0] == SQLDA_START then
      if |items| < 4 then [] else Serve(stmt, items[4..], place, LE16(items[2], items[3]))
    else if items[0] == SQL_STMT_TYPE then
      [Item(SQL_STMT_TYPE, stmt.typeData)] + Serve(stmt, items[1..], place, start)
    else if items[0] == SQL_SELECT then [Marker(SQL_SELECT)] + Serve(stmt, items[1..], Outputs, start)
    else if items[0] == SQL_BIND then [Marker(SQL_BIND)] + Serve(stmt, items[1..], Inputs, start)
    else if place == Nowhere then Serve(stmt, items[1..], place, start)
    else if items[0] == SQL_NUM_VARIABLES then
      [Item(SQL_NUM_VARIABLES, stmt.Section(place).count)] + Serve(stmt, items[1..], place, start)
    else if items[0] == SQL_DESCRIBE_VARS then
      [Item(SQL_DESCRIBE_VARS, stmt.Section(place).count)] + stmt.Section(place).StartingAt(start)
      + Serve(stmt, items[1..], place, start)
    else Serve(stmt, items[1..], place, start)
  }

  /** Any answer may be cut after any number of tokens, or fail. */
  datatype Answer = Complete | Truncated(kept: nat) | Failed

  function Tokens(stmt: Statement, items: Bytes): seq<Token> { Serve(stmt, items, Nowhere, 0) }

  function Kept(ts: seq<Token>, k: nat): seq<Token> { ts[..Min(k, |ts|)] }

  function Reply(stmt: Statement, items: Bytes, answer: Answer): Option<Bytes>
    requires ValidTokens(Tokens(stmt, items))
  {
    match answer
    case Complete => Some(EncodeTokens(Tokens(stmt, items)) + [INFO_END])
    case Truncated(k) => Some(EncodeTokens(Kept(Tokens(stmt, items), k)) + [INFO_TRUNCATED])
    case Failed => None
  }

  // ---------------------------------------------------------------------------
  // Describing a variable twice is the same as describing it once
  // ---------------------------------------------------------------------------

  function ApplyFields(fields: seq<Token>, d: ColumnDescriptor): ColumnDescriptor {
    if fields == [] then d
    else ApplyFields(fields[1..], if fields[0].Item? then SetField(d, fields[0].tag, fields[0].data) else d)
  }

  lemma {:induction false} ApplyFieldsSnoc(fields: seq<Token>, t: Token, d: ColumnDescriptor)
    requires t.Item?
    ensures ApplyFields(fields + [t], d) == SetField(ApplyFields(fields, d), t.tag, t.data)
  {
    hide SetField;
    if fields == [] {
      assert fields + [t] == [t];
    } else {
      assert (fields + [t])[1..] == fields[1..] + [t];
      ApplyFieldsSnoc(fields[1..], t, if fields[0].Item? then SetField(d, fields[0].tag, fields[0].data) else d);
    }
  }

  /** Every field tag sets one attribute and leaves the others. */
  lemma SetFieldParts(d: ColumnDescriptor, tag: int, data: Bytes)
    ensures SetField(d, tag, data) == ColumnDescriptor(
              if tag == SQLDA_FIELD then data else d.fieldName,
              if tag == SQLDA_RELATION then data else d.relationName,
              if tag == SQLDA_OWNER then data else d.ownerName,
              if tag == SQLDA_ALIAS then data else d.aliasName,
              if tag == SQLDA_TYPE then ReadInfoInt32LE(data) else d.sqlType,
              if tag == SQLDA_SUB_TYPE then ReadInfoInt32LE(data) else d.subType,
              if tag == SQLDA_SCALE then ReadInfoInt32LE(data) else d.scale,
              if tag == SQLDA_LENGTH then ReadInfoInt32LE(data) else d.length,
              if tag == SQLDA_NULL_IND then ReadInfoInt32LE(data) != 0 else d.nullable,
              d.subTypeFromNone)
  {
    hide ReadInfoInt32LE;
  }

  lemma SetFieldTwice(d: ColumnDescriptor, tag: int, x: Bytes, y: Bytes)
    ensures SetField(SetField(d, tag, x), tag, y) == SetField(d, tag, y)
  {
    hide ReadInfoInt32LE, SetField;
    SetFieldParts(d, tag, x);
    SetFieldParts(SetField(d, tag, x), tag, y);
    SetFieldParts(d, tag, y);
  }

  lemma SetFieldCommutes(d: ColumnDescriptor, a: int, x: Bytes, b: int, y: Bytes)
    requires a != b
    ensures SetField(SetField(d, a, x), b, y) == SetField(SetField(d, b, y), a, x)
  {
    hide ReadInfoInt32LE, SetField;
    SetFieldParts(d, a, x);
    SetFieldParts(SetField(d, a, x), b, y);
    SetFieldParts(d, b, y);
    SetFieldParts(SetField(d, b, y), a, x);
  }

  /** A field set beforehand is overwritten if the list sets it at all. */
  lemma {:induction false} Overwrite(fields: seq<Token>, t: Token, data: Bytes, d: ColumnDescriptor)
    requires t in fields && t.Item?
    ensures ApplyFields(fields, SetField(d, t.tag, data)) == ApplyFields(fields, d)
  {
    hide SetField;
    var f := fields[0];
    if f.Item? && f.tag == t.tag {
      SetFieldTwice(d, t.tag, data, f.data);
    } else {
      assert t in fields[1..];
      if f.Item? {
        SetFieldCommutes(d, t.tag, data, f.tag, f.data);
        Overwrite(fields[1..], t, data, SetField(d, f.tag, f.data));
      } else {
        Overwrite(fields[1..], t, data, d);
      }
    }
  }

  /** Restarting after any prefix of the fields ends where an undisturbed run ends. */
  lemma {:induction false} Restart(fields: seq<Token>, k: nat, d: ColumnDescriptor)
    requires FieldTokens(fields) && k <= |fields|
    ensures ApplyFields(fields, ApplyFields(fields[..k], d)) == ApplyFields(fields, d)
  {
    hide SetField;
    if k == 0 {
      assert fields[..k] == [];
    } else {
      var t := fields[k - 1];
      assert fields[..k] == fields[..k - 1] + [t];
      ApplyFieldsSnoc(fields[..k - 1], t, d);
      Overwrite(fields, t, t.data, ApplyFields(fields[..k - 1], d));
      Restart(fields, k - 1, d);
    }
  }

  // ---------------------------------------------------------------------------
  // What the client knows after any prefix of any answer
  // ---------------------------------------------------------------------------

  /** Complete descriptors are final; one cut short is overwritten when it is described again. */
  ghost predicate Partial(s: Section, vars: Variables) {
    && s.done <= |vars.list| && s.done <= |s.columns| <= s.done + 1 && |s.columns| <= |vars.list|
    && (s.total == 0 || s.total == |vars.list|)
    && (forall j :: 0 <= j < s.done ==> s.columns[j] == vars.list[j].Final())
    && (forall j :: s.done <= j < |s.columns| ==> ApplyFields(vars.list[j].fields, s.columns[j]) == vars.list[j].Final())
  }

  /** Only the section being read changes. */
  ghost predicate Frame(before: Scan, after: Scan) {
    before.place != Nowhere && after.place == before.place
    && after.st == before.WithHere(after.Here()).st
  }

  lemma {:induction false} ScanFields(fields: seq<Token>, sc: Scan)
    requires FieldTokens(fields) && sc.place != Nowhere
    requires sc.current.Some? && sc.current.value < |sc.Here().columns|
    ensures var i, h := sc.current.value, sc.Here();
            ApplyAll(fields, sc) == sc.WithHere(h.(columns := h.columns[i := ApplyFields(fields, h.columns[i])]))
  {
    hide SetField;
    var i, h := sc.current.value, sc.Here();
    if fields == [] {
      assert h.columns[i := h.columns[i]] == h.columns;
    } else {
      var t := fields[0];
      var d := SetField(h.columns[i], t.tag, t.data);
      var next := sc.WithHere(h.(columns := h.columns[i := d]));
      assert Apply(t, sc) == next;
      ScanFields(fields[1..], next);
      assert h.columns[i := d][i := ApplyFields(fields[1..], d)] == h.columns[i := ApplyFields(fields[1..], d)];
    }
  }

  /** A scan at the start of variable `j`, when its section is partial and all before it is done. */
  ghost predicate ReadyFor(sc: Scan, vars: Variables, j: nat) {
    && vars.Valid() && sc.place != Nowhere
    && Partial(sc.Here(), vars) && sc.Here().done == j && sc.Here().total == |vars.list|
  }

  lemma Stay(sc: Scan, vars: Variables, j: nat)
    requires ReadyFor(sc, vars, j)
    ensures vars.Valid() && Frame(sc, sc) && j <= |vars.list|
  {
  }

  lemma StartVariable(vars: Variables, j: nat, sc: Scan)
    requires ReadyFor(sc, vars, j) && j < |vars.list|
    ensures var r := ApplyItem(SQLDA_SEQ, vars.list[j].number, sc);
            && ReadyFor(r, vars, j) && Frame(sc, r) && r.current == Some(j) && |r.Here().columns| == j + 1
  {
    hide ApplyFields;
    var h := sc.Here();
    var columns := Extend(h.columns, j + 1);
    assert vars.list[j].Valid(j);
    assert forall i :: 0 <= i < |h.columns| ==> columns[i] == h.columns[i];
    assert |h.columns| == j ==> columns[j] == EMPTY_COLUMN;
  }

  /** Reading some of a variable's fields leaves it partial, reading all makes it final. */
  lemma ReadFields(vars: Variables, j: nat, k: nat, sc: Scan)
    requires ReadyFor(sc, vars, j) && j < |vars.list| && k <= |vars.list[j].fields|
    requires sc.current == Some(j) && |sc.Here().columns| == j + 1
    ensures var r := ApplyAll(vars.list[j].fields[..k], sc);
            && ReadyFor(r, vars, j) && Frame(sc, r) && r.current == Some(j) && |r.Here().columns| == j + 1
            && (k == |vars.list[j].fields| ==> r.Here().columns[j] == vars.list[j].Final())
  {
    hide ApplyFields, ApplyAll, Apply;
    var fields := vars.list[j].fields;
    assert vars.list[j].Valid(j);
    var d := sc.Here().columns[j];
    ScanFields(fields[..k], sc);
    Restart(fields, k, d);
    if k == |fields| {
      assert fields[..k] == fields;
    }
  }

  lemma EndVariable(vars: Variables, j: nat, sc: Scan)
    requires ReadyFor(sc, vars, j) && j < |vars.list|
    requires sc.current == Some(j) && |sc.Here().columns| == j + 1
    requires sc.Here().columns[j] == vars.list[j].Final()
    ensures var r := ApplyMarker(SQL_DESCRIBE_END, sc);
            ReadyFor(r, vars, j + 1) && Frame(sc, r) && r.current == None
  {
    hide ApplyFields;
  }

  /** How many descriptors a token list completes. */
  function CountEnds(ts: seq<Token>): nat {
    if ts == [] then 0 else (if ts[0] == Marker(SQL_DESCRIBE_END) then 1 else 0) + CountEnds(ts[1..])
  }

  lemma {:induction false} CountEndsConcat(a: seq<Token>, b: seq<Token>)
    ensures CountEnds(a + b) == CountEnds(a) + CountEnds(b)
  {
    if a == [] {
      assert a + b == b;
    } else {
      assert (a + b)[1..] == a[1..] + b;
      CountEndsConcat(a[1..], b);
    }
  }

  lemma {:induction false} CountNoEnds(ts: seq<Token>)
    requires forall i :: 0 <= i < |ts| ==> ts[i].Item?
    ensures CountEnds(ts) == 0
  {
    if ts != [] {
      CountNoEnds(ts[1..]);
    }
  }

  lemma CountVariable(v: Variable, k: nat)
    requires FieldTokens(v.fields) && k <= |v.Tokens()|
    ensures CountEnds(v.Tokens()[..k]) == if k == |v.Tokens()| then 1 else 0
  {
    var ts := v.Tokens();
    if k < |ts| {
      CountNoEnds(ts[..k]);
    } else {
      assert ts[..k] == ([Item(SQLDA_SEQ, v.number)] + v.fields) + [Marker(SQL_DESCRIBE_END)];
      CountNoEnds([Item(SQLDA_SEQ, v.number)] + v.fields);
      CountEndsConcat([Item(SQLDA_SEQ, v.number)] + v.fields, [Marker(SQL_DESCRIBE_END)]);
    }
  }

  lemma {:induction false} CountFrom(vars: Variables, start: nat, k: nat)
    requires vars.Valid() && start <= |vars.list| && k <= |vars.From(start)|
    ensures CountEnds(vars.From(start)[..k]) <= |vars.list| - start
    ensures k == |vars.From(start)| ==> CountEnds(vars.From(start)[..k]) == |vars.list| - start
    decreases |vars.list| - start
  {
    if start < |vars.list| {
      assert vars.list[start].Valid(start);
      var head, tail := vars.list[start].Tokens(), vars.From(start + 1);
      if k < |head| {
        CountVariable(vars.list[start], k);
        assert (head + tail)[..k] == head[..k];
      } else {
        CountVariable(vars.list[start], |head|);
        CountFrom(vars, start + 1, k - |head|);
        assert head[..|head|] == head && (head + tail)[..k] == head + tail[..k - |head|];
        CountEndsConcat(head, tail[..k - |head|]);
      }
    }
  }

  lemma ScanVariable(vars: Variables, j: nat, k: nat, sc: Scan)
    requires ReadyFor(sc, vars, j) && j < |vars.list| && k <= |vars.list[j].Tokens()|
    ensures var r := ApplyAll(vars.list[j].Tokens()[..k], sc);
            && ReadyFor(r, vars, if k == |vars.list[j].Tokens()| then j + 1 else j) && Frame(sc, r)
  {
    hide ReadyFor, ApplyItem, ApplyMarker, ApplyFields;
    var v := vars.list[j];
    var ts := v.Tokens();
    Stay(sc, vars, j);
    assert v.Valid(j);
    if k == 0 {
      assert ts[..k] == [];
    } else {
      var sc1 := ApplyItem(SQLDA_SEQ, v.number, sc);
      StartVariable(vars, j, sc);
      var m := Min(k - 1, |v.fields|);
      var sc2 := ApplyAll(v.fields[..m], sc1);
      ReadFields(vars, j, m, sc1);
      assert ts[..k][1..] == ts[1..k];
      if k < |ts| {
        assert ts[1..k] == v.fields[..m];
      } else {
        EndVariable(vars, j, sc2);
        assert v.fields[..m] == v.fields;
        assert ts[1..k] == v.fields + [Marker(SQL_DESCRIBE_END)];
        ApplyConcat(v.fields, [Marker(SQL_DESCRIBE_END)], sc1);
      }
    }
  }

  lemma {:induction false} ScanVariables(vars: Variables, j: nat, k: nat, sc: Scan)
    requires ReadyFor(sc, vars, j) && k <= |vars.From(j)|
    ensures var r := ApplyAll(vars.From(j)[..k], sc);
            ReadyFor(r, vars, j + CountEnds(vars.From(j)[..k])) && Frame(sc, r)
    decreases |vars.list| - j
  {
    hide ReadyFor, ApplyItem, ApplyMarker, ApplyFields;
    Stay(sc, vars, j);
    if j == |vars.list| || k == 0 {
      assert vars.From(j)[..k] == [];
    } else {
      var v := vars.list[j];
      assert v.Valid(j);
      var head, tail := v.Tokens(), vars.From(j + 1);
      if k < |head| {
        ScanVariable(vars, j, k, sc);
        CountVariable(v, k);
        assert (head + tail)[..k] == head[..k];
      } else {
        var rest := tail[..k - |head|];
        ScanVariable(vars, j, |head|, sc);
        CountVariable(v, |head|);
        assert head[..|head|] == head && (head + tail)[..k] == head + rest;
        ScanVariables(vars, j + 1, k - |head|, ApplyAll(head, sc));
        ApplyConcat(head, rest, sc);
        CountEndsConcat(head, rest);
      }
    }
  }

  // ---------------------------------------------------------------------------
  // One answer
  // ---------------------------------------------------------------------------

  function At(st: State, place: Place): Section {
    if place == Outputs then st.outputs else st.inputs
  }

  function WithAt(st: State, place: Place, s: Section): State {
    if place == Outputs then st.(outputs := s) else st.(inputs := s)
  }

  /** A section's marker and its two counts. */
  function SectionHead(place: Place, vars: Variables): seq<Token> {
    [Marker(if place == Outputs then SQL_SELECT else SQL_BIND),
     Item(SQL_NUM_VARIABLES, vars.count),
     Item(SQL_DESCRIBE_VARS, vars.count)]
  }

  function SectionTokens(place: Place, vars: Variables, start: nat): seq<Token>
    requires start <= |vars.list|
  {
    SectionHead(place, vars) + vars.From(start)
  }

  function Finished(vars: Variables): Section { Section(vars.Finals(), |vars.list|, |vars.list|) }

  lemma ScanSnoc(ts: seq<Token>, k: nat, sc: Scan)
    requires k < |ts|
    ensures ApplyAll(ts[..k + 1], sc) == Apply(ts[k], ApplyAll(ts[..k], sc))
    ensures CountEnds(ts[..k + 1]) == CountEnds(ts[..k]) + if ts[k] == Marker(SQL_DESCRIBE_END) then 1 else 0
  {
    hide Apply;
    assert ts[..k + 1] == ts[..k] + [ts[k]];
    ApplyConcat(ts[..k], [ts[k]], sc);
    CountEndsConcat(ts[..k], [ts[k]]);
  }

  lemma ScanNothing(sc: Scan)
    ensures ApplyAll([], sc) == sc && CountEnds([]) == 0
  {
  }

  lemma HeadPrefix(place: Place, vars: Variables, k: nat, sc: Scan)
    requires place != Nowhere && vars.Valid() && Partial(At(sc.st, place), vars) && k <= 3
    ensures var ts := SectionHead(place, vars)[..k];
            var r := ApplyAll(ts, sc);
            && CountEnds(ts) == 0 && Partial(At(r.st, place), vars) && At(r.st, place).done == At(sc.st, place).done
            && r.st == WithAt(sc.st, place, At(r.st, place))
            && (k == 3 ==> ReadyFor(r, vars, At(sc.st, place).done) && r.place == place)
  {
    hide ApplyFields, ApplyAll, CountEnds;
    var head := SectionHead(place, vars);
    ScanNothing(sc);
    assert head[..0] == [];
    var sc1 := Apply(head[0], sc);
    var sc2 := Apply(head[1], sc1);
    assert sc1.place == place && sc1.st == sc.st;
    assert sc2 == sc1.WithHere(sc1.Here().(total := |vars.list|));
    ScanSnoc(head, 0, sc);
    ScanSnoc(head, 1, sc);
    ScanSnoc(head, 2, sc);
    assert Apply(head[2], sc2) == sc2;
  }

  lemma SectionDone(vars: Variables, sc: Scan, j: nat)
    requires ReadyFor(sc, vars, j)
    ensures j == |vars.list| ==> sc.Here() == Finished(vars)
  {
    if j == |vars.list| {
      assert sc.Here().columns == vars.Finals();
    }
  }

  /** Any prefix of a section's tokens keeps the section partial and counts what it completed. */
  lemma ScanSection(place: Place, vars: Variables, k: nat, sc: Scan)
    requires place != Nowhere && vars.Valid() && Partial(At(sc.st, place), vars)
    requires k <= |SectionTokens(place, vars, At(sc.st, place).done)|
    ensures var all := SectionTokens(place, vars, At(sc.st, place).done);
            var r := ApplyAll(all[..k], sc);
            && Partial(At(r.st, place), vars)
            && At(r.st, place).done == At(sc.st, place).done + CountEnds(all[..k])
            && r.st == WithAt(sc.st, place, At(r.st, place))
            && (k == |all| ==> At(r.st, place) == Finished(vars))
  {
    hide ApplyFields, ApplyItem, ApplyMarker;
    var done := At(sc.st, place).done;
    var head, all := SectionHead(place, vars), SectionTokens(place, vars, done);
    HeadPrefix(place, vars, Min(k, 3), sc);
    if k < 3 {
      assert all[..k] == head[..k];
    } else {
      var rest := vars.From(done)[..k - 3];
      assert head[..3] == head && all[..k] == head + rest;
      var sc3 := ApplyAll(head, sc);
      ApplyConcat(head, rest, sc);
      CountEndsConcat(head, rest);
      ScanVariables(vars, done, k - 3, sc3);
      CountFrom(vars, done, k - 3);
      var r := ApplyAll(rest, sc3);
      ReadyPartial(vars, r, done + CountEnds(rest));
      SectionDone(vars, r, done + CountEnds(rest));
    }
  }

  lemma ReadyPartial(vars: Variables, sc: Scan, j: nat)
    requires ReadyFor(sc, vars, j)
    ensures sc.place != Nowhere && Partial(sc.Here(), vars) && sc.Here().done == j
  {
  }

  predicate KnownItems(items: Bytes) { items == PREPARE_ITEMS || items == PREPARE_EXEC_ITEMS }

  /** A statement as an item list sees it: the exec list does not ask for outputs. */
  function Wanted(stmt: Statement, items: Bytes): Statement {
    if items == PREPARE_ITEMS then stmt else stmt.(outputs := Variables([], []))
  }

  /** An answer's tokens up to the end of the outputs, and from there on. */
  function OutputPart(stmt: Statement, items: Bytes, start: nat): seq<Token>
    requires start <= |Wanted(stmt, items).outputs.list|
  {
    [Item(SQL_STMT_TYPE, stmt.typeData)]
    + if items == PREPARE_ITEMS then SectionTokens(Outputs, stmt.outputs, start) else []
  }

  function InputPart(stmt: Statement, start: nat): seq<Token>
    requires start <= |stmt.inputs.list|
  {
    SectionTokens(Inputs, stmt.inputs, start)
  }

  // ---------------------------------------------------------------------------
  // The server's answer to each request
  // ---------------------------------------------------------------------------

  lemma {:induction false} InsertStartsConcat(a: Bytes, b: Bytes, nextOutput: nat, nextInput: nat)
    ensures InsertStarts(a + b, nextOutput, nextInput)
         == InsertStarts(a, nextOutput, nextInput) + InsertStarts(b, nextOutput, nextInput)
  {
    if a == [] {
      assert a + b == b;
    } else {
      assert (a + b)[1..] == a[1..] + b;
      InsertStartsConcat(a[1..], b, nextOutput, nextInput);
    }
  }

  predicate IsSilent(item: byte) {
    item != SQLDA_START && item != SQL_STMT_TYPE && item != SQL_SELECT && item != SQL_BIND
    && item != SQL_NUM_VARIABLES && item != SQL_DESCRIBE_VARS
  }

  lemma {:induction false} InsertNoStarts(items: Bytes, nextOutput: nat, nextInput: nat)
    requires forall i :: 0 <= i < |items| ==> items[i] != SQL_SELECT && items[i] != SQL_BIND
    ensures InsertStarts(items, nextOutput, nextInput) == items
  {
    if items != [] {
      InsertNoStarts(items[1..], nextOutput, nextInput);
    }
  }

  lemma {:induction false} ServeSilent(stmt: Statement, items: Bytes, rest: Bytes, place: Place, start: nat)
    requires forall i :: 0 <= i < |items| ==> IsSilent(items[i])
    ensures Serve(stmt, items + rest, place, start) == Serve(stmt, rest, place, start)
  {
    if items == [] {
      assert items + rest == rest;
    } else {
      assert (items + rest)[1..] == items[1..] + rest;
      ServeSilent(stmt, items[1..], rest, place, start);
    }
  }

  function HeadItems(place: Place): Bytes {
    if place == Outputs then SELECT_HEAD else BIND_HEAD
  }

  lemma ServeSection(stmt: Statement, place: Place, rest: Bytes, before: Place, start: nat)
    requires place != Nowhere
    ensures Serve(stmt, HeadItems(place) + rest, before, start)
         == SectionHead(place, stmt.Section(place)) + stmt.Section(place).StartingAt(start)
            + Serve(stmt, rest, place, start)
  {
    var vars := stmt.Section(place);
    var items := HeadItems(place) + rest;
    var after := Serve(stmt, rest, place, start);
    assert items[1..] == [SQL_NUM_VARIABLES, SQL_DESCRIBE_VARS] + rest;
    assert items[1..][1..] == [SQL_DESCRIBE_VARS] + rest && items[1..][1..][1..] == rest;
    assert Serve(stmt, items[1..][1..], place, start)
        == [Item(SQL_DESCRIBE_VARS, vars.count)] + vars.StartingAt(start) + after;
    assert Serve(stmt, items[1..], place, start)
        == [Item(SQL_NUM_VARIABLES, vars.count)] + Serve(stmt, items[1..][1..], place, start);
  }

  lemma ServeStart(stmt: Statement, index: nat, rest: Bytes, place: Place, start: nat)
    requires index < 65536
    ensures Serve(stmt, StartItem(index) + rest, place, start) == Serve(stmt, rest, place, index)
  {
    var items := StartItem(index) + rest;
    LE16RoundTrip(index);
    assert items[4..] == rest;
  }

  /** The initial request is answered in full. */
  lemma InitialTokens(stmt: Statement, items: Bytes)
    requires stmt.Valid() && KnownItems(items)
    ensures Tokens(stmt, items) == OutputPart(stmt, items, 0) + InputPart(stmt, 0)
  {
    hide Serve;
    BindTokens(stmt, Outputs, 0);
    BindTokens(stmt, Nowhere, 0);
    assert BIND_HEAD + PARAMETER_ITEMS + [] == BIND_HEAD + PARAMETER_ITEMS;
    var bind := BIND_HEAD + PARAMETER_ITEMS;
    if items == PREPARE_ITEMS {
      assert items == [SQL_STMT_TYPE] + (SELECT_HEAD + (COLUMN_ITEMS + bind));
      ServeType(stmt, SELECT_HEAD + (COLUMN_ITEMS + bind));
      ServeSection(stmt, Outputs, COLUMN_ITEMS + bind, Nowhere, 0);
      ServeSilent(stmt, COLUMN_ITEMS, bind, Outputs, 0);
    } else {
      assert items == [SQL_STMT_TYPE] + bind;
      ServeType(stmt, bind);
    }
  }

  lemma ServeType(stmt: Statement, rest: Bytes)
    ensures Tokens(stmt, [SQL_STMT_TYPE] + rest) == [Item(SQL_STMT_TYPE, stmt.typeData)] + Tokens(stmt, rest)
  {
    assert ([SQL_STMT_TYPE] + rest)[1..] == rest;
  }

  lemma BindTokens(stmt: Statement, before: Place, start: nat)
    ensures Serve(stmt, BIND_HEAD + PARAMETER_ITEMS, before, start)
         == SectionHead(Inputs, stmt.inputs) + stmt.inputs.StartingAt(start)
  {
    ServeSection(stmt, Inputs, PARAMETER_ITEMS, before, start);
    ServeSilent(stmt, PARAMETER_ITEMS, [], Inputs, start);
    assert PARAMETER_ITEMS + [] == PARAMETER_ITEMS;
  }

  lemma ResumedInputs(stmt: Statement, si: nat, before: Place, start: nat)
    requires stmt.Valid() && si <= |stmt.inputs.list|
    ensures Serve(stmt, StartItem(si + 1) + (BIND_HEAD + PARAMETER_ITEMS), before, start) == InputPart(stmt, si)
  {
    hide Serve, StartItem;
    ServeStart(stmt, si + 1, BIND_HEAD + PARAMETER_ITEMS, before, start);
    BindTokens(stmt, before, si + 1);
  }

  lemma ResumedOutputs(stmt: Statement, so: nat, rest: Bytes)
    requires stmt.Valid() && so <= |stmt.outputs.list|
    ensures Tokens(stmt, StartItem(so + 1) + (SELECT_HEAD + COLUMN_ITEMS) + rest)
         == SectionTokens(Outputs, stmt.outputs, so) + Serve(stmt, rest, Outputs, so + 1)
  {
    hide Serve, StartItem;
    var tail := SELECT_HEAD + (COLUMN_ITEMS + rest);
    assert StartItem(so + 1) + (SELECT_HEAD + COLUMN_ITEMS) + rest == StartItem(so + 1) + tail;
    ServeStart(stmt, so + 1, tail, Nowhere, 0);
    ServeSection(stmt, Outputs, COLUMN_ITEMS + rest, Nowhere, so + 1);
    ServeSilent(stmt, COLUMN_ITEMS, rest, Outputs, so + 1);
  }

  /** A continuation is answered from the first descriptor not yet complete in each section. */
  lemma ContinuationTokens(stmt: Statement, items: Bytes, so: nat, si: nat)
    requires stmt.Valid() && KnownItems(items)
    requires so <= |Wanted(stmt, items).outputs.list| && si <= |stmt.inputs.list|
    ensures Tokens(stmt, InsertStarts(items, so + 1, si + 1)) == OutputPart(stmt, items, so) + InputPart(stmt, si)
  {
    hide Tokens, Serve, InsertStarts, StartItem, SectionTokens;
    var bind := BIND_HEAD + PARAMETER_ITEMS;
    var select := SELECT_HEAD + COLUMN_ITEMS;
    InsertHeads(so + 1, si + 1);
    if items == PREPARE_ITEMS {
      assert items == [SQL_STMT_TYPE] + (select + bind);
      InsertStartsConcat([SQL_STMT_TYPE], select + bind, so + 1, si + 1);
      InsertStartsConcat(select, bind, so + 1, si + 1);
      var inserted := StartItem(so + 1) + select + (StartItem(si + 1) + bind);
      ServeType(stmt, inserted);
      ResumedOutputs(stmt, so, StartItem(si + 1) + bind);
      ResumedInputs(stmt, si, Outputs, so + 1);
    } else {
      assert items == [SQL_STMT_TYPE] + bind;
      InsertStartsConcat([SQL_STMT_TYPE], bind, so + 1, si + 1);
      ServeType(stmt, StartItem(si + 1) + bind);
      ResumedInputsAlone(stmt, si);
    }
  }

  lemma ResumedInputsAlone(stmt: Statement, si: nat)
    requires stmt.Valid() && si <= |stmt.inputs.list|
    ensures Tokens(stmt, StartItem(si + 1) + (BIND_HEAD + PARAMETER_ITEMS)) == InputPart(stmt, si)
  {
    ResumedInputs(stmt, si, Nowhere, 0);
  }

  lemma InsertHead(head: byte, rest: Bytes, nextOutput: nat, nextInput: nat)
    requires head == SQL_SELECT || head == SQL_BIND
    requires forall i :: 0 <= i < |rest| ==> rest[i] != SQL_SELECT && rest[i] != SQL_BIND
    ensures InsertStarts([head] + rest, nextOutput, nextInput)
         == StartItem(if head == SQL_SELECT then nextOutput else nextInput) + ([head] + rest)
  {
    hide InsertStarts, StartItem;
    InsertStartsConcat([head], rest, nextOutput, nextInput);
    InsertOne(head, nextOutput, nextInput);
    InsertNoStarts(rest, nextOutput, nextInput);
  }

  lemma InsertHeads(nextOutput: nat, nextInput: nat)
    ensures InsertStarts([SQL_STMT_TYPE], nextOutput, nextInput) == [SQL_STMT_TYPE]
    ensures InsertStarts(SELECT_HEAD + COLUMN_ITEMS, nextOutput, nextInput)
         == StartItem(nextOutput) + (SELECT_HEAD + COLUMN_ITEMS)
    ensures InsertStarts(BIND_HEAD + PARAMETER_ITEMS, nextOutput, nextInput)
         == StartItem(nextInput) + (BIND_HEAD + PARAMETER_ITEMS)
  {
    hide InsertStarts, StartItem;
    var counts := [SQL_NUM_VARIABLES, SQL_DESCRIBE_VARS];
    InsertNoStarts([SQL_STMT_TYPE], nextOutput, nextInput);
    InsertHead(SQL_SELECT, counts + COLUMN_ITEMS, nextOutput, nextInput);
    InsertHead(SQL_BIND, counts + PARAMETER_ITEMS, nextOutput, nextInput);
    assert SELECT_HEAD + COLUMN_ITEMS == [SQL_SELECT] + (counts + COLUMN_ITEMS);
    assert BIND_HEAD + PARAMETER_ITEMS == [SQL_BIND] + (counts + PARAMETER_ITEMS);
  }

  // ---------------------------------------------------------------------------
  // One answer, whole or cut
  // ---------------------------------------------------------------------------

  /** What an uncut answer says. */
  function OneShot(stmt: Statement, items: Bytes): State {
    State(ReadInfoInt32LE(stmt.typeData), Finished(Wanted(stmt, items).outputs), Finished(stmt.inputs))
  }

  /** The client's state after any answers so far, each whole or cut. */
  ghost predicate Known(st: State, stmt: Statement, items: Bytes) {
    && Partial(st.outputs, Wanted(stmt, items).outputs) && Partial(st.inputs, stmt.inputs)
    && (st.stmtType == 0 || st.stmtType == ReadInfoInt32LE(stmt.typeData))
  }

  lemma KnownBounds(stmt: Statement, items: Bytes, st: State)
    requires Known(st, stmt, items)
    ensures st.outputs.done <= |Wanted(stmt, items).outputs.list| && st.inputs.done <= |stmt.inputs.list|
  {
  }

  /** The outputs an answer cut after `k` tokens completes. */
  function OutputsIn(stmt: Statement, items: Bytes, so: nat, k: nat): nat
    requires so <= |Wanted(stmt, items).outputs.list|
  {
    CountEnds(Kept(OutputPart(stmt, items, so), k))
  }

  function InputsIn(stmt: Statement, items: Bytes, so: nat, si: nat, k: nat): nat
    requires so <= |Wanted(stmt, items).outputs.list| && si <= |stmt.inputs.list|
  {
    var p := |OutputPart(stmt, items, so)|;
    CountEnds(Kept(InputPart(stmt, si), if k < p then 0 else k - p))
  }

  lemma ScanOutputPart(stmt: Statement, items: Bytes, st: State, k: nat)
    requires stmt.Valid() && KnownItems(items) && Known(st, stmt, items)
    ensures var part := OutputPart(stmt, items, st.outputs.done);
            var r := ApplyAll(Kept(part, k), Scan(st, Nowhere, None)).st;
            && Known(r, stmt, items) && r.inputs == st.inputs
            && r.outputs.done == st.outputs.done + OutputsIn(stmt, items, st.outputs.done, k)
            && (|part| <= k ==> r.stmtType == ReadInfoInt32LE(stmt.typeData))
            && (|part| <= k ==> r.outputs == Finished(Wanted(stmt, items).outputs))
  {
    hide ApplyFields, Partial, SectionTokens;
    KnownBounds(stmt, items, st);
    var part := OutputPart(stmt, items, st.outputs.done);
    var sc := Scan(st, Nowhere, None);
    ScanNothing(sc);
    if k == 0 {
      assert Kept(part, k) == [];
    } else {
      var typed := Apply(part[0], sc);
      assert typed == sc.(st := st.(stmtType := ReadInfoInt32LE(stmt.typeData)));
      ApplyOne(part[0], sc);
      if items == PREPARE_ITEMS {
        var all := SectionTokens(Outputs, stmt.outputs, st.outputs.done);
        var rest := Kept(all, k - 1);
        assert Kept(part, k) == [part[0]] + rest;
        ScanSection(Outputs, stmt.outputs, |rest|, typed);
        assert all[..|rest|] == rest;
        ApplyConcat([part[0]], rest, sc);
        CountEndsConcat([part[0]], rest);
      } else {
        assert Kept(part, k) == [part[0]];
        NothingWanted(st.outputs);
      }
    }
  }

  lemma ApplyOne(t: Token, sc: Scan)
    ensures ApplyAll([t], sc) == Apply(t, sc)
    ensures CountEnds([t]) == if t == Marker(SQL_DESCRIBE_END) then 1 else 0
  {
    hide Apply;
    assert [t][1..] == [];
  }

  lemma NothingWanted(s: Section)
    requires Partial(s, Variables([], []))
    ensures s == Finished(Variables([], []))
  {
    assert s.columns == Variables([], []).Finals();
  }

  /** After any prefix of an answer the client knows exactly the descriptors completed so far. */
  lemma ScanAnswer(stmt: Statement, items: Bytes, st: State, k: nat)
    requires stmt.Valid() && KnownItems(items) && Known(st, stmt, items)
    ensures var ts := OutputPart(stmt, items, st.outputs.done) + InputPart(stmt, st.inputs.done);
            var r := ApplyAll(Kept(ts, k), Scan(st, Nowhere, None)).st;
            && Known(r, stmt, items)
            && r.outputs.done == st.outputs.done + OutputsIn(stmt, items, st.outputs.done, k)
            && r.inputs.done == st.inputs.done + InputsIn(stmt, items, st.outputs.done, st.inputs.done, k)
            && (|ts| <= k ==> r == OneShot(stmt, items))
  {
    hide ApplyFields, Partial, SectionTokens, OutputPart;
    KnownBounds(stmt, items, st);
    var so, si := st.outputs.done, st.inputs.done;
    var p, q := OutputPart(stmt, items, so), InputPart(stmt, si);
    var sc := Scan(st, Nowhere, None);
    ScanOutputPart(stmt, items, st, k);
    if k < |p| {
      assert Kept(p + q, k) == Kept(p, k);
      assert Kept(q, 0) == [];
    } else {
      var rest := Kept(q, k - |p|);
      assert Kept(p, k) == p && Kept(p + q, k) == p + rest;
      var middle := ApplyAll(p, sc);
      ScanSection(Inputs, stmt.inputs, |rest|, middle);
      assert q[..|rest|] == rest;
      ApplyConcat(p, rest, sc);
    }
  }

  // ---------------------------------------------------------------------------
  // Answers are well-formed
  // ---------------------------------------------------------------------------

  lemma {:induction false} FromValid(vars: Variables, start: nat)
    requires vars.Valid() && start <= |vars.list|
    ensures ValidTokens(vars.From(start))
    decreases |vars.list| - start
  {
    if start < |vars.list| {
      assert vars.list[start].Valid(start);
      FromValid(vars, start + 1);
    }
  }

  lemma AnswerValid(stmt: Statement, items: Bytes, so: nat, si: nat)
    requires stmt.Valid() && KnownItems(items)
    requires so <= |Wanted(stmt, items).outputs.list| && si <= |stmt.inputs.list|
    ensures ValidTokens(OutputPart(stmt, items, so) + InputPart(stmt, si))
  {
    FromValid(stmt.inputs, si);
    if items == PREPARE_ITEMS {
      FromValid(stmt.outputs, so);
    }
  }

  /** Parsing any reply to a request made from a known state. */
  lemma ParseReply(stmt: Statement, items: Bytes, request: Bytes, st: State, answer: Answer)
    requires stmt.Valid() && KnownItems(items) && Known(st, stmt, items)
    requires Tokens(stmt, request)
          == OutputPart(stmt, items, st.outputs.done) + InputPart(stmt, st.inputs.done)
    requires answer != Failed
    ensures ValidTokens(Tokens(stmt, request))
    ensures var (r, truncated) := ParseChunk(Reply(stmt, request, answer).value, st);
            && Known(r, stmt, items) && truncated == answer.Truncated?
            && (answer == Complete ==> r == OneShot(stmt, items))
            && (answer.Truncated? ==>
                  && r.outputs.done == st.outputs.done + OutputsIn(stmt, items, st.outputs.done, answer.kept)
                  && r.inputs.done == st.inputs.done
                                      + InputsIn(stmt, items, st.outputs.done, st.inputs.done, answer.kept))
  {
    hide Known, OneShot, ApplyAll, OutputPart, InputPart, Serve, OutputsIn, InputsIn, ParseFrom;
    var ts := Tokens(stmt, request);
    KnownBounds(stmt, items, st);
    AnswerValid(stmt, items, st.outputs.done, st.inputs.done);
    var sc := Scan(st, Nowhere, None);
    match answer
    case Complete =>
      ScanAnswer(stmt, items, st, |ts|);
      assert Kept(ts, |ts|) == ts;
      ParseTokens(ts, INFO_END, sc);
    case Truncated(k) =>
      ScanAnswer(stmt, items, st, k);
      ParseTokens(Kept(ts, k), INFO_TRUNCATED, sc);
  }

  // ---------------------------------------------------------------------------
  // NONE columns read under another character set
  // ---------------------------------------------------------------------------

  function ApplyNone(d: ColumnDescriptor, charset: int): ColumnDescriptor {
    if charset != CS_NONE && d.subType == CS_NONE && (d.BaseType() == SQL_TEXT || d.BaseType() == SQL_VARYING) then
      d.(subType := charset, subTypeFromNone := true)
    else d
  }

  function ApplyNoneAll(ds: seq<ColumnDescriptor>, charset: int): (r: seq<ColumnDescriptor>)
  {
    seq(|ds|, i requires 0 <= i < |ds| => ApplyNone(ds[i], charset))
  }

  /** The charset asked for on the wire. */
  function WireCharset(d: ColumnDescriptor): int {
    if d.subTypeFromNone then CS_NONE else d.CharsetId()
  }

  /** The server is still asked for the same charset; applying it again changes nothing. */
  lemma NoneCharsetIsLocal(d: ColumnDescriptor, charset: int)
    ensures WireCharset(ApplyNone(d, charset)) == WireCharset(d)
    ensures ApplyNone(ApplyNone(d, charset), charset) == ApplyNone(d, charset)
    ensures ApplyNone(d, charset) != d ==> ApplyNone(d, charset).CharsetId() == charset % 256
  {
  }

  method ApplyNoneCharset(descs: array<ColumnDescriptor>, charset: int)
    modifies descs
    ensures descs[..] == ApplyNoneAll(old(descs[..]), charset)
  {
    if charset == CS_NONE {
      assert descs[..] == ApplyNoneAll(old(descs[..]), charset);
      return;
    }
    for i := 0 to descs.Length
      invariant descs[i..] == old(descs[i..])
      invariant descs[..i] == ApplyNoneAll(old(descs[..i]), charset)
    {
      var d := descs[i];
      var sqlType := d.BaseType();
      if d.subType == CS_NONE && (sqlType == SQL_TEXT || sqlType == SQL_VARYING) {
        descs[i] := d.(subType := charset, subTypeFromNone := true);
      }
      assert old(descs[..i + 1]) == old(descs[..i]) + [d];
      assert descs[..i + 1] == descs[..i] + [descs[i]];
    }
    assert descs[..] == descs[..descs.Length] && old(descs[..]) == old(descs[..descs.Length]);
  }

  // ---------------------------------------------------------------------------
  // The whole exchange
  // ---------------------------------------------------------------------------

  datatype Described = Described(stmtType: int, outputs: seq<ColumnDescriptor>, inputs: seq<ColumnDescriptor>)

  function Finish(st: State, charset: int): Described {
    Described(st.stmtType, ApplyNoneAll(st.outputs.columns, charset), ApplyNoneAll(st.inputs.columns, charset))
  }

  lemma CutBounds(stmt: Statement, items: Bytes, so: nat, si: nat, k: nat)
    requires stmt.Valid() && KnownItems(items)
    requires so <= |Wanted(stmt, items).outputs.list| && si <= |stmt.inputs.list|
    ensures so + OutputsIn(stmt, items, so, k) <= |Wanted(stmt, items).outputs.list|
    ensures si + InputsIn(stmt, items, so, si, k) <= |stmt.inputs.list|
  {
    var w := Wanted(stmt, items);
    var st := State(0, Section(w.outputs.Finals()[..so], 0, so), Section(stmt.inputs.Finals()[..si], 0, si));
    ScanAnswer(stmt, items, st, k);
  }

  /**
   * Whether the answers bring the client to the end: none fails, and every truncated one completes a
   * descriptor, until one is whole.
   */
  ghost predicate Resumable(stmt: Statement, items: Bytes, answers: nat -> Answer, round: nat, so: nat, si: nat)
    requires stmt.Valid() && KnownItems(items)
    requires so <= |Wanted(stmt, items).outputs.list| && si <= |stmt.inputs.list|
    decreases |Wanted(stmt, items).outputs.list| - so + |stmt.inputs.list| - si
  {
    match answers(round)
    case Complete => true
    case Failed => false
    case Truncated(k) =>
      CutBounds(stmt, items, so, si, k);
      var moreOutputs, moreInputs := OutputsIn(stmt, items, so, k), InputsIn(stmt, items, so, si, k);
      0 < moreOutputs + moreInputs
      && Resumable(stmt, items, answers, round + 1, so + moreOutputs, si + moreInputs)
  }

  ghost predicate Completes(stmt: Statement, items: Bytes, first: Answer, answers: nat -> Answer)
    requires stmt.Valid() && KnownItems(items)
  {
    match first
    case Complete => true
    case Failed => false
    case Truncated(k) =>
      CutBounds(stmt, items, 0, 0, k);
      Resumable(stmt, items, answers, 0, OutputsIn(stmt, items, 0, k), InputsIn(stmt, items, 0, 0, k))
  }

  lemma InitialKnown(stmt: Statement, items: Bytes)
    requires stmt.Valid()
    ensures Known(INITIAL, stmt, items)
  {
  }

  /** The server: what it knows of the statement, and how it will answer each continuation. */
  datatype Server = Server(stmt: Statement, answers: nat -> Answer) {
    function InfoSQL(request: Bytes, round: nat): Option<Bytes>
      requires ValidTokens(Tokens(stmt, request))
    {
      Reply(stmt, request, answers(round))
    }
  }

  /** What the parsed state promises about the rest of the exchange. */
  ghost predicate OnTrack(server: Server, items: Bytes, first: Answer, round: nat, st: State, truncated: bool)
    requires server.stmt.Valid() && KnownItems(items)
  {
    && Known(st, server.stmt, items)
    && st.outputs.done <= |Wanted(server.stmt, items).outputs.list| && st.inputs.done <= |server.stmt.inputs.list|
    && (Completes(server.stmt, items, first, server.answers)
        <==> !truncated || Resumable(server.stmt, items, server.answers, round, st.outputs.done, st.inputs.done))
    && (!truncated ==> st == OneShot(server.stmt, items))
  }

  function Remaining(stmt: Statement, items: Bytes, st: State): int {
    |Wanted(stmt, items).outputs.list| - st.outputs.done + |stmt.inputs.list| - st.inputs.done
  }

  /** One continuation: it fails, makes no progress, or brings the exchange a step further. */
  method Continue(ds: DescribeState, server: Server, items: Bytes, ghost first: Answer, round: nat)
    returns (ok: bool, truncated: bool)
    requires server.stmt.Valid() && KnownItems(items)
    requires OnTrack(server, items, first, round, ds.st, true)
    modifies ds
    ensures ok ==> OnTrack(server, items, first, round + 1, ds.st, truncated)
    ensures ok && truncated ==> 0 <= Remaining(server.stmt, items, ds.st) < old(Remaining(server.stmt, items, ds.st))
    ensures !ok ==> !Completes(server.stmt, items, first, server.answers)
  {
    hide Known, OneShot, Serve, OutputPart, InputPart, OutputsIn, InputsIn, ParseFrom, Reply, Completes, InsertStarts;
    var prevDone := ds.st.outputs.done + ds.st.inputs.done;
    var request := ItemsWithSqldaStart(items, ds.st.outputs.done + 1, ds.st.inputs.done + 1);
    ContinuationTokens(server.stmt, items, ds.st.outputs.done, ds.st.inputs.done);
    AnswerValid(server.stmt, items, ds.st.outputs.done, ds.st.inputs.done);
    var data := server.InfoSQL(request, round);
    ReplyFails(server.stmt, request, server.answers(round));
    if data.None? {
      return false, false;
    }
    ParseReply(server.stmt, items, request, ds.st, server.answers(round));
    truncated := ds.ParseSQLDescribeChunk(data.value);
    KnownBounds(server.stmt, items, ds.st);
    ok := !truncated || ds.st.outputs.done + ds.st.inputs.done != prevDone;
  }

  /**
   * Follows continuations until an answer is whole. It succeeds exactly when the answers complete, and then
   * with what parsing the one uncut answer would have given.
   */
  method CompleteSQLDescribe(server: Server, buf: Bytes, items: Bytes, charset: int, ghost first: Answer)
    returns (r: Option<Described>)
    requires server.stmt.Valid() && KnownItems(items) && ValidTokens(Tokens(server.stmt, items))
    requires Some(buf) == Reply(server.stmt, items, first)
    ensures r.Some? <==> Completes(server.stmt, items, first, server.answers)
    ensures r.Some? ==>
      r.value == Finish(ParseChunk(EncodeTokens(Tokens(server.stmt, items)) + [INFO_END], INITIAL).0, charset)
  {
    hide Known, OneShot, Serve, OutputPart, InputPart, OutputsIn, InputsIn, ParseFrom, Reply, ApplyNoneAll;
    InitialKnown(server.stmt, items);
    InitialTokens(server.stmt, items);
    ReplyFails(server.stmt, items, first);
    ParseReply(server.stmt, items, items, INITIAL, first);
    WholeReply(server.stmt, items);
    var ds := new DescribeState();
    var truncated := ds.ParseSQLDescribeChunk(buf);
    KnownBounds(server.stmt, items, ds.st);
    var round := 0;
    while truncated
      invariant OnTrack(server, items, first, round, ds.st, truncated)
      decreases if truncated then 1 + Remaining(server.stmt, items, ds.st) else 0
    {
      var ok;
      ok, truncated := Continue(ds, server, items, first, round);
      if !ok {
        return None;
      }
      round := round + 1;
    }
    var outputs := Reinterpret(ds.st.outputs.columns, charset);
    var inputs := Reinterpret(ds.st.inputs.columns, charset);
    r := Some(Described(ds.st.stmtType, outputs, inputs));
  }

  method Reinterpret(columns: seq<ColumnDescriptor>, charset: int) returns (r: seq<ColumnDescriptor>)
    ensures r == ApplyNoneAll(columns, charset)
  {
    hide ApplyNoneAll;
    var descs := new ColumnDescriptor[|columns|](i requires 0 <= i < |columns| => columns[i]);
    assert descs[..] == columns;
    ApplyNoneCharset(descs, charset);
    r := descs[..];
  }

  lemma ReplyFails(stmt: Statement, request: Bytes, answer: Answer)
    requires ValidTokens(Tokens(stmt, request))
    ensures Reply(stmt, request, answer).None? <==> answer == Failed
  {
  }

  lemma WholeReply(stmt: Statement, items: Bytes)
    requires stmt.Valid() && KnownItems(items) && ValidTokens(Tokens(stmt, items))
    ensures ParseChunk(EncodeTokens(Tokens(stmt, items)) + [INFO_END], INITIAL) == (OneShot(stmt, items), false)
  {
    hide Known, OneShot, ParseFrom;
    InitialKnown(stmt, items);
    InitialTokens(stmt, items);
    ParseReply(stmt, items, items, INITIAL, Complete);
  }
}
