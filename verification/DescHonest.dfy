/** The descriptor cache against answers that are whole item lists, and against an honest server. */
module DescHonest {
  import opened Common
  import opened DescribeParser
  import opened Describe
  import opened DescCache

  // ---------------------------------------------------------------------------
  // No answer is the beginning of another
  // ---------------------------------------------------------------------------

  ghost predicate AgreeOn(x: Bytes, y: Bytes) {
    forall p :: 0 <= p < |x| && p < |y| ==> x[p] == y[p]
  }

  predicate IsEnd(end: byte) { end == INFO_END || end == INFO_TRUNCATED }

  /** Two answers that agree as far as both reach are the same. */
  lemma {:induction false} PrefixFree(a: seq<Token>, e: byte, b: seq<Token>, f: byte)
    requires ValidTokens(a) && ValidTokens(b) && IsEnd(e) && IsEnd(f)
    requires AgreeOn(EncodeTokens(a) + [e], EncodeTokens(b) + [f])
    ensures a == b && e == f
    decreases |a|
  {
    var x, y := EncodeTokens(a) + [e], EncodeTokens(b) + [f];
    assert x[0] == y[0];
    if a != [] && b != [] {
      var x', y' := EncodeTokens(a[1..]) + [e], EncodeTokens(b[1..]) + [f];
      assert x == a[0].Encode() + x' && y == b[0].Encode() + y';
      SameToken(a[0], x', b[0], y');
      PrefixFree(a[1..], e, b[1..], f);
      assert a == [a[0]] + a[1..] && b == [b[0]] + b[1..];
    }
  }

  lemma SameToken(t: Token, x: Bytes, u: Token, y: Bytes)
    requires t.Valid() && u.Valid() && x != [] && y != [] && AgreeOn(t.Encode() + x, u.Encode() + y)
    ensures t == u && AgreeOn(x, y)
  {
    var a, b := t.Encode() + x, u.Encode() + y;
    assert a[0] == t.tag && b[0] == u.tag;
    if t.Item? {
      assert a[1] == |t.data| % 256 && a[2] == |t.data| / 256 && b[1] == |u.data| % 256 && b[2] == |u.data| / 256;
      assert |t.data| == |u.data|;
      forall p | 0 <= p < |t.data| ensures t.data[p] == u.data[p] {
        assert a[3 + p] == t.data[p] && b[3 + p] == u.data[p];
      }
    }
    var n := |t.Encode()|;
    forall p | 0 <= p < |x| && p < |y| ensures x[p] == y[p] {
      assert a[n + p] == x[p] && b[n + p] == y[p];
    }
  }

  /** An answer as any server gives it: whole items, then the end, or the mark that something is missing. */
  ghost predicate IsAnswer(b: Bytes, end: byte) {
    exists ts :: ValidTokens(ts) && IsEnd(end) && b == EncodeTokens(ts) + [end]
  }

  ghost predicate WellFormed(b: Bytes) { IsAnswer(b, INFO_END) || IsAnswer(b, INFO_TRUNCATED) }

  lemma AnswersAgree(x: Bytes, y: Bytes)
    requires WellFormed(x) && WellFormed(y) && AgreeOn(x, y)
    ensures x == y
  {
    hide AgreeOn, IsAnswer;
    var e: byte := if IsAnswer(x, INFO_END) then INFO_END else INFO_TRUNCATED;
    var f: byte := if IsAnswer(y, INFO_END) then INFO_END else INFO_TRUNCATED;
    EndedAgree(x, e, y, f);
  }

  lemma EndedAgree(x: Bytes, e: byte, y: Bytes, f: byte)
    requires IsAnswer(x, e) && IsAnswer(y, f) && AgreeOn(x, y)
    ensures x == y
  {
    hide AgreeOn;
    var a :| ValidTokens(a) && IsEnd(e) && x == EncodeTokens(a) + [e];
    var b :| ValidTokens(b) && IsEnd(f) && y == EncodeTokens(b) + [f];
    PrefixFree(a, e, b, f);
  }

  /** How an answer ends says whether it is truncated. */
  lemma EndTells(b: Bytes, end: byte)
    requires IsAnswer(b, end)
    ensures IsTruncated(b) == (end == INFO_TRUNCATED) && b[|b| - 1] == end
  {
    hide ParseFrom;
    var ts :| ValidTokens(ts) && IsEnd(end) && b == EncodeTokens(ts) + [end];
    ParseTokens(ts, end, Scan(INITIAL, Nowhere, None));
  }

  // ---------------------------------------------------------------------------
  // What an overlaid key can be
  // ---------------------------------------------------------------------------

  /**
   * Describe bytes over which continuations have passed are some answer exactly if it is the last continuation
   * that went into the buffer, and as long; or if none did, and it is what was there.
   */
  lemma KeyIs(info: Bytes, capacity: nat, received: seq<Bytes>, x: Bytes)
    requires WellFormed(x) && forall i :: 0 <= i < |received| ==> WellFormed(received[i])
    ensures var n := Landed(capacity, received);
            Overlaid(info, capacity, received) == x
            <==> if n == 0 then info == x else received[n - 1] == x && |info| == |x|
  {
    hide Landed, Overlaid, WellFormed;
    var n, key := Landed(capacity, received), Overlaid(info, capacity, received);
    LastShows(info, capacity, received);
    if n > 0 && key == x {
      forall p | 0 <= p < |received[n - 1]| && p < |x| ensures received[n - 1][p] == x[p] {
        assert key[p] == x[p];
      }
      AnswersAgree(received[n - 1], x);
    }
  }

  /**
   * A truncated query repeated at once is found in the cache exactly if its continuations never went into the
   * buffer, the first being too long for it, or the last that did was the truncated answer over again.
   */
  lemma StaleExactly(m: Memory, before: Query, now: Query, charset: int)
    requires m.Valid() && !m.Hits(before) && Afresh(before, charset).Some?
    requires now.text == before.text && now.info == before.info && WellFormed(before.info)
    requires forall i :: 0 <= i < |Continued(before)| ==> WellFormed(Continued(before)[i])
    ensures var received := Continued(before);
            var n := Landed(m.CapacityAt(before), received);
            m.After(before, charset).Hits(now) <==> n == 0 || received[n - 1] == before.info
  {
    hide Afresh, Slot, Overlaid, Landed, CapacityAfter, RoundsOf, WellFormed;
    KeyIs(before.info, m.CapacityAt(before), Continued(before), before.info);
  }

  // ---------------------------------------------------------------------------
  // An honest server
  // ---------------------------------------------------------------------------

  /** The statement a query is prepared as, and how the server answers for it. */
  datatype Origin = Origin(stmt: Statement, first: Answer, answers: seq<Answer>)

  ghost predicate Answers(stmt: Statement, request: Bytes, answer: Answer, data: Bytes) {
    ValidTokens(Tokens(stmt, request)) && Reply(stmt, request, answer) == Some(data)
  }

  /** Each continuation answers the request the driver makes at that point, until the server answers no more. */
  ghost predicate Follows(stmt: Statement, st: State, truncated: bool, more: seq<Bytes>, answers: seq<Answer>)
    decreases |more|
  {
    truncated ==> if more == [] then answers == [] else
      && answers != []
      && Answers(stmt, InsertStarts(PREPARE_ITEMS, st.outputs.done + 1, st.inputs.done + 1), answers[0], more[0])
      && var (st', cut) := ParseChunk(more[0], st);
         Follows(stmt, st', cut, more[1..], answers[1..])
  }

  ghost predicate Comes(q: Query, o: Origin) {
    && o.stmt.Valid() && Answers(o.stmt, PREPARE_ITEMS, o.first, q.info)
    && var (st, truncated) := ParseChunk(q.info, INITIAL);
       Follows(o.stmt, st, truncated, q.more, o.answers)
  }

  /** A whole answer to a request for the descriptors from these on. */
  ghost predicate WholeFrom(stmt: Statement, so: nat, si: nat, data: Bytes) {
    && so <= |stmt.outputs.list| && si <= |stmt.inputs.list|
    && ValidTokens(OutputPart(stmt, PREPARE_ITEMS, so) + InputPart(stmt, si))
    && data == EncodeTokens(OutputPart(stmt, PREPARE_ITEMS, so) + InputPart(stmt, si)) + [INFO_END]
  }

  ghost predicate IsWhole(stmt: Statement, data: Bytes) { exists so, si :: WholeFrom(stmt, so, si, data) }

  /** One answer: it ends as it should, and leaves the client knowing what it completes. */
  lemma OneAnswer(stmt: Statement, st: State, request: Bytes, answer: Answer, data: Bytes)
    requires stmt.Valid() && Known(st, stmt, PREPARE_ITEMS) && Answers(stmt, request, answer, data)
    requires Tokens(stmt, request) == OutputPart(stmt, PREPARE_ITEMS, st.outputs.done) + InputPart(stmt, st.inputs.done)
    ensures var (st', cut) := ParseChunk(data, st);
            && Known(st', stmt, PREPARE_ITEMS) && (!cut ==> st' == OneShot(stmt, PREPARE_ITEMS))
            && IsAnswer(data, if cut then INFO_TRUNCATED else INFO_END)
            && (!cut ==> WholeFrom(stmt, st.outputs.done, st.inputs.done, data))
  {
    hide Known, OneShot, OutputPart, InputPart, Tokens, ParseFrom, OutputsIn, InputsIn;
    KnownBounds(stmt, PREPARE_ITEMS, st);
    ParseReply(stmt, PREPARE_ITEMS, request, st, answer);
    var ts := Tokens(stmt, request);
    match answer
    case Complete =>
      assert WholeFrom(stmt, st.outputs.done, st.inputs.done, data);
      assert IsAnswer(data, INFO_END);
    case Truncated(k) =>
      assert ValidTokens(Kept(ts, k));
      assert IsAnswer(data, INFO_TRUNCATED);
  }

  /** What describing received: truncated answers, and at the end a whole one. */
  ghost predicate Exchanged(stmt: Statement, received: seq<Bytes>, completed: bool) {
    forall i :: 0 <= i < |received| ==>
      if completed && i == |received| - 1 then IsAnswer(received[i], INFO_END) && IsWhole(stmt, received[i])
      else WellFormed(received[i]) && (completed ==> IsAnswer(received[i], INFO_TRUNCATED))
  }

  lemma {:induction false} HonestRounds(stmt: Statement, st: State, truncated: bool, more: seq<Bytes>,
                                        answers: seq<Answer>)
    requires stmt.Valid() && Known(st, stmt, PREPARE_ITEMS) && (!truncated ==> st == OneShot(stmt, PREPARE_ITEMS))
    requires Follows(stmt, st, truncated, more, answers)
    ensures var (end, n) := Rounds(st, truncated, more);
            Exchanged(stmt, more[..n], end.Some?) && (end.Some? ==> end.value == OneShot(stmt, PREPARE_ITEMS))
    decreases |more|
  {
    hide Known, OneShot, OutputPart, InputPart, Tokens, ParseChunk, Answers, IsAnswer, IsWhole, InsertStarts;
    if truncated && more != [] {
      KnownBounds(stmt, PREPARE_ITEMS, st);
      ContinuationTokens(stmt, PREPARE_ITEMS, st.outputs.done, st.inputs.done);
      OneAnswer(stmt, st, InsertStarts(PREPARE_ITEMS, st.outputs.done + 1, st.inputs.done + 1), answers[0], more[0]);
      var (st', cut) := ParseChunk(more[0], st);
      if !cut {
        WholeIsWhole(stmt, st.outputs.done, st.inputs.done, more[0]);
      }
      HonestRounds(stmt, st', cut, more[1..], answers[1..]);
      var (end, n) := Rounds(st', cut, more[1..]);
      assert more[..n + 1] == [more[0]] + more[1..][..n];
    }
  }

  lemma HonestDescribe(q: Query, o: Origin, charset: int)
    requires Comes(q, o)
    ensures o.stmt.Valid() && WellFormed(q.info) && Exchanged(o.stmt, Continued(q), Afresh(q, charset).Some?)
    ensures Afresh(q, charset).Some? ==> Afresh(q, charset) == Some(Finish(OneShot(o.stmt, PREPARE_ITEMS), charset))
    ensures !IsTruncated(q.info) ==> IsAnswer(q.info, INFO_END) && WholeFrom(o.stmt, 0, 0, q.info)
  {
    hide Known, OneShot, OutputPart, InputPart, Tokens, ParseChunk, IsAnswer, IsWhole, Rounds, Follows, Finish, Exchanged;
    InitialKnown(o.stmt, PREPARE_ITEMS);
    InitialTokens(o.stmt, PREPARE_ITEMS);
    OneAnswer(o.stmt, INITIAL, PREPARE_ITEMS, o.first, q.info);
    var (st, truncated) := ParseChunk(q.info, INITIAL);
    HonestRounds(o.stmt, st, truncated, q.more, o.answers);
  }

  /** The answers there are; any further request fails. */
  function Answering(answers: seq<Answer>): nat -> Answer {
    (n: nat) => if n < |answers| then answers[n] else Failed
  }

  /** Following continuations succeeds exactly when the answers bring the client to the end. */
  lemma {:induction false} HonestResumes(stmt: Statement, st: State, truncated: bool, more: seq<Bytes>,
                                         answers: seq<Answer>, round: nat)
    requires stmt.Valid() && Known(st, stmt, PREPARE_ITEMS) && round <= |answers|
    requires Follows(stmt, st, truncated, more, answers[round..])
    ensures st.outputs.done <= |stmt.outputs.list| && st.inputs.done <= |stmt.inputs.list|
    ensures Rounds(st, truncated, more).0.Some?
       <==> !truncated || Resumable(stmt, PREPARE_ITEMS, Answering(answers), round, st.outputs.done, st.inputs.done)
    decreases |more|
  {
    hide Known, OneShot, OutputPart, InputPart, Tokens, ParseChunk, InsertStarts, OutputsIn, InputsIn;
    KnownBounds(stmt, PREPARE_ITEMS, st);
    if truncated && more != [] {
      var answer := answers[round..][0];
      assert answers[round..][1..] == answers[round + 1..];
      ContinuationTokens(stmt, PREPARE_ITEMS, st.outputs.done, st.inputs.done);
      var request := InsertStarts(PREPARE_ITEMS, st.outputs.done + 1, st.inputs.done + 1);
      ReplyFails(stmt, request, answer);
      ParseReply(stmt, PREPARE_ITEMS, request, st, answer);
      var (st', cut) := ParseChunk(more[0], st);
      HonestResumes(stmt, st', cut, more[1..], answers, round + 1);
    }
  }

  /** Describing against an honest server succeeds exactly when its answers complete. */
  lemma HonestCompletes(q: Query, o: Origin, charset: int)
    requires Comes(q, o)
    ensures Afresh(q, charset).Some? <==> Completes(o.stmt, PREPARE_ITEMS, o.first, Answering(o.answers))
  {
    hide Known, OneShot, OutputPart, InputPart, Tokens, ParseChunk, OutputsIn, InputsIn, Rounds, Follows, Finish;
    InitialKnown(o.stmt, PREPARE_ITEMS);
    InitialTokens(o.stmt, PREPARE_ITEMS);
    ReplyFails(o.stmt, PREPARE_ITEMS, o.first);
    ParseReply(o.stmt, PREPARE_ITEMS, PREPARE_ITEMS, INITIAL, o.first);
    var (st, truncated) := ParseChunk(q.info, INITIAL);
    assert o.answers[0..] == o.answers;
    HonestResumes(o.stmt, st, truncated, q.more, o.answers, 0);
  }

  // ---------------------------------------------------------------------------
  // A continuation that looks like a prepare answer is one
  // ---------------------------------------------------------------------------

  predicate Opens(t: Token) { t == Marker(SQL_BIND) }

  lemma {:induction false} FromOpensNothing(vars: Variables, start: nat)
    requires vars.Valid() && start <= |vars.list|
    ensures forall i :: 0 <= i < |vars.From(start)| ==> !Opens(vars.From(start)[i])
    decreases |vars.list| - start
  {
    if start < |vars.list| {
      assert vars.list[start].Valid(start);
      FromOpensNothing(vars, start + 1);
    }
  }

  /** Where the inputs begin is the same in equal token lists. */
  lemma SplitAtInputs(a: seq<Token>, b: seq<Token>, c: seq<Token>, d: seq<Token>)
    requires a + b == c + d && b != [] && d != [] && Opens(b[0]) && Opens(d[0])
    requires forall i :: 0 <= i < |a| ==> !Opens(a[i])
    requires forall i :: 0 <= i < |c| ==> !Opens(c[i])
    ensures a == c && b == d
  {
    var x, y := a + b, c + d;
    assert x[|a|] == b[0] && y[|c|] == d[0];
    assert forall i :: 0 <= i < |a| ==> x[i] == a[i];
    assert forall i :: 0 <= i < |c| ==> y[i] == c[i];
    assert |a| == |c| && x[..|a|] == a && y[..|a|] == c && x[|a|..] == b && y[|a|..] == d;
  }

  /** Equal sections begin at the same descriptor. */
  lemma SameSection(place: Place, vars: Variables, start: nat, others: Variables)
    requires vars.Valid() && others.Valid() && place != Nowhere && start <= |vars.list|
    requires SectionTokens(place, vars, start) == SectionTokens(place, others, 0)
    ensures start == 0
  {
    var ts, us := SectionTokens(place, vars, start), SectionTokens(place, others, 0);
    assert ts[1] == us[1] && ts[..3] + vars.From(start) == us[..3] + others.From(0);
    assert |vars.list| == |others.list|;
    if others.list != [] {
      assert others.list[0].Valid(0) && us[3] == Item(SQLDA_SEQ, others.list[0].number);
    }
    if start < |vars.list| {
      assert vars.list[start].Valid(start) && ts[3] == Item(SQLDA_SEQ, vars.list[start].number);
    }
  }

  lemma SameWhole(stmt: Statement, so: nat, si: nat, other: Statement, data: Bytes)
    requires stmt.Valid() && other.Valid() && WholeFrom(stmt, so, si, data) && WholeFrom(other, 0, 0, data)
    ensures so == 0 && si == 0
  {
    hide EncodeTokens, SectionTokens;
    var p, q := OutputPart(stmt, PREPARE_ITEMS, so), InputPart(stmt, si);
    var r, s := OutputPart(other, PREPARE_ITEMS, 0), InputPart(other, 0);
    PrefixFree(p + q, INFO_END, r + s, INFO_END);
    OutputsOpenNothing(stmt, so);
    OutputsOpenNothing(other, 0);
    InputsOpen(stmt, si);
    InputsOpen(other, 0);
    SplitAtInputs(p, q, r, s);
    assert p[1..] == SectionTokens(Outputs, stmt.outputs, so) && r[1..] == SectionTokens(Outputs, other.outputs, 0);
    SameSection(Outputs, stmt.outputs, so, other.outputs);
    SameSection(Inputs, stmt.inputs, si, other.inputs);
  }

  lemma OutputsOpenNothing(stmt: Statement, so: nat)
    requires stmt.Valid() && so <= |stmt.outputs.list|
    ensures var p := OutputPart(stmt, PREPARE_ITEMS, so); forall i :: 0 <= i < |p| ==> !Opens(p[i])
  {
    FromOpensNothing(stmt.outputs, so);
  }

  lemma InputsOpen(stmt: Statement, si: nat)
    requires si <= |stmt.inputs.list|
    ensures InputPart(stmt, si) != [] && Opens(InputPart(stmt, si)[0])
  {
  }

  /** Whole answers with the same bytes, the second to a prepare, describe the same. */
  lemma SameDescription(stmt: Statement, other: Statement, data: Bytes)
    requires stmt.Valid() && other.Valid() && IsWhole(stmt, data) && WholeFrom(other, 0, 0, data)
    ensures OneShot(stmt, PREPARE_ITEMS) == OneShot(other, PREPARE_ITEMS)
  {
    hide OneShot, OutputPart, InputPart, ParseFrom, Serve;
    var so, si :| WholeFrom(stmt, so, si, data);
    SameWhole(stmt, so, si, other, data);
    WholeParses(stmt, data);
    WholeParses(other, data);
  }

  lemma WholeParses(stmt: Statement, data: Bytes)
    requires stmt.Valid() && WholeFrom(stmt, 0, 0, data)
    ensures ParseChunk(data, INITIAL) == (OneShot(stmt, PREPARE_ITEMS), false)
  {
    hide OneShot, OutputPart, InputPart, ParseFrom, Serve;
    InitialTokens(stmt, PREPARE_ITEMS);
    WholeReply(stmt, PREPARE_ITEMS);
  }

  /**
   * Against an honest server, whose statements may change between queries, a query whose describe bytes are not
   * truncated gets what its statement is, whatever was described or overwritten before.
   */
  lemma HonestUntruncatedAreRight(history: seq<Query>, origins: seq<Origin>, q: Query, o: Origin, charset: int)
    requires |origins| == |history| && forall j :: 0 <= j < |history| ==> Comes(history[j], origins[j])
    requires Comes(q, o) && !IsTruncated(q.info)
    ensures Remembered(history, charset).Result(q, charset) == Some(Finish(OneShot(o.stmt, PREPARE_ITEMS), charset))
  {
    hide *;
    HonestDescribe(q, o, charset);
    UntruncatedDescribes(q, charset);
    ConfusedExactly(history, q, charset);
    forall j | 0 <= j < |history| ensures !ConfusedWith(history, q, j, charset) {
      NeverConfused(history, j, origins[j], q, o, charset);
    }
    assert !Confused(history, q, charset) by {
      NotConfused(history, q, charset);
    }
  }

  lemma NotConfused(history: seq<Query>, q: Query, charset: int)
    requires forall j :: 0 <= j < |history| ==> !ConfusedWith(history, q, j, charset)
    ensures !Confused(history, q, charset)
  {
  }

  lemma UntruncatedDescribes(q: Query, charset: int)
    requires !IsTruncated(q.info)
    ensures Afresh(q, charset).Some? && Continued(q) == []
  {
    hide ParseChunk, Finish;
  }

  lemma NeverConfused(history: seq<Query>, j: nat, from: Origin, q: Query, o: Origin, charset: int)
    requires j < |history| && Comes(history[j], from) && Comes(q, o) && !IsTruncated(q.info)
    ensures !ConfusedWith(history, q, j, charset)
  {
    hide Comes, Afresh, Finish, OneShot, IsAnswer, IsWhole, IsTruncated, WholeFrom, Remembered, CapacityAfter, Slot;
    hide Landed, Overlaid, Stores;
    var old', m := history[j], Remembered(history[..j], charset);
    HonestDescribe(old', from, charset);
    HonestDescribe(q, o, charset);
    UntruncatedDescribes(q, charset);
    if ConfusedWith(history, q, j, charset) {
      LastStores(history, j, charset);
      StoredIsDescribed(history, j, charset);
      KeyIs(old'.info, m.CapacityAt(old'), Continued(old'), q.info);
      var received := Continued(old');
      var n := Landed(m.CapacityAt(old'), received);
      if n == 0 {
        UntruncatedDescribes(old', charset);
        WholeIsWhole(from.stmt, 0, 0, q.info);
      } else if n < |received| {
        EndTells(received[n - 1], INFO_TRUNCATED);
      }
      SameDescription(from.stmt, o.stmt, q.info);
    }
  }

  lemma StoredIsDescribed(history: seq<Query>, j: nat, charset: int)
    requires j < |history| && Stores(history, j, charset)
    ensures Afresh(history[j], charset).Some?
  {
    hide Afresh, Remembered;
  }

  lemma WholeIsWhole(stmt: Statement, so: nat, si: nat, data: Bytes)
    requires WholeFrom(stmt, so, si, data)
    ensures IsWhole(stmt, data)
  {
    hide WholeFrom;
  }
}
