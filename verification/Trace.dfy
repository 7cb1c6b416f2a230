/** What a connection sends, what it hears back, and which statement handles are in whose hands. */
module Trace {
  import opened Common
  import opened HandlePool

  datatype Kind = Select | SelectForUpdate | ExecProcedure | Change

  /**
   * A prepare names the handle it brought back. Describe stands for all the continuations of a description, be it
   * none; transferring a blob, recycling a handle and draining the pool for all the requests they take.
   */
  datatype Op =
    | Begin
    | Commit(tx: int)
    | Rollback(tx: int)
    | CommitRetaining(tx: int)
    | Prepare(tx: int, stmt: int)
    | Describe(stmt: int)
    | Execute(stmt: int, tx: int, returning: bool)
    | WriteBlob(tx: int)
    | ReadBlob(tx: int)
    | Fetch(stmt: int)
    | Free(stmt: int, drop: bool)
    | Recycle(stmt: int, hasCursor: bool)
    | RowCount(stmt: int)
    | Ping
    | Drain
    | Detach
  {
    /** What running the call again would do twice. */
    predicate Effect() { Execute? || WriteBlob? }

    /** The handle the operation relies on. */
    function Named(): Option<int> {
      if Describe? || Execute? || Fetch? || Free? || Recycle? || RowCount? then Some(stmt) else None
    }

    /** After it the handle is the pool's or nobody's. */
    predicate GivesUp() { Recycle? || (Free? && drop) }
  }

  /**
   * What the driver hears. A status error may leave one of the operation's own responses unread, as a refused
   * allocate does; from then on answers and operations no longer belong together.
   */
  datatype Reply =
    | Ok(handle: int, kind: Kind, inputs: nat, rowBlobs: Option<nat>, cached: bool)
    | StatusError(stepLost: bool)
    | TransportError

  /** Only operations answered by more than one message can be left with one unread. */
  predicate LosesStep(op: Op, r: Reply) {
    r.StatusError? && r.stepLost && (op.Prepare? || op.Fetch? || (op.Execute? && op.returning))
  }

  datatype Error = BadConn | Cancelled | Refused | Server | Transport

  predicate IsTransport(e: Error) { e == Transport || e == BadConn }

  function Failure(r: Reply): Option<Error> {
    match r
    case Ok(_, _, _, _, _) => None
    case StatusError(_) => Some(Server)
    case TransportError => Some(Transport)
  }

  /** Something sent, which answer it got, whether that was a success, and whether it can have been its own. */
  datatype Event = Event(op: Op, n: nat, heard: bool, inStep: bool) {
    /** The server's own acknowledgement of this operation. */
    predicate Acked() { heard && inStep }
  }

  datatype Trace = Trace(log: seq<Event>, step: nat, inStep: bool, broken: bool,
                         inUse: set<int>, pool: seq<int>, top: int, faultless: bool)

  const START := Trace([], 0, true, false, {}, [], 0, true)

  /** The handles in somebody's hands after an event. */
  function Uses(used: set<int>, e: Event): set<int> {
    if e.op.Prepare? && e.heard then used + {e.op.stmt}
    else if e.op.GivesUp() then used - {e.op.stmt}
    else used
  }

  /** An event relies only on handles in use, and a prepare brings back one that was not. */
  predicate Fits(used: set<int>, e: Event) {
    && (e.op.Named().Some? ==> e.op.Named().value in used)
    && (e.op.Prepare? && e.heard ==> e.op.stmt !in used)
  }

  /** The client's pool after an event: a prepare takes from it, whatever comes of it. */
  function Pools(pool: seq<int>, e: Event): seq<int> {
    if e.op.Prepare? then Popped(pool)
    else if e.op.Recycle? && e.heard then Pushed(pool, e.op.stmt)
    else if e.op.Drain? then []
    else pool
  }

  /** Where a prepare's handle comes from: the pool, or else the server, which while in step names none in use. */
  predicate Brought(pool: seq<int>, used: set<int>, e: Event) {
    e.op.Prepare? && e.heard ==>
      if pool != [] then e.op.stmt == pool[|pool| - 1] else e.inStep ==> e.op.stmt !in used
  }

  /** The operations of the log from an index on. */
  function Said(log: seq<Event>, from: nat): seq<Op> {
    if |log| < from then [] else seq(|log| - from, i requires 0 <= i < |log| - from => log[from + i].op)
  }

  function InUse(log: seq<Event>): set<int> {
    if log == [] then {} else Uses(InUse(log[..|log| - 1]), log[|log| - 1])
  }

  function PoolAfter(log: seq<Event>): seq<int> {
    if log == [] then [] else Pools(PoolAfter(log[..|log| - 1]), log[|log| - 1])
  }

  /** Every handle handed out came from the pool as it was, or from an honest server. */
  ghost predicate Served(log: seq<Event>) {
    forall i :: 0 <= i < |log| ==> ServedAt(log, i)
  }

  ghost predicate ServedAt(log: seq<Event>, i: nat)
    requires i < |log|
  {
    Brought(PoolAfter(log[..i]), InUse(log[..i]), log[i])
  }

  /** At every moment the pool holds at most eight handles, all different, and none that anybody is using. */
  ghost predicate PoolApart(log: seq<Event>) {
    forall i :: 0 <= i <= |log| ==> Apart(PoolAfter(log[..i]), InUse(log[..i]))
  }

  /** No handle is relied on after it was given up, or before it was handed out, or handed out twice. */
  ghost predicate Disciplined(log: seq<Event>) {
    forall i :: 0 <= i < |log| ==> FitsAt(log, i)
  }

  ghost predicate FitsAt(log: seq<Event>, i: nat)
    requires i < |log|
  {
    Fits(InUse(log[..i]), log[i])
  }

  function Record(t: Trace, op: Op, heard: bool): Trace {
    var e := Event(op, t.step, heard, t.inStep);
    t.(log := t.log + [e],
       inUse := Uses(t.inUse, e),
       pool := Pools(t.pool, e),
       top := if op.Prepare? && t.top <= op.stmt then op.stmt + 1 else t.top,
       faultless := t.faultless && Fits(t.inUse, e))
  }

  /** One operation and its answer. */
  function Next(t: Trace, op: Op, r: Reply): Trace {
    Record(t, op, r.Ok?)
      .(step := t.step + 1, inStep := t.inStep && !LosesStep(op, r), broken := t.broken || r == TransportError)
  }

  /** Two operations in one flush, both acknowledged or neither. */
  function NextBoth(t: Trace, a: Op, b: Op, r: Reply): Trace {
    Record(Record(t, a, r.Ok?), b, r.Ok?)
      .(step := t.step + 1, inStep := t.inStep && !LosesStep(a, r), broken := t.broken || r == TransportError)
  }

  /** The pool's latest handle, or a new one: an honest server names none in use, out of step it may be any. */
  function HandedOut(t: Trace, raw: int): int {
    if t.pool != [] then t.pool[|t.pool| - 1]
    else if t.inStep && raw in t.inUse then t.top
    else raw
  }

  /** The bookkeeping agrees with the log, and the log with the answers. */
  ghost predicate Kept(t: Trace, replies: nat -> Reply) {
    && t.inUse == InUse(t.log) && (forall h :: h in t.inUse ==> h < t.top)
    && (t.faultless <==> Disciplined(t.log))
    && t.pool == PoolAfter(t.log) && Served(t.log) && (t.faultless ==> Apart(t.pool, t.inUse))
    && (t.broken <==> exists n: nat :: n < t.step && replies(n) == TransportError)
    && (forall i :: 0 <= i < |t.log| ==>
          t.log[i].n < t.step && t.log[i].heard == replies(t.log[i].n).Ok? && (t.inStep ==> t.log[i].inStep))
  }

  lemma StartKept(replies: nat -> Reply)
    ensures Kept(START, replies)
  {
  }

  /** Histories of a log's prefix are those of the prefix. */
  lemma Earlier(log: seq<Event>, e: Event, i: nat)
    requires i < |log|
    ensures FitsAt(log + [e], i) == FitsAt(log, i) && ServedAt(log + [e], i) == ServedAt(log, i)
  {
    assert (log + [e])[..i] == log[..i];
  }

  lemma LogNext(log: seq<Event>, e: Event)
    ensures InUse(log + [e]) == Uses(InUse(log), e) && PoolAfter(log + [e]) == Pools(PoolAfter(log), e)
    ensures Disciplined(log + [e]) <==> Disciplined(log) && Fits(InUse(log), e)
    ensures Served(log + [e]) <==> Served(log) && Brought(PoolAfter(log), InUse(log), e)
  {
    hide Uses, Fits, Pools, Brought;
    var all := log + [e];
    assert all[..|log|] == log;
    assert FitsAt(all, |log|) == Fits(InUse(log), e);
    assert ServedAt(all, |log|) == Brought(PoolAfter(log), InUse(log), e);
    forall i | 0 <= i < |log| ensures FitsAt(all, i) == FitsAt(log, i) && ServedAt(all, i) == ServedAt(log, i) {
      Earlier(log, e, i);
    }
    if Disciplined(all) {
      assert forall i :: 0 <= i < |log| ==> FitsAt(all, i);
    }
    if Served(all) {
      assert forall i :: 0 <= i < |log| ==> ServedAt(all, i);
    }
  }

  lemma SaidNext(log: seq<Event>, from: nat, e: Event)
    requires from <= |log|
    ensures Said(log, |log|) == [] && Said(log + [e], from) == Said(log, from) + [e.op]
  {
  }

  lemma SaidJoin(a: seq<Event>, b: seq<Event>, from: nat)
    requires a <= b && from <= |a|
    ensures Said(b, from) == Said(a, from) + Said(b, |a|)
  {
  }

  lemma SaidShort(log: seq<Event>, from: nat)
    ensures |log| == from + 1 ==> Said(log, from) == [log[from].op]
    ensures |log| == from + 2 ==> Said(log, from) == [log[from].op, log[from + 1].op]
  {
  }

  lemma SaidAll(a: seq<Event>, b: seq<Event>, op: Op)
    requires a <= b && forall i :: |a| <= i < |b| ==> b[i].op == op
    ensures Said(b, |a|) == Repeat(op, |b| - |a|)
  {
  }

  /** Handles change hands between pool and users without ever being in both. */
  lemma ApartNext(pool: seq<int>, used: set<int>, e: Event)
    requires Apart(pool, used) && Fits(used, e) && Brought(pool, used, e)
    ensures Apart(Pools(pool, e), Uses(used, e))
  {
  }

  lemma {:induction false} ApartAfter(log: seq<Event>)
    requires Served(log) && Disciplined(log)
    ensures Apart(PoolAfter(log), InUse(log))
  {
    hide Apart, Uses, Fits, Pools, Brought;
    if log == [] {
      NobodysPool();
    } else {
      var before, e := log[..|log| - 1], log[|log| - 1];
      assert log == before + [e];
      LogNext(before, e);
      ApartAfter(before);
      ApartNext(PoolAfter(before), InUse(before), e);
    }
  }

  lemma NobodysPool()
    ensures Apart([], {})
  {
  }

  /** As long as every handle relied on is its user's own, the pool has nobody's handle, at any time. */
  lemma PoolStaysApart(log: seq<Event>)
    requires Served(log) && Disciplined(log)
    ensures PoolApart(log)
  {
    forall i | 0 <= i <= |log| ensures Apart(PoolAfter(log[..i]), InUse(log[..i])) {
      forall k | 0 <= k < i ensures FitsAt(log[..i], k) && ServedAt(log[..i], k) {
        assert FitsAt(log, k) && ServedAt(log, k);
        assert log[..i][..k] == log[..k];
      }
      ApartAfter(log[..i]);
    }
  }

  lemma NextKept(t: Trace, op: Op, replies: nat -> Reply)
    requires Kept(t, replies)
    requires Brought(t.pool, t.inUse, Event(op, t.step, replies(t.step).Ok?, t.inStep))
    ensures Kept(Next(t, op, replies(t.step)), replies)
  {
    hide InUse, Disciplined, PoolAfter, Served, Apart, Pools, Uses, Fits, Brought;
    var e := Event(op, t.step, replies(t.step).Ok?, t.inStep);
    LogNext(t.log, e);
    UsesBelow(t, e);
    if t.faultless && Fits(t.inUse, e) {
      ApartNext(t.pool, t.inUse, e);
    }
  }

  lemma UsesBelow(t: Trace, e: Event)
    requires forall h :: h in t.inUse ==> h < t.top
    ensures var top := if e.op.Prepare? && t.top <= e.op.stmt then e.op.stmt + 1 else t.top;
            forall h :: h in Uses(t.inUse, e) ==> h < top
  {
  }

  lemma NextBothKept(t: Trace, a: Op, b: Op, replies: nat -> Reply)
    requires Kept(t, replies) && !a.Prepare? && !b.Prepare?
    ensures Kept(NextBoth(t, a, b, replies(t.step)), replies)
  {
    hide InUse, Disciplined, PoolAfter, Served, Apart, Pools, Uses, Fits;
    var heard := replies(t.step).Ok?;
    var e, f := Event(a, t.step, heard, t.inStep), Event(b, t.step, heard, t.inStep);
    var u := Record(t, a, heard);
    LogNext(t.log, e);
    LogNext(u.log, f);
    UsesBelow(t, e);
    UsesBelow(u, f);
    if t.faultless && Fits(t.inUse, e) {
      ApartNext(t.pool, t.inUse, e);
      if Fits(u.inUse, f) {
        ApartNext(u.pool, u.inUse, f);
      }
    }
  }

  /** What is handed out is as the pool and an honest server would have it, and then nobody else's. */
  lemma HandedOutFree(t: Trace, raw: int, replies: nat -> Reply)
    requires Kept(t, replies)
    ensures var h := HandedOut(t, raw);
            && (t.inStep && t.faultless ==> h !in t.inUse)
            && forall tx, n, heard :: Brought(t.pool, t.inUse, Event(Prepare(tx, h), n, heard, t.inStep))
  {
    hide InUse, Disciplined, PoolAfter, Served;
  }
}
