/** Transactions, bad connections, statement handles and the retry signal, over whatever the wire answers. */
module Connection {
  import opened Common
  import opened Trace

  // ---------------------------------------------------------------------------
  // What a stretch of the log says
  // ---------------------------------------------------------------------------

  predicate NoEffects(log: seq<Event>, from: nat) { forall i :: from <= i < |log| ==> !log[i].op.Effect() }

  predicate NoRetaining(log: seq<Event>, from: nat) {
    forall i :: from <= i < |log| ==> !log[i].op.CommitRetaining?
  }

  /** An acknowledged execution followed by an acknowledged commit-retaining of the transaction it ran in. */
  ghost predicate Durable(log: seq<Event>, from: nat) {
    exists i, j :: from <= i < j < |log| && log[i].op.Execute? && log[i].Acked()
                   && log[j].op == CommitRetaining(log[i].op.tx) && log[j].Acked()
  }

  /** Something was executed, and the driver heard that it succeeded. */
  ghost predicate Ran(log: seq<Event>, from: nat) {
    exists i :: from <= i < |log| && log[i].op.Execute? && log[i].heard
  }

  /** An execution and the commit of its transaction went out together, and were answered together. */
  ghost predicate OneFlush(log: seq<Event>, from: nat) {
    exists i :: from <= i < |log| - 1 && log[i].op.Execute?
                && log[i + 1].op == CommitRetaining(log[i].op.tx) && log[i].n == log[i + 1].n
  }

  ghost predicate RunsOnce(log: seq<Event>, from: nat) {
    forall i, j :: from <= i < |log| && from <= j < |log| && log[i].op.Execute? && log[j].op.Execute? ==> i == j
  }

  /** Everything runs in this one transaction, and it is not committed. */
  ghost predicate StaysIn(log: seq<Event>, from: nat, tx: int) {
    forall i :: from <= i < |log| ==>
      && (log[i].op.Execute? || log[i].op.WriteBlob? || log[i].op.Prepare? ==> log[i].op.tx == tx)
      && !log[i].op.CommitRetaining? && !log[i].op.Commit?
  }

  /** No statement handle but this one is relied on. */
  ghost predicate NamesOnly(log: seq<Event>, from: nat, stmt: int) {
    forall i :: from <= i < |log| && log[i].op.Named().Some? ==> log[i].op.Named().value == stmt
  }

  /** Every handle relied on was brought back earlier in the same stretch. */
  ghost predicate NamesOwn(log: seq<Event>, from: nat) {
    forall i :: from <= i < |log| && log[i].op.Named().Some? ==>
      exists j :: from <= j < i && log[j].heard && log[j].op.Prepare? && log[j].op.stmt == log[i].op.Named().value
  }

  // ---------------------------------------------------------------------------
  // How the bookkeeping may change
  // ---------------------------------------------------------------------------

  ghost predicate Later(a: Trace, b: Trace) {
    a.log <= b.log && a.step <= b.step && (b.inStep ==> a.inStep) && (a.broken ==> b.broken)
  }

  /** If no handle was misused so far, nobody gains or loses one, and none is misused. */
  ghost predicate SameHands(a: Trace, b: Trace) {
    b.inStep && a.faultless ==> b.inUse == a.inUse && b.faultless
  }

  /** The same, as long as `stmt` is in the caller's hands. */
  ghost predicate Handles(a: Trace, b: Trace, stmt: int) {
    b.inStep && a.faultless && stmt in a.inUse ==> b.inUse == a.inUse && b.faultless
  }

  ghost predicate Gains(a: Trace, b: Trace, stmt: int) {
    b.inStep && a.faultless ==> stmt !in a.inUse && b.inUse == a.inUse + {stmt} && b.faultless
  }

  ghost predicate Drops(a: Trace, b: Trace, stmt: int) {
    b.inStep && a.faultless && stmt in a.inUse ==> b.inUse == a.inUse - {stmt} && b.faultless
  }

  /** An error that came over the wire was heard in one of these answers. */
  ghost predicate CausedBy(err: Option<Error>, replies: nat -> Reply, from: nat, to: nat) {
    && (err == Some(Server) ==> exists n :: from <= n < to && replies(n).StatusError?)
    && (err == Some(Transport) || err == Some(BadConn) ==> exists n :: from <= n < to && replies(n) == TransportError)
  }

  /** The explicit transaction is the one there was, unless the connection went bad. */
  predicate KeepsTx(wasBad: bool, before: int, bad: bool, after: int) {
    (wasBad ==> bad) && (after == before || (bad && after == 0))
  }

  // ---------------------------------------------------------------------------
  // Arguments
  // ---------------------------------------------------------------------------

  /** What the arguments ask for, blob column by blob column, and whether the rest of them can be encoded. */
  datatype BlobArg = NotABlob | AlreadyStored | Stored | Unencodable

  datatype Args = Args(given: nat, blobs: seq<BlobArg>, encodes: bool) {
    /** Too many, too few, or not expressible in the statement's types. */
    predicate Misfit(inputs: nat) {
      given != inputs || (inputs > 0 && (!encodes || Unencodable in blobs))
    }
  }

  function CountStored(blobs: seq<BlobArg>): nat {
    if blobs == [] then 0 else (if blobs[0] == Stored then 1 else 0) + CountStored(blobs[1..])
  }

  /** Whether storing these blobs succeeds, reply by reply. */
  predicate AllStored(replies: nat -> Reply, n: nat, blobs: seq<BlobArg>)
    decreases |blobs|
  {
    blobs == [] ||
    match blobs[0]
    case Unencodable => false
    case Stored => replies(n).Ok? && AllStored(replies, n + 1, blobs[1..])
    case NotABlob => AllStored(replies, n, blobs[1..])
    case AlreadyStored => AllStored(replies, n, blobs[1..])
  }

  /** The answer that describes a statement prepared with request `n`; only queries look into the cache. */
  function Description(replies: nat -> Reply, n: nat, mayUseCache: bool): Reply {
    if mayUseCache && replies(n).Ok? && replies(n).cached then replies(n) else replies(n + 1)
  }

  predicate Cached(replies: nat -> Reply, n: nat, mayUseCache: bool) {
    mayUseCache && replies(n).Ok? && replies(n).cached
  }

  /** The blobs stored for these arguments. */
  function Stores(inputs: nat, args: Args): nat {
    if inputs > 0 && args.given > 0 then CountStored(args.blobs) else 0
  }

  /** The blobs of the row that comes with the answer to a procedure. */
  function RowBlobs(r: Reply, kind: Kind): nat {
    if kind == ExecProcedure && r.Ok? && r.rowBlobs.Some? then r.rowBlobs.value else 0
  }

  // ---------------------------------------------------------------------------
  // What is said when all goes well
  // ---------------------------------------------------------------------------

  function Beginning(begins: bool): seq<Op> { if begins then [Begin] else [] }

  function Preparing(tx: int, stmt: int, described: bool): seq<Op> {
    [Prepare(tx, stmt)] + if described then [Describe(stmt)] else []
  }

  /** A procedure is executed with its row asked for; in auto-commit mode the commit follows. */
  function Running(stmt: int, tx: int, kind: Kind, commits: bool): seq<Op> {
    [Execute(stmt, tx, kind == ExecProcedure)] + if commits then [CommitRetaining(tx)] else []
  }

  /** Everything an ad-hoc statement says before it is executed. */
  function Starting(begins: bool, stmt: int, tx: int, described: bool, stores: nat): seq<Op> {
    Beginning(begins) + Preparing(tx, stmt, described) + Repeat(WriteBlob(tx), stores)
  }

  /** What a call meets: the transactions in force, and the number of the next request. */
  datatype Setting = Setting(activeTx: int, autoTx: int, step: nat) {
    /** Whether a statement begins a transaction first. */
    predicate Begins() { activeTx == 0 && autoTx == 0 }

    /** The transaction a statement runs in; one to be begun has the handle its answer brings. */
    function Tx(replies: nat -> Reply): int {
      if activeTx != 0 then activeTx else if autoTx != 0 then autoTx
      else match replies(step) case Ok(handle, _, _, _, _) => handle case _ => 0
    }

    /** The request number of the next prepare. */
    function PrepareStep(): nat { step + if Begins() then 1 else 0 }
  }

  /** An ad-hoc execution from beginning to end. */
  ghost predicate SaysExec(log: seq<Event>, from: nat, replies: nat -> Reply, at: Setting, args: Args) {
    var d := Description(replies, at.PrepareStep(), false);
    d.Ok? && exists stmt ::
      Said(log, from) == Starting(at.Begins(), stmt, at.Tx(replies), true, Stores(d.inputs, args))
                         + (Running(stmt, at.Tx(replies), d.kind, at.activeTx == 0)
                            + [RowCount(stmt), Recycle(stmt, false)])
  }

  /**
   * The first close of rows: an ad-hoc query gives its handle back, a prepared one closes its cursor, and then
   * whatever may have changed something commits, unless the transport has failed already.
   */
  function Closing(stmt: int, tx: int, autoFree: bool, auto: bool, kind: Kind, first: Reply): seq<Op> {
    (if autoFree then [Recycle(stmt, kind != ExecProcedure)]
     else if kind != ExecProcedure then [Free(stmt, false)] else [])
    + if auto && kind != Select && kind != SelectForUpdate
         && !((autoFree || kind != ExecProcedure) && first == TransportError)
      then [CommitRetaining(tx)] else []
  }

  /** A query from its execution on: a procedure's row comes with the answer, and its blobs are read at once. */
  function Querying(stmt: int, tx: int, kind: Kind, r: Reply): seq<Op> {
    [Execute(stmt, tx, kind == ExecProcedure)] + Repeat(ReadBlob(tx), RowBlobs(r, kind))
  }

  /** An ad-hoc query from beginning to end. */
  ghost predicate SaysQuery(log: seq<Event>, from: nat, replies: nat -> Reply, at: Setting, args: Args, stmt: int) {
    var d := Description(replies, at.PrepareStep(), true);
    d.Ok? &&
    var before := Starting(at.Begins(), stmt, at.Tx(replies), !Cached(replies, at.PrepareStep(), true),
                           Stores(d.inputs, args));
    Said(log, from) == before + Querying(stmt, at.Tx(replies), d.kind, replies(at.step + |before|))
  }

  ghost predicate SaysPrepare(log: seq<Event>, from: nat, replies: nat -> Reply, at: Setting, stmt: int) {
    Said(log, from) == Beginning(at.Begins()) + Preparing(at.Tx(replies), stmt, true)
  }

  /** What executing a prepared statement says; only if the server gives out the handle 0 does it begin again. */
  ghost predicate SaysStmtExec(log: seq<Event>, from: nat, replies: nat -> Reply, at: Setting, args: Args,
                               stmt: int, kind: Kind, inputs: nat)
  {
    exists tx, again ::
      && (if again then at.Tx(replies) == 0 else tx == at.Tx(replies))
      && Said(log, from) == Binding(at, replies, Stores(inputs, args))
                            + Rerunning(at, again, stmt, tx, kind)
  }

  function Rerunning(at: Setting, again: bool, stmt: int, tx: int, kind: Kind): seq<Op> {
    Beginning(again) + (Running(stmt, tx, kind, at.activeTx == 0) + [RowCount(stmt)])
  }

  function Binding(at: Setting, replies: nat -> Reply, stores: nat): seq<Op> {
    Beginning(at.Begins()) + Repeat(WriteBlob(at.Tx(replies)), stores)
  }

  ghost predicate SaysStmtQuery(log: seq<Event>, from: nat, replies: nat -> Reply, at: Setting, args: Args,
                                stmt: int, kind: Kind, inputs: nat)
  {
    var before := Binding(at, replies, Stores(inputs, args));
    Said(log, from) == before + Querying(stmt, at.Tx(replies), kind, replies(at.step + |before|))
  }

  class Conn {
    var closed: bool
    var bad: bool
    var activeTx: int
    var autoTx: int
    var dirtyAutoTx: bool
    const replies: nat -> Reply
    var t: Trace
    /** The connection was reset while an explicit transaction was open. */
    var abandoned: bool

    /** An explicit transaction excludes an auto-commit one; a bad connection has neither, and a reason. */
    ghost predicate Inv()
      reads this
    {
      && (activeTx != 0 ==> autoTx == 0)
      && (bad ==> activeTx == 0 && autoTx == 0)
      && (bad ==> t.broken || abandoned)
      && !dirtyAutoTx
      && Kept(t, replies)
    }

    constructor (replies: nat -> Reply)
      ensures Inv() && !closed && !bad && activeTx == 0 && autoTx == 0 && !abandoned
      ensures t == START && this.replies == replies
    {
      closed, bad, activeTx, autoTx, dirtyAutoTx, abandoned := false, false, 0, 0, false, false;
      this.replies := replies;
      t := START;
      StartKept(replies);
    }

    function At(): Setting
      reads this
    {
      Setting(activeTx, autoTx, t.step)
    }

    /** Whether closing a statement would find changes to commit; it never does. */
    predicate CommitDue()
      reads this
    {
      dirtyAutoTx && activeTx == 0 && autoTx != 0
    }

    /** One wire operation. */
    method Do(op: Op) returns (r: Reply)
      requires Kept(t, replies) && !op.Prepare?
      modifies `t
      ensures Kept(t, replies) && r == replies(old(t.step)) && t == Next(old(t), op, r) && t.step == old(t.step) + 1
      ensures t.broken == (old(t.broken) || r == TransportError)
    {
      r := replies(t.step);
      NextKept(t, op, replies);
      t := Next(t, op, r);
    }

    /** Allocate and prepare: unless a handle was misused before, the one brought back is nobody's while in step. */
    method DoPrepare(tx: int) returns (r: Reply, stmt: int)
      requires Kept(t, replies)
      modifies `t
      ensures Kept(t, replies) && r == replies(old(t.step)) && t == Next(old(t), Prepare(tx, stmt), r)
      ensures t.step == old(t.step) + 1 && (r.Ok? && old(t).inStep && old(t).faultless ==> stmt !in old(t).inUse)
      ensures t.broken == (old(t.broken) || r == TransportError)
    {
      r := replies(t.step);
      stmt := if r.Ok? then HandedOut(t, r.handle) else 0;
      if r.Ok? {
        HandedOutFree(t, r.handle, replies);
      }
      NextKept(t, Prepare(tx, stmt), replies);
      t := Next(t, Prepare(tx, stmt), r);
    }

    /** Execute and commit-retaining in one flush: success means both were acknowledged. */
    method DoExecuteAndCommit(stmt: int, tx: int) returns (r: Reply)
      requires Kept(t, replies)
      modifies `t
      ensures Kept(t, replies) && r == replies(old(t.step)) && t.step == old(t.step) + 1
      ensures t == NextBoth(old(t), Execute(stmt, tx, false), CommitRetaining(tx), r)
      ensures t.broken == (old(t.broken) || r == TransportError)
    {
      r := replies(t.step);
      NextBothKept(t, Execute(stmt, tx, false), CommitRetaining(tx), replies);
      t := NextBoth(t, Execute(stmt, tx, false), CommitRetaining(tx), r);
    }

    method MarkBad()
      modifies `bad, `activeTx, `autoTx, `dirtyAutoTx
      ensures bad
      ensures old(bad) ==> activeTx == old(activeTx) && autoTx == old(autoTx) && dirtyAutoTx == old(dirtyAutoTx)
      ensures !old(bad) ==> activeTx == 0 && autoTx == 0 && !dirtyAutoTx
    {
      if bad {
        return;
      }
      bad, activeTx, autoTx, dirtyAutoTx := true, 0, 0, false;
    }

    /** Only a transport failure condemns the connection, and only a retryable one says so to the pool. */
    method HandleError(err: Option<Error>, retryable: bool) returns (r: Option<Error>)
      requires Inv() && (err.Some? && IsTransport(err.value) ==> t.broken || bad)
      modifies `bad, `activeTx, `autoTx, `dirtyAutoTx
      ensures Inv()
      ensures r == if err == Some(Transport) && retryable then Some(BadConn) else err
      ensures bad <==> old(bad) || (err.Some? && IsTransport(err.value))
      ensures bad == old(bad) ==> activeTx == old(activeTx) && autoTx == old(autoTx)
    {
      if err.None? {
        return None;
      }
      if !IsTransport(err.value) {
        return err;
      }
      MarkBad();
      r := if retryable then Some(BadConn) else err;
    }

    method InvalidateAutoTx()
      modifies `autoTx, `dirtyAutoTx
      ensures autoTx == 0 && !dirtyAutoTx
    {
      autoTx, dirtyAutoTx := 0, false;
    }

    /** The persistent transaction, begun when there is none. */
    method GetAutoTx() returns (tx: int, err: Option<Error>)
      requires Inv() && !bad && activeTx == 0
      modifies this
      ensures Inv() && closed == old(closed) && abandoned == old(abandoned) && activeTx == 0
      ensures KeepsTx(old(bad), old(activeTx), bad, activeTx)
      ensures old(autoTx) != 0 ==> tx == old(autoTx) && err == None && autoTx == tx && !bad && t == old(t)
      ensures old(autoTx) == 0 ==>
        var r := replies(old(t.step));
        && t == Next(old(t), Begin, r)
        && (r.Ok? ==> err == None && tx == r.handle && autoTx == tx && !bad)
        && (r.StatusError? ==> err == Some(Server) && !bad && autoTx == 0)
        && (r == TransportError ==> err == Some(BadConn) && bad)
    {
      hide Kept, Next;
      if autoTx != 0 {
        return autoTx, None;
      }
      var r := Do(Begin);
      if !r.Ok? {
        var e := HandleError(Failure(r), true);
        return 0, e;
      }
      autoTx := r.handle;
      return r.handle, None;
    }

    /** The transaction a statement runs in; explicit when there is one. */
    method TxForStatement() returns (tx: int, autoCommit: bool, err: Option<Error>)
      requires Inv() && !bad
      modifies this
      ensures Inv() && closed == old(closed) && abandoned == old(abandoned) && autoCommit == (old(activeTx) == 0)
      ensures KeepsTx(old(bad), old(activeTx), bad, activeTx)
      ensures t == if autoCommit && old(autoTx) == 0 then Next(old(t), Begin, replies(old(t.step))) else old(t)
      ensures t.step == old(PrepareStep())
      ensures err.None? ==> !bad && activeTx == old(activeTx) && (if autoCommit then autoTx == tx else tx == activeTx)
      ensures err.Some? ==> autoCommit && autoTx == 0 && (err == Some(Server) || (err == Some(BadConn) && bad))
      ensures CausedBy(err, replies, old(t.step), t.step)
      ensures err.None? ==> tx == old(At()).Tx(replies)
      ensures Said(t.log, |old(t.log)|) == Beginning(old(At()).Begins()) && |t.log| - |old(t.log)| == t.step - old(t.step)
    {
      hide Kept, Next, Said;
      SaysNext(t, t, Begin, replies(t.step));
      autoCommit := activeTx == 0;
      tx, err := activeTx, None;
      if autoCommit {
        tx, err := GetAutoTx();
        NextStep(old(t), Begin, replies(old(t.step)));
        if err.Some? {
          err := HandleError(err, true);
        }
      }
    }

    /** Stores each blob argument in turn; the first failure stops it. */
    method MaterializeNamedBlobs(tx: int, blobs: seq<BlobArg>) returns (err: Option<Error>)
      requires Inv()
      modifies this
      ensures Inv() && closed == old(closed) && abandoned == old(abandoned) && OnlyBlobs(old(t), t, WriteBlob(tx))
      ensures KeepsTx(old(bad), old(activeTx), bad, activeTx)
      ensures err.None? <==> AllStored(replies, old(t.step), blobs)
      ensures err.None? ==>
        && t.step == old(t.step) + CountStored(blobs) && |t.log| == |old(t.log)| + CountStored(blobs)
        && Unencodable !in blobs && Said(t.log, |old(t.log)|) == Repeat(WriteBlob(tx), CountStored(blobs))
        && bad == old(bad) && activeTx == old(activeTx) && autoTx == old(autoTx)
      ensures err.Some? ==>
        && (err == Some(Server) || err == Some(Transport) || (err == Some(Refused) && Unencodable in blobs))
        && CausedBy(err, replies, old(t.step), t.step) && (bad <==> old(bad) || err == Some(Transport))
        && (err != Some(Transport) ==> activeTx == old(activeTx) && autoTx == old(autoTx))
    {
      hide Kept, Next, Said;
      StoredEncodable(replies, t.step, blobs);
      for i := 0 to |blobs|
        invariant Inv() && closed == old(closed) && abandoned == old(abandoned)
        invariant bad == old(bad) && activeTx == old(activeTx) && autoTx == old(autoTx)
        invariant OnlyBlobs(old(t), t, WriteBlob(tx))
        invariant AllStored(replies, old(t.step), blobs) <==> AllStored(replies, t.step, blobs[i..])
        invariant t.step + CountStored(blobs[i..]) == old(t.step) + CountStored(blobs)
        invariant |t.log| + CountStored(blobs[i..]) == |old(t.log)| + CountStored(blobs)
      {
        assert blobs[i..][0] == blobs[i] && blobs[i..][1..] == blobs[i + 1..];
        match blobs[i]
        case NotABlob =>
        case AlreadyStored =>
        case Unencodable =>
          return Some(Refused);
        case Stored =>
          ghost var before := t;
          var r := Do(WriteBlob(tx));
          BlobNext(old(t), before, WriteBlob(tx), r);
          if !r.Ok? {
            err := HandleError(Failure(r), false);
            return;
          }
      }
      SaidAll(old(t.log), t.log, WriteBlob(tx));
      err := None;
    }

    // -------------------------------------------------------------------------
    // Ad-hoc statements
    // -------------------------------------------------------------------------

    /** Undoes what a failed ad-hoc statement leaves behind, and classifies the failure. */
    method Abandon(stmt: int, autoCommit: bool, failure: Option<Error>) returns (err: Option<Error>)
      requires Inv() && failure.Some? && (IsTransport(failure.value) ==> t.broken || bad)
      modifies this
      ensures Inv() && closed == old(closed) && abandoned == old(abandoned) && err == failure
      ensures (autoCommit ==> autoTx == 0) && (IsTransport(failure.value) ==> bad)
      ensures KeepsTx(old(bad), old(activeTx), bad, activeTx)
      ensures t == Next(old(t), Free(stmt, true), replies(old(t.step))) && t.step == old(t.step) + 1
    {
      hide Kept, Next;
      if autoCommit {
        InvalidateAutoTx();
      }
      var _ := Do(Free(stmt, true));
      err := HandleError(failure, false);
    }

    /** Executes in `tx`; an auto-commit execution also commits, in the same flush unless it is a procedure. */
    method ExecuteAdHoc(stmt: int, tx: int, autoCommit: bool, kind: Kind) returns (err: Option<Error>)
      requires Inv()
      modifies this
      ensures Inv() && closed == old(closed) && abandoned == old(abandoned)
      ensures KeepsTx(old(bad), old(activeTx), bad, activeTx)
      ensures Executes(old(t), t, stmt, tx, autoCommit, err.None?) && Drops(old(t), t, stmt)
      ensures WireError(err) && CausedBy(err, replies, old(t.step), t.step)
      ensures err.Some? && autoCommit ==> autoTx == 0
      ensures err == Some(Transport) ==> bad
      ensures err.None? ==>
        && Said(t.log, |old(t.log)|) == Running(stmt, tx, kind, autoCommit) + [RowCount(stmt), Recycle(stmt, false)]
        && old(t.log) <= t.log && old(t.step) + 2 <= t.step && (bad <==> old(bad) || replies(t.step - 2) == TransportError)
        && (bad == old(bad) ==> autoTx == old(autoTx))
        && (autoCommit && kind != ExecProcedure ==> OneFlush(t.log, |old(t.log)|))
    {
      hide Kept, Next, NextBoth, Executes, Handles, Drops, Said, Running, OneFlush;
      var r := ExecuteAndCommit(stmt, tx, autoCommit, kind);
      ghost var executed := t;
      if !r.Ok? {
        ExecutesMore(old(t), t, stmt, tx, autoCommit, false, Free(stmt, true), replies(t.step));
        err := Abandon(stmt, autoCommit, Failure(r));
        return;
      }
      ExecutesFinish(old(t), executed, stmt, tx, autoCommit, replies(t.step), replies(t.step + 1));
      CountAndRecycle(stmt);
      if autoCommit && kind != ExecProcedure {
        FlushStays(executed.log, t.log, |old(t.log)|, |old(t.log)|);
      }
      err := None;
    }

    /** Asks for the number of rows, whose answer can only condemn the connection, and gives the handle back. */
    method CountAndRecycle(stmt: int)
      requires Inv()
      modifies this
      ensures Inv() && closed == old(closed) && abandoned == old(abandoned)
      ensures KeepsTx(old(bad), old(activeTx), bad, activeTx)
      ensures t == Next(Next(old(t), RowCount(stmt), replies(old(t.step))), Recycle(stmt, false), replies(old(t.step) + 1))
      ensures t.step == old(t.step) + 2 && (bad <==> old(bad) || replies(old(t.step)) == TransportError)
      ensures bad == old(bad) ==> autoTx == old(autoTx)
    {
      hide Kept, Next;
      var counted := Do(RowCount(stmt));
      var _ := HandleError(Failure(counted), false);
      var _ := Do(Recycle(stmt, false));
    }

    /** The execution itself and, in auto-commit mode, its commit; the answer that decides. */
    method ExecuteAndCommit(stmt: int, tx: int, autoCommit: bool, kind: Kind) returns (r: Reply)
      requires Kept(t, replies)
      modifies `t
      ensures Kept(t, replies) && Executes(old(t), t, stmt, tx, autoCommit, r.Ok?) && Handles(old(t), t, stmt)
      ensures exists n :: old(t.step) <= n < t.step && r == replies(n)
      ensures (old(t.broken) ==> t.broken) && (r == TransportError ==> t.broken)
      ensures old(t.log) <= t.log && (r.Ok? ==> Said(t.log, |old(t.log)|) == Running(stmt, tx, kind, autoCommit))
      ensures autoCommit && kind != ExecProcedure ==> OneFlush(t.log, |old(t.log)|)
    {
      hide Kept, Next, NextBoth, Executes, Handles, Said, OneFlush;
      var start := t.step;
      if autoCommit && kind != ExecProcedure {
        ExecutesBoth(t, stmt, tx, replies(start));
        SaysBoth(t, stmt, tx, replies(start));
        r := DoExecuteAndCommit(stmt, tx);
      } else {
        ExecutesAlone(t, stmt, tx, kind == ExecProcedure, autoCommit, replies(start), replies(start + 1));
        r := Do(Execute(stmt, tx, kind == ExecProcedure));
        assert r == replies(start);
        SaysNext(old(t), old(t), Execute(stmt, tx, kind == ExecProcedure), r);
        if r.Ok? && autoCommit {
          SaysNext(old(t), t, CommitRetaining(tx), replies(t.step));
          r := Do(CommitRetaining(tx));
          assert r == replies(start + 1);
        }
      }
    }

    /** Stores the blob arguments and encodes the rest, for a statement that will run in `tx`. */
    method BindAdHoc(stmt: int, tx: int, autoCommit: bool, inputs: nat, args: Args) returns (err: Option<Error>)
      requires Inv()
      modifies this
      ensures Inv() && closed == old(closed) && abandoned == old(abandoned) && Binds(old(t), t, stmt, tx)
      ensures KeepsTx(old(bad), old(activeTx), bad, activeTx)
      ensures err.None? ==> Handles(old(t), t, stmt)
      ensures err.None? ==> bad == old(bad) && activeTx == old(activeTx) && autoTx == old(autoTx)
      ensures err.Some? ==> Drops(old(t), t, stmt) && (autoCommit ==> autoTx == 0)
      ensures CausedBy(err, replies, old(t.step), t.step)
      ensures WireError(err) || err == Some(Refused)
      ensures err == Some(Refused) ==> args.Misfit(inputs)
      ensures err.None? && args.given == inputs ==> !args.Misfit(inputs)
      ensures err == Some(Transport) ==> bad
      ensures err.None? ==> old(t.log) <= t.log && |t.log| - |old(t.log)| == t.step - old(t.step)
      ensures err.None? ==> Said(t.log, |old(t.log)|) == Repeat(WriteBlob(tx), Stores(inputs, args))
    {
      hide Kept, Next, Said;
      SaysNothing(t);
      err := None;
      if inputs > 0 && args.given > 0 {
        err := MaterializeNamedBlobs(tx, args.blobs);
        BindsAbandoned(old(t), t, stmt, tx, replies(t.step));
        if err.Some? {
          err := Abandon(stmt, autoCommit, err);
          return;
        }
        if !args.encodes {
          err := Abandon(stmt, autoCommit, Some(Refused));
        }
      }
    }

    /** Prepares a statement and has it described, unless a cached description will do. */
    method PrepareAndDescribe(tx: int, mayUseCache: bool) returns (stmt: int, d: Reply, err: Option<Error>)
      requires Inv() && !bad
      modifies this
      ensures Inv() && closed == old(closed) && abandoned == old(abandoned)
      ensures KeepsTx(old(bad), old(activeTx), bad, activeTx)
      ensures Prepares(old(t), t, stmt, tx, err.None?)
      ensures if err.None? then Gains(old(t), t, stmt) else SameHands(old(t), t)
      ensures err.None? ==> !bad && activeTx == old(activeTx) && autoTx == old(autoTx)
      ensures err.None? ==>
        d.Ok? && d == Description(replies, old(t.step), mayUseCache)
      ensures CausedBy(err, replies, old(t.step), t.step)
      ensures WireError(err) || (err == Some(BadConn) && bad)
      ensures err == Some(Transport) ==> bad
      ensures err.None? ==> old(t.log) <= t.log && |t.log| - |old(t.log)| == t.step - old(t.step)
      ensures err.None? ==>
        Said(t.log, |old(t.log)|) == Preparing(tx, stmt, !Cached(replies, old(t.step), mayUseCache))
    {
      hide Kept, Next, Prepares, Gains, SameHands, Handles, Drops, CausedBy, Said;
      ghost var begun := t;
      d, stmt := DoPrepare(tx);
      SaysNext(begun, begun, Prepare(tx, stmt), d);
      PreparesStart(begun, stmt, tx, d);
      err := None;
      if !d.Ok? {
        if activeTx == 0 {
          InvalidateAutoTx();
        }
        err := HandleError(Failure(d), true);
        CausedHere(err, d, replies, begun.step, begun.step, t.step);
        return;
      }
      if !mayUseCache || !d.cached {
        ghost var before := t;
        d := Do(Describe(stmt));
        PreparesMore(begun, before, stmt, tx, Describe(stmt), d);
        SaysNext(begun, before, Describe(stmt), d);
        if !d.Ok? {
          PreparesGiveUp(begun, t, stmt, tx, replies(t.step));
          var _ := Do(Recycle(stmt, false));
          err := HandleError(Failure(d), false);
          CausedHere(err, d, replies, begun.step, before.step, t.step);
          return;
        }
      }
      CausedNone(replies, begun.step, t.step);
    }

    /** Prepares an ad-hoc statement for one execution with these arguments. */
    method PrepareAdHoc(tx: int, args: Args, mayUseCache: bool)
      returns (stmt: int, kind: Kind, inputs: nat, err: Option<Error>)
      requires Inv() && !bad
      modifies this
      ensures Inv() && closed == old(closed) && abandoned == old(abandoned)
      ensures KeepsTx(old(bad), old(activeTx), bad, activeTx)
      ensures Prepares(old(t), t, stmt, tx, err.None?)
      ensures if err.None? then Gains(old(t), t, stmt) else SameHands(old(t), t)
      ensures err.None? ==> !bad && activeTx == old(activeTx) && autoTx == old(autoTx)
      ensures err.None? || err == Some(Refused) ==>
        var d := Description(replies, old(t.step), mayUseCache);
        d.Ok? && d.kind == kind && d.inputs == inputs && (err.None? <==> args.given == inputs)
      ensures CausedBy(err, replies, old(t.step), t.step)
      ensures WireError(err) || err == Some(Refused) || (err == Some(BadConn) && bad)
      ensures err == Some(Transport) ==> bad
      ensures err.None? ==> old(t.log) <= t.log && |t.log| - |old(t.log)| == t.step - old(t.step)
      ensures err.None? ==>
        Said(t.log, |old(t.log)|) == Preparing(tx, stmt, !Cached(replies, old(t.step), mayUseCache))
    {
      hide Kept, Next, Prepares, Gains, SameHands, Handles, Drops, Said, Preparing;
      kind, inputs := Change, 0;
      var d;
      stmt, d, err := PrepareAndDescribe(tx, mayUseCache);
      if err.Some? {
        return;
      }
      kind, inputs := d.kind, d.inputs;
      if args.given != inputs {
        PreparesGiveUp(old(t), t, stmt, tx, replies(t.step));
        var _ := Do(Recycle(stmt, false));
        err := Some(Refused);
      }
    }

    /** The request number of the next prepare. */
    function PrepareStep(): nat
      reads this
    {
      At().PrepareStep()
    }

    /** Everything an ad-hoc statement does before it is executed. */
    method StartAdHoc(args: Args, mayUseCache: bool)
      returns (stmt: int, tx: int, autoCommit: bool, kind: Kind, err: Option<Error>)
      requires Inv() && !bad
      modifies this
      ensures Inv() && closed == old(closed) && abandoned == old(abandoned) && autoCommit == (old(activeTx) == 0)
      ensures KeepsTx(old(bad), old(activeTx), bad, activeTx)
      ensures Starts(old(t), t, stmt, tx, autoCommit, old(PrepareStep()), err.None?)
      ensures !autoCommit ==> tx == old(activeTx)
      ensures if err.None? then Gains(old(t), t, stmt) else SameHands(old(t), t)
      ensures err == Some(BadConn) ==> NoEffects(t.log, |old(t.log)|) && bad
      ensures err.Some? && autoCommit && !NoEffects(t.log, |old(t.log)|) ==> autoTx == 0
      ensures err.None? ==> !bad && activeTx == old(activeTx) && (autoCommit ==> autoTx == tx)
      ensures err.None? || err == Some(Refused) ==>
        var d := Description(replies, old(PrepareStep()), mayUseCache);
        d.Ok? && d.kind == kind && (err.None? <==> !args.Misfit(d.inputs))
      ensures CausedBy(err, replies, old(t.step), t.step) && err != Some(Cancelled)
      ensures err == Some(Transport) ==> bad
      ensures err.None? ==>
        var d := Description(replies, old(PrepareStep()), mayUseCache);
        && tx == old(At()).Tx(replies) && |t.log| - |old(t.log)| == t.step - old(t.step)
        && Said(t.log, |old(t.log)|) == Starting(old(At()).Begins(), stmt, tx,
             !Cached(replies, old(PrepareStep()), mayUseCache), Stores(d.inputs, args))
    {
      hide Kept, Next, Prepares, Binds, Starts, Gains, SameHands, Handles, Drops, CausedBy, Said, Stores, Preparing;
      stmt, kind := 0, Change;
      tx, autoCommit, err := TxForStatement();
      ghost var begun := t;
      StartsBegun(old(t), begun, stmt, tx, autoCommit, begun.step, replies(old(t.step)));
      if err.Some? {
        return;
      }
      var inputs;
      stmt, kind, inputs, err := PrepareAdHoc(tx, args, mayUseCache);
      StartsBegun(old(t), begun, stmt, tx, autoCommit, begun.step, replies(old(t.step)));
      StartsPrepared(old(t), begun, t, stmt, tx, autoCommit, begun.step, err.None?);
      CausedLater(err, replies, old(t.step), begun.step, t.step, t.step);
      if err.Some? {
        return;
      }
      ghost var prepared := t;
      err := BindAdHoc(stmt, tx, autoCommit, inputs, args);
      StartsBound(old(t), prepared, t, stmt, tx, autoCommit, begun.step);
      CausedLater(err, replies, old(t.step), prepared.step, t.step, t.step);
      if err.None? {
        SaysJoin(old(t), begun, prepared);
        SaysJoin(old(t), prepared, t);
      }
    }

    method ExecContext(args: Args, cancelled: bool) returns (err: Option<Error>)
      requires Inv()
      modifies this
      ensures Inv() && closed == old(closed) && abandoned == old(abandoned)
      ensures KeepsTx(old(bad), old(activeTx), bad, activeTx)
      ensures Later(old(t), t) && SameHands(old(t), t)
      ensures old(closed) || old(bad) ==> err == Some(BadConn) && t == old(t)
      ensures err == Some(Cancelled) <==> !old(closed) && !old(bad) && cancelled
      ensures err == Some(BadConn) ==> NoEffects(t.log, |old(t.log)|) && (closed || bad)
      ensures err.None? ==> Ran(t.log, |old(t.log)|)
      ensures err.None? && old(activeTx) == 0 && t.inStep ==> Durable(t.log, |old(t.log)|)
      ensures old(activeTx) != 0 ==> StaysIn(t.log, |old(t.log)|, old(activeTx))
      ensures err.Some? && old(activeTx) == 0 && !NoEffects(t.log, |old(t.log)|) ==> autoTx == 0
      ensures RunsOnce(t.log, |old(t.log)|) && NamesOwn(t.log, |old(t.log)|)
      ensures !old(closed) && !old(bad) ==> CausedBy(err, replies, old(t.step), t.step)
      ensures err == Some(Refused) ==> Refuses(args, Description(replies, old(PrepareStep()), false))
      ensures err.None? ==> Accepts(args, Description(replies, old(PrepareStep()), false))
      ensures err == Some(Transport) ==> bad
      ensures err.None? ==> SaysExec(t.log, |old(t.log)|, replies, old(At()), args)
      ensures err.None? && old(activeTx) == 0 && Description(replies, old(PrepareStep()), false).kind != ExecProcedure ==>
        OneFlush(t.log, |old(t.log)|)
      ensures err.None? ==> t.step >= 2 && (bad <==> replies(t.step - 2) == TransportError)
      ensures err.None? && !bad && old(activeTx) == 0 ==> autoTx == old(At()).Tx(replies)
    {
      hide Kept, Next, Starts, Executes, Gains, SameHands, Drops, CausedBy, Durable, RunsOnce, NamesOwn, Ran, StaysIn;
      hide Said, Starting, Stores, Running, OneFlush;
      Nothing(t, replies);
      if closed || bad {
        return Some(BadConn);
      }
      if cancelled {
        return Some(Cancelled);
      }
      var stmt, tx, autoCommit, kind;
      stmt, tx, autoCommit, kind, err := StartAdHoc(args, false);
      StartsMeans(old(t), t, stmt, tx, autoCommit, old(PrepareStep()), err.None?);
      if err.Some? {
        return;
      }
      ghost var started := t;
      err := ExecuteAdHoc(stmt, tx, autoCommit, kind);
      InStepThroughout(t, replies);
      AdHocExecuted(old(t), started, t, stmt, tx, autoCommit, old(PrepareStep()), autoCommit, err.None?);
      CausedLater(err, replies, old(t.step), started.step, t.step, t.step);
      if err.None? {
        SaysJoin(old(t), started, t);
        if autoCommit && kind != ExecProcedure {
          FlushStays(t.log, t.log, |started.log|, |old(t.log)|);
        }
      }
    }

    /** Reads the blobs of a returned row. */
    method MaterializeRowBlobs(tx: int, count: nat) returns (err: Option<Error>)
      requires Kept(t, replies)
      modifies `t
      ensures Kept(t, replies) && OnlyBlobs(old(t), t, ReadBlob(tx))
      ensures WireError(err) && CausedBy(err, replies, old(t.step), t.step)
      ensures err == Some(Transport) ==> t.broken
      ensures old(t.step) <= t.step && (err.None? ==> Said(t.log, |old(t.log)|) == Repeat(ReadBlob(tx), count))
    {
      hide Kept, Next, Said;
      for i := 0 to count
        invariant Kept(t, replies) && OnlyBlobs(old(t), t, ReadBlob(tx)) && |t.log| == |old(t.log)| + i
      {
        ghost var before := t;
        var r := Do(ReadBlob(tx));
        BlobNext(old(t), before, ReadBlob(tx), r);
        if !r.Ok? {
          return Failure(r);
        }
      }
      SaidAll(old(t.log), t.log, ReadBlob(tx));
      err := None;
    }

    /** Runs a query; a procedure's row comes with the answer, and its blobs are read at once. */
    method ExecuteQuery(stmt: int, tx: int, kind: Kind) returns (err: Option<Error>)
      requires Kept(t, replies)
      modifies `t
      ensures Kept(t, replies) && Executes(old(t), t, stmt, tx, false, err.None?) && Handles(old(t), t, stmt)
      ensures WireError(err) && CausedBy(err, replies, old(t.step), t.step)
      ensures (old(t.broken) ==> t.broken) && (err == Some(Transport) ==> t.broken)
      ensures err.None? ==>
        && old(t.log) <= t.log
        && Said(t.log, |old(t.log)|) == Querying(stmt, tx, kind, replies(old(t.step)))
    {
      hide Kept, Next, Executes, Handles, Said;
      var returning := kind == ExecProcedure;
      ExecutesAlone(t, stmt, tx, returning, false, replies(t.step), replies(t.step));
      SaysNext(t, t, Execute(stmt, tx, returning), replies(t.step));
      var r := Do(Execute(stmt, tx, returning));
      err := Failure(r);
      if r.Ok? && returning && r.rowBlobs.Some? {
        ghost var executed := t;
        err := MaterializeRowBlobs(tx, r.rowBlobs.value);
        ExecutesBlobs(old(t), executed, t, stmt, tx);
        SaysJoin(old(t), executed, t);
        CausedLater(err, replies, old(t.step), executed.step, t.step, t.step);
      }
    }

    method QueryContext(args: Args, cancelled: bool) returns (rows: Option<Rows>, err: Option<Error>)
      requires Inv()
      modifies this
      ensures Inv() && closed == old(closed) && abandoned == old(abandoned)
      ensures KeepsTx(old(bad), old(activeTx), bad, activeTx)
      ensures Later(old(t), t) && (rows.Some? <==> err.None?)
      ensures old(closed) || old(bad) ==> err == Some(BadConn) && t == old(t)
      ensures err == Some(Cancelled) <==> !old(closed) && !old(bad) && cancelled
      ensures err == Some(BadConn) ==> NoEffects(t.log, |old(t.log)|) && (closed || bad)
      ensures old(activeTx) != 0 ==> StaysIn(t.log, |old(t.log)|, old(activeTx))
      ensures err.Some? && old(activeTx) == 0 && !NoEffects(t.log, |old(t.log)|) ==> autoTx == 0
      ensures RunsOnce(t.log, |old(t.log)|) && NamesOwn(t.log, |old(t.log)|)
      ensures !old(closed) && !old(bad) ==> CausedBy(err, replies, old(t.step), t.step)
      ensures err == Some(Refused) ==> Refuses(args, Description(replies, old(PrepareStep()), true))
      ensures rows.Some? ==>
        var d := Description(replies, old(PrepareStep()), true);
        && !bad && fresh(rows.value) && rows.value.Opened(this, old(activeTx), |old(t.log)|)
        && Accepts(args, d) && rows.value.kind == d.kind && rows.value.autoFreeStmt == (old(activeTx) == 0)
        && Gains(old(t), t, rows.value.stmt) && Brings(t.log, |old(t.log)|, rows.value.stmt, old(PrepareStep()))
      ensures rows.None? ==> SameHands(old(t), t)
      ensures err == Some(Transport) ==> bad
      ensures rows.Some? && old(activeTx) == 0 ==> autoTx == old(At()).Tx(replies)
      ensures rows.Some? ==> SaysQuery(t.log, |old(t.log)|, replies, old(At()), args, rows.value.stmt)
    {
      hide Kept, Next, Starts, Executes, Gains, SameHands, Handles, Drops, CausedBy;
      hide RunsOnce, NamesOwn, StaysIn, Ran, Brings, Said, Starting, Stores, Querying, SaysQuery, NoEffects;
      Nothing(t, replies);
      rows := None;
      if closed || bad {
        return None, Some(BadConn);
      }
      if cancelled {
        return None, Some(Cancelled);
      }
      var stmt, tx, autoCommit, kind;
      stmt, tx, autoCommit, kind, err := StartAdHoc(args, true);
      StartsMeans(old(t), t, stmt, tx, autoCommit, old(PrepareStep()), err.None?);
      if err.Some? {
        return;
      }
      var started := t;
      err := ExecuteQuery(stmt, tx, kind);
      ghost var executed := t;
      AdHocExecuted(old(t), started, t, stmt, tx, autoCommit, old(PrepareStep()), false, err.None?);
      CausedLater(err, replies, old(t.step), started.step, t.step, t.step);
      if err.Some? {
        ExecutesMore(started, t, stmt, tx, false, false, Free(stmt, true), replies(t.step));
        err := Abandon(stmt, autoCommit, err);
        AdHocExecuted(old(t), started, t, stmt, tx, autoCommit, old(PrepareStep()), false, false);
        CausedLater(err, replies, old(t.step), old(t.step), executed.step, t.step);
        return;
      }
      ExecutedAt(started, t, stmt, tx, false);
      AdHocQuerySays(old(t), started, t, replies, old(At()), args, stmt);
      var r := new Rows(this, stmt, tx, autoCommit, autoCommit, kind, |started.log|);
      return Some(r), None;
    }

    // -------------------------------------------------------------------------
    // The rest of driver.Conn
    // -------------------------------------------------------------------------

    /** Prepares in whatever transaction there is. */
    method PrepareContext(cancelled: bool) returns (stmt: Option<Stmt>, err: Option<Error>)
      requires Inv()
      modifies this
      ensures Inv() && closed == old(closed) && abandoned == old(abandoned)
      ensures KeepsTx(old(bad), old(activeTx), bad, activeTx)
      ensures Later(old(t), t) && (stmt.Some? <==> err.None?)
      ensures NoEffects(t.log, |old(t.log)|) && NamesOwn(t.log, |old(t.log)|)
      ensures old(closed) || old(bad) ==> err == Some(BadConn) && t == old(t)
      ensures err == Some(Cancelled) <==> !old(closed) && !old(bad) && cancelled
      ensures err == Some(BadConn) ==> closed || bad
      ensures !old(closed) && !old(bad) ==> CausedBy(err, replies, old(t.step), t.step) && err != Some(Refused)
      ensures stmt.Some? ==>
        var d := replies(old(PrepareStep()) + 1);
        && !bad && fresh(stmt.value) && stmt.value.conn == this && !stmt.value.closed
        && d.Ok? && stmt.value.kind == d.kind && stmt.value.inputs == d.inputs
        && Gains(old(t), t, stmt.value.handle) && Brings(t.log, |old(t.log)|, stmt.value.handle, old(PrepareStep()))
      ensures stmt.None? ==> SameHands(old(t), t)
      ensures err == Some(Transport) ==> bad
      ensures stmt.Some? && old(activeTx) == 0 ==> autoTx == old(At()).Tx(replies)
      ensures stmt.Some? ==> SaysPrepare(t.log, |old(t.log)|, replies, old(At()), stmt.value.handle)
    {
      hide Kept, Next, Starts, Prepares, Gains, SameHands, CausedBy, NamesOwn, Said, Preparing;
      Nothing(t, replies);
      if closed || bad {
        return None, Some(BadConn);
      }
      if cancelled {
        return None, Some(Cancelled);
      }
      var tx, autoCommit;
      tx, autoCommit, err := TxForStatement();
      ghost var begun := t;
      StartsBegun(old(t), begun, 0, tx, autoCommit, begun.step, replies(old(t.step)));
      StartsMeans(old(t), begun, 0, tx, autoCommit, begun.step, false);
      if err.Some? {
        return None, err;
      }
      var handle, d;
      handle, d, err := PrepareAndDescribe(tx, false);
      StartsBegun(old(t), begun, handle, tx, autoCommit, begun.step, replies(old(t.step)));
      StartsPrepared(old(t), begun, t, handle, tx, autoCommit, begun.step, err.None?);
      StartsMeans(old(t), t, handle, tx, autoCommit, begun.step, err.None?);
      CausedLater(err, replies, old(t.step), begun.step, t.step, t.step);
      if err.Some? {
        return None, err;
      }
      StartsBrings(old(t), t, handle, tx, autoCommit, begun.step);
      SaysJoin(old(t), begun, t);
      var s := new Stmt(this, handle, d.kind, d.inputs);
      return Some(s), None;
    }

    method BeginTx(supported: bool, cancelled: bool) returns (tx: Option<Tx>, err: Option<Error>)
      requires Inv()
      modifies this
      ensures Inv() && closed == old(closed) && abandoned == old(abandoned)
      ensures tx.None? ==> KeepsTx(old(bad), old(activeTx), bad, activeTx)
      ensures Later(old(t), t) && SameHands(old(t), t) && Wordless(old(t), t)
      ensures tx.Some? <==> err.None?
      ensures old(closed) || old(bad) ==> err == Some(BadConn)
      ensures err == Some(Cancelled) <==> !old(closed) && !old(bad) && cancelled
      ensures err == Some(Refused) <==> !old(closed) && !old(bad) && !cancelled && !supported
      ensures err == Some(BadConn) ==> closed || bad
      ensures err == Some(Transport) ==> bad
      ensures old(closed) || old(bad) || cancelled || !supported ==> t == old(t) && autoTx == old(autoTx)
      ensures !old(closed) && !old(bad) && !cancelled && supported ==>
        autoTx == 0 && |t.log| > |old(t.log)| && (old(autoTx) != 0 ==> t.log[|old(t.log)|].op == Commit(old(autoTx)))
      ensures !old(closed) && !old(bad) ==> CausedBy(err, replies, old(t.step), t.step)
      ensures tx.Some? ==>
        var r := replies(old(t.step) + if old(autoTx) != 0 then 1 else 0);
        r.Ok? && tx.value.handle == r.handle
      ensures tx.Some? ==>
        && fresh(tx.value) && tx.value.conn == this && !tx.value.done && !bad
        && autoTx == 0 && activeTx == tx.value.handle
        && |t.log| == |old(t.log)| + (if old(autoTx) != 0 then 2 else 1)
        && t.log[|t.log| - 1].op == Begin && t.log[|t.log| - 1].heard
        && (old(autoTx) != 0 ==> t.log[|t.log| - 2].op == Commit(old(autoTx)) && t.log[|t.log| - 2].heard)
    {
      hide Kept, Next;
      WordlessStart(t);
      CausedNone(replies, t.step, t.step);
      if closed || bad {
        return None, Some(BadConn);
      }
      if cancelled {
        return None, Some(Cancelled);
      }
      if !supported {
        return None, Some(Refused);
      }
      if autoTx != 0 {
        WordlessNext(old(t), t, Commit(autoTx), replies(t.step));
        var done := Do(Commit(autoTx));
        InvalidateAutoTx();
        if !done.Ok? {
          CausedHere(Failure(done), done, replies, old(t.step), old(t.step), t.step);
          err := HandleError(Failure(done), false);
          return None, err;
        }
      }
      ghost var n := t.step;
      WordlessNext(old(t), t, Begin, replies(t.step));
      var r := Do(Begin);
      if !r.Ok? {
        err := HandleError(Failure(r), true);
        CausedHere(err, r, replies, old(t.step), n, t.step);
        return None, err;
      }
      activeTx := r.handle;
      CausedNone(replies, old(t.step), t.step);
      var began := new Tx(this, r.handle);
      return Some(began), None;
    }

    /** Commits what is pending, best effort. */
    method CommitPending()
      requires Inv()
      modifies this
      ensures Inv() && autoTx == 0 && closed == old(closed) && abandoned == old(abandoned) && bad == old(bad)
      ensures KeepsTx(old(bad), old(activeTx), bad, activeTx)
      ensures t == if old(autoTx) != 0 then Next(old(t), Commit(old(autoTx)), replies(old(t.step))) else old(t)
    {
      hide Kept, Next;
      if autoTx != 0 {
        var _ := Do(Commit(autoTx));
        InvalidateAutoTx();
      }
    }

    method Close() returns (err: Option<Error>)
      requires Inv()
      modifies this
      ensures Inv() && closed && abandoned == old(abandoned)
      ensures KeepsTx(old(bad), old(activeTx), bad, activeTx)
      ensures Later(old(t), t) && SameHands(old(t), t) && Wordless(old(t), t)
      ensures old(closed) || old(bad) ==> t == old(t) && err.None?
      ensures !old(closed) && !old(bad) ==>
        && autoTx == 0 && |t.log| == |old(t.log)| + (if old(autoTx) != 0 then 3 else 2)
        && t.log[|t.log| - 2].op == Drain && t.log[|t.log| - 1].op == Detach
        && (err.None? <==> t.log[|t.log| - 1].heard)
        && (old(autoTx) != 0 ==> t.log[|t.log| - 3].op == Commit(old(autoTx)))
      ensures CausedBy(err, replies, old(t.step), t.step) && WireError(err)
    {
      hide Kept, Next, Wordless, SameHands;
      WordlessStart(t);
      err := None;
      if closed {
        return;
      }
      closed := true;
      if bad {
        return;
      }
      WordlessNext(t, t, Commit(autoTx), replies(t.step));
      CommitPending();
      WordlessNext(old(t), t, Drain, replies(t.step));
      var _ := Do(Drain);
      WordlessNext(old(t), t, Detach, replies(t.step));
      var r := Do(Detach);
      err := Failure(r);
    }

    method PingContext() returns (err: Option<Error>)
      requires Inv()
      modifies this
      ensures Inv() && closed == old(closed) && abandoned == old(abandoned)
      ensures KeepsTx(old(bad), old(activeTx), bad, activeTx)
      ensures Later(old(t), t) && SameHands(old(t), t) && Wordless(old(t), t)
      ensures old(closed) || old(bad) ==> err == Some(BadConn) && t == old(t)
      ensures !old(closed) && !old(bad) ==>
        && t == Next(old(t), Ping, replies(old(t.step))) && CausedBy(err, replies, old(t.step), t.step)
        && (err.None? <==> replies(old(t.step)).Ok?) && (err.None? || err == Some(Server) || err == Some(BadConn))
      ensures err == Some(BadConn) ==> closed || bad
    {
      hide Kept;
      if closed || bad {
        return Some(BadConn);
      }
      var r := Do(Ping);
      err := HandleError(Failure(r), true);
    }

    /** An explicit transaction still open condemns the connection. */
    method ResetSession() returns (err: Option<Error>)
      requires Inv()
      modifies this
      ensures Inv() && closed == old(closed) && Later(old(t), t) && SameHands(old(t), t) && Wordless(old(t), t)
      ensures KeepsTx(old(bad), old(activeTx), bad, activeTx)
      ensures err == None || err == Some(BadConn)
      ensures err.None? <==> !closed && !old(bad) && old(activeTx) == 0
      ensures err.None? ==> t == old(t) && !bad && activeTx == 0 && autoTx == old(autoTx)
      ensures err.Some? ==> closed || bad
      ensures !old(closed) && !old(bad) && old(activeTx) != 0 ==>
        t == Next(old(t), Rollback(old(activeTx)), replies(old(t.step)))
      ensures abandoned ==> old(abandoned) || (!old(closed) && !old(bad) && old(activeTx) != 0)
    {
      hide Kept;
      if closed || bad {
        return Some(BadConn);
      }
      if activeTx != 0 {
        var _ := Do(Rollback(activeTx));
        activeTx := 0;
        abandoned := true;
        MarkBad();
        return Some(BadConn);
      }
      err := None;
    }
  }

  lemma NextStep(t: Trace, op: Op, r: Reply)
    ensures Later(t, Next(t, op, r)) && Next(t, op, r).step == t.step + 1
    ensures Next(t, op, r).log == t.log + [Event(op, t.step, r.Ok?, t.inStep)]
  {
  }

  lemma SaidLength(log: seq<Event>, from: nat)
    requires from <= |log|
    ensures |Said(log, from)| == |log| - from
  {
  }

  lemma SaysNothing(t: Trace)
    ensures Said(t.log, |t.log|) == []
  {
  }

  lemma SaysNext(a: Trace, b: Trace, op: Op, r: Reply)
    requires a.log <= b.log
    ensures Said(a.log, |a.log|) == [] && Said(Next(a, op, r).log, |a.log|) == [op]
    ensures Said(Next(b, op, r).log, |a.log|) == Said(b.log, |a.log|) + [op]
    ensures b.log <= Next(b, op, r).log && |Next(b, op, r).log| == |b.log| + 1 && Next(b, op, r).step == b.step + 1
  {
    var e := Event(op, b.step, r.Ok?, b.inStep);
    assert Next(b, op, r).log == b.log + [e];
    SaidNext(b.log, |a.log|, e);
    SaidNext(a.log, |a.log|, Event(op, a.step, r.Ok?, a.inStep));
  }

  lemma SaysJoin(a: Trace, b: Trace, c: Trace)
    requires a.log <= b.log <= c.log
    ensures Said(c.log, |a.log|) == Said(b.log, |a.log|) + Said(c.log, |b.log|)
  {
    SaidJoin(b.log, c.log, |a.log|);
  }

  lemma AdHocQuerySays(a: Trace, b: Trace, c: Trace, replies: nat -> Reply, at: Setting, args: Args, stmt: int)
    requires a.log <= b.log <= c.log && at.step == a.step && |b.log| - |a.log| == b.step - a.step
    requires var d, n := Description(replies, at.PrepareStep(), true), at.PrepareStep();
             && d.Ok? && Said(b.log, |a.log|)
                == Starting(at.Begins(), stmt, at.Tx(replies), !Cached(replies, n, true), Stores(d.inputs, args))
             && Said(c.log, |b.log|) == Querying(stmt, at.Tx(replies), d.kind, replies(b.step))
    ensures SaysQuery(c.log, |a.log|, replies, at, args, stmt)
  {
    hide Said, Starting, Stores, Querying, Setting.Tx;
    SaysJoin(a, b, c);
    SaidLength(b.log, |a.log|);
  }

  lemma SaysBoth(t: Trace, stmt: int, tx: int, r: Reply)
    ensures var u := NextBoth(t, Execute(stmt, tx, false), CommitRetaining(tx), r);
            && t.log <= u.log && Said(u.log, |t.log|) == [Execute(stmt, tx, false), CommitRetaining(tx)]
            && OneFlush(u.log, |t.log|)
  {
    var u := NextBoth(t, Execute(stmt, tx, false), CommitRetaining(tx), r);
    assert u.log[|t.log|].op.Execute? && u.log[|t.log| + 1].op == CommitRetaining(tx);
  }

  lemma FlushStays(log: seq<Event>, log': seq<Event>, from: nat, from': nat)
    requires log <= log' && from' <= from && OneFlush(log, from)
    ensures OneFlush(log', from')
  {
    var i :| from <= i < |log| - 1 && log[i].op.Execute?
             && log[i + 1].op == CommitRetaining(log[i].op.tx) && log[i].n == log[i + 1].n;
    assert log'[i] == log[i] && log'[i + 1] == log[i + 1];
  }

  /** In an explicit transaction binding is only storing. */
  lemma BindingInside(at: Setting, replies: nat -> Reply)
    ensures at.activeTx != 0 ==> forall k :: Binding(at, replies, k) == Repeat(WriteBlob(at.activeTx), k)
    ensures Binding(at, replies, 0) == Beginning(at.Begins())
  {
  }

  /** A stretch of blob transfers: no handle is involved and step is kept. */
  ghost predicate OnlyBlobs(a: Trace, b: Trace, op: Op) {
    && Later(a, b) && b.inStep == a.inStep && b.inUse == a.inUse && b.faultless == a.faultless
    && forall i :: |a.log| <= i < |b.log| ==> b.log[i].op == op
  }

  lemma BlobNext(a: Trace, b: Trace, op: Op, r: Reply)
    requires (op.WriteBlob? || op.ReadBlob?) && OnlyBlobs(a, b, op)
    ensures OnlyBlobs(a, Next(b, op, r), op)
    ensures Next(b, op, r).step == b.step + 1 && |Next(b, op, r).log| == |b.log| + 1
  {
  }

  // ---------------------------------------------------------------------------
  // Stretches of one statement's life
  // ---------------------------------------------------------------------------

  predicate WireError(err: Option<Error>) { err == None || err == Some(Server) || err == Some(Transport) }

  /** The stretch starts with an execution in `tx`, the only one, and commits it if it should. */
  ghost predicate Executes(a: Trace, b: Trace, stmt: int, tx: int, autoCommit: bool, ok: bool) {
    var n := |a.log|;
    && Later(a, b) && n < |b.log|
    && (exists returning :: b.log[n].op == Execute(stmt, tx, returning))
    && (ok ==> b.log[n].heard)
    && (ok && autoCommit ==> n + 1 < |b.log| && b.log[n + 1].op == CommitRetaining(tx) && b.log[n + 1].heard)
    && (forall i :: n < i < |b.log| ==> !b.log[i].op.Effect())
    && (!autoCommit ==> StaysIn(b.log, n, tx))
    && NamesOnly(b.log, n, stmt)
  }

  lemma ExecutesAlone(t: Trace, stmt: int, tx: int, returning: bool, autoCommit: bool, r: Reply, r': Reply)
    ensures var u := Next(t, Execute(stmt, tx, returning), r);
            && Executes(t, u, stmt, tx, autoCommit, r.Ok? && !autoCommit) && Handles(t, u, stmt)
            && var v := Next(u, CommitRetaining(tx), r');
               autoCommit ==> Executes(t, v, stmt, tx, autoCommit, r.Ok? && r'.Ok?) && Handles(t, v, stmt)
  {
    assert Next(t, Execute(stmt, tx, returning), r).log[|t.log|].op == Execute(stmt, tx, returning);
  }

  lemma ExecutesBoth(t: Trace, stmt: int, tx: int, r: Reply)
    ensures var u := NextBoth(t, Execute(stmt, tx, false), CommitRetaining(tx), r);
            Executes(t, u, stmt, tx, true, r.Ok?) && Handles(t, u, stmt) && u.step == t.step + 1
  {
    assert NextBoth(t, Execute(stmt, tx, false), CommitRetaining(tx), r).log[|t.log|].op == Execute(stmt, tx, false);
  }

  /** What follows an execution: counting rows, reading blobs, and giving the handle up. */
  lemma ExecutesMore(a: Trace, b: Trace, stmt: int, tx: int, autoCommit: bool, ok: bool, op: Op, r: Reply)
    requires Executes(a, b, stmt, tx, autoCommit, ok) && Handles(a, b, stmt)
    requires op == RowCount(stmt) || op == ReadBlob(tx) || op == Free(stmt, true) || op == Recycle(stmt, false)
    ensures var c := Next(b, op, r);
            && Executes(a, c, stmt, tx, autoCommit, ok)
            && (if op.GivesUp() then Drops(a, c, stmt) else Handles(a, c, stmt))
  {
    var returning :| b.log[|a.log|].op == Execute(stmt, tx, returning);
    assert Next(b, op, r).log[|a.log|].op == Execute(stmt, tx, returning);
  }

  /** An execution that succeeded, its rows counted and its handle given back. */
  lemma ExecutesFinish(a: Trace, b: Trace, stmt: int, tx: int, autoCommit: bool, r: Reply, r': Reply)
    requires Executes(a, b, stmt, tx, autoCommit, true) && Handles(a, b, stmt) && a.log <= b.log
    ensures var c := Next(Next(b, RowCount(stmt), r), Recycle(stmt, false), r');
            && Executes(a, c, stmt, tx, autoCommit, true) && Drops(a, c, stmt) && a.log <= c.log
            && b.log <= c.log
            && Said(c.log, |a.log|) == Said(b.log, |a.log|) + [RowCount(stmt), Recycle(stmt, false)]
  {
    hide Executes, Handles, Drops, Next, Said;
    var c := Next(b, RowCount(stmt), r);
    ExecutesMore(a, b, stmt, tx, autoCommit, true, RowCount(stmt), r);
    SaysNext(a, b, RowCount(stmt), r);
    ExecutesMore(a, c, stmt, tx, autoCommit, true, Recycle(stmt, false), r');
    SaysNext(a, c, Recycle(stmt, false), r');
  }

  /** The stretch stores blobs in `tx` and at most frees `stmt`. */
  ghost predicate Binds(a: Trace, b: Trace, stmt: int, tx: int) {
    && Later(a, b)
    && forall i :: |a.log| <= i < |b.log| ==> b.log[i].op == WriteBlob(tx) || b.log[i].op == Free(stmt, true)
  }

  lemma BindsAbandoned(a: Trace, b: Trace, stmt: int, tx: int, r: Reply)
    requires OnlyBlobs(a, b, WriteBlob(tx))
    ensures Binds(a, b, stmt, tx) && Handles(a, b, stmt)
    ensures var c := Next(b, Free(stmt, true), r);
            Binds(a, c, stmt, tx) && Drops(a, c, stmt) && c.step == b.step + 1
  {
  }

  /** The stretch prepares `stmt` in `tx`, and from there on deals with nothing else. */
  ghost predicate Prepares(a: Trace, b: Trace, stmt: int, tx: int, ok: bool) {
    var n := |a.log|;
    && Later(a, b) && n < |b.log| && b.log[n].op == Prepare(tx, stmt) && b.log[n].n == a.step && (ok ==> b.log[n].heard)
    && (n + 1 < |b.log| ==> b.log[n].heard)
    && (forall i :: n < i < |b.log| ==> b.log[i].op == Describe(stmt) || b.log[i].op == Recycle(stmt, false))
  }

  lemma PreparesStart(t: Trace, stmt: int, tx: int, r: Reply)
    requires r.Ok? && t.inStep && t.faultless ==> stmt !in t.inUse
    ensures var u := Next(t, Prepare(tx, stmt), r);
            && Prepares(t, u, stmt, tx, r.Ok?)
            && (if r.Ok? then Gains(t, u, stmt) else SameHands(t, u))
  {
  }

  lemma PreparesMore(a: Trace, b: Trace, stmt: int, tx: int, op: Op, r: Reply)
    requires Prepares(a, b, stmt, tx, true) && Gains(a, b, stmt) && op == Describe(stmt)
    ensures Prepares(a, Next(b, op, r), stmt, tx, true) && Gains(a, Next(b, op, r), stmt)
  {
  }

  lemma PreparesGiveUp(a: Trace, b: Trace, stmt: int, tx: int, r: Reply)
    requires Prepares(a, b, stmt, tx, true) && Gains(a, b, stmt)
    ensures var c := Next(b, Recycle(stmt, false), r);
            Prepares(a, c, stmt, tx, false) && SameHands(a, c) && c.step == b.step + 1
  {
  }

  lemma {:induction false} StoredEncodable(replies: nat -> Reply, n: nat, blobs: seq<BlobArg>)
    ensures AllStored(replies, n, blobs) ==> Unencodable !in blobs
    decreases |blobs|
  {
    if blobs != [] {
      StoredEncodable(replies, n, blobs[1..]);
      StoredEncodable(replies, n + 1, blobs[1..]);
    }
  }

  /** The arguments do not fit the statement described. */
  predicate Refuses(args: Args, d: Reply) { d.Ok? && args.Misfit(d.inputs) }

  predicate Accepts(args: Args, d: Reply) { d.Ok? && !args.Misfit(d.inputs) }

  /** The stretch leads up to an execution of `stmt` in `tx` without getting there. */
  ghost predicate Starts(a: Trace, b: Trace, stmt: int, tx: int, autoCommit: bool, at: nat, ok: bool) {
    && Later(a, b) && NamesOwn(b.log, |a.log|)
    && (forall i :: |a.log| <= i < |b.log| ==> !b.log[i].op.Execute?)
    && (!autoCommit ==> StaysIn(b.log, |a.log|, tx))
    && (ok ==> Brings(b.log, |a.log|, stmt, at))
  }

  /** Request `at` was a prepare that brought this handle back. */
  ghost predicate Brings(log: seq<Event>, from: nat, stmt: int, at: nat) {
    exists j :: from <= j < |log| && log[j].heard && log[j].op.Prepare? && log[j].op.stmt == stmt && log[j].n == at
  }

  lemma Nothing(t: Trace, replies: nat -> Reply)
    ensures Later(t, t) && SameHands(t, t) && NoEffects(t.log, |t.log|) && RunsOnce(t.log, |t.log|)
    ensures NamesOwn(t.log, |t.log|) && forall tx :: StaysIn(t.log, |t.log|, tx)
    ensures CausedBy(Some(Cancelled), replies, t.step, t.step) && CausedBy(None, replies, t.step, t.step)
  {
  }

  lemma CausedLater(err: Option<Error>, replies: nat -> Reply, from: nat, from': nat, to': nat, to: nat)
    requires from <= from' <= to' <= to
    ensures CausedBy(err, replies, from', to') ==> CausedBy(err, replies, from, to)
  {
  }

  lemma StartsBegun(a: Trace, b: Trace, stmt: int, tx: int, autoCommit: bool, at: nat, r: Reply)
    requires b == a || (autoCommit && b == Next(a, Begin, r))
    ensures Starts(a, b, stmt, tx, autoCommit, at, false) && SameHands(a, b) && NoEffects(b.log, |a.log|)
    ensures a.step <= b.step <= a.step + 1 && (b != a ==> b.step == a.step + 1)
    ensures Quiet(a, b)
  {
  }

  /** No handle is involved at all. */
  ghost predicate Quiet(a: Trace, b: Trace) {
    && Later(a, b) && b.inStep == a.inStep && b.inUse == a.inUse && b.faultless == a.faultless
    && forall i :: |a.log| <= i < |b.log| ==> b.log[i].op.Named().None?
  }

  lemma StartsPrepared(a: Trace, b: Trace, c: Trace, stmt: int, tx: int, autoCommit: bool, at: nat, ok: bool)
    requires Starts(a, b, stmt, tx, autoCommit, at, false) && Quiet(a, b) && NoEffects(b.log, |a.log|)
    requires Prepares(b, c, stmt, tx, ok) && at == b.step
    ensures Starts(a, c, stmt, tx, autoCommit, at, ok) && NoEffects(c.log, |a.log|) && b.step <= c.step
    ensures Gains(b, c, stmt) ==> Gains(a, c, stmt)
    ensures SameHands(b, c) ==> SameHands(a, c)
  {
    var n := |b.log|;
    assert c.log[n].op == Prepare(tx, stmt);
    assert forall i :: |a.log| <= i < n ==> c.log[i] == b.log[i];
  }

  /** More of the same stretch, relying on nothing but a handle it brought back. */
  lemma NamesOwnGrows(before: seq<Event>, after: seq<Event>, from: nat, stmt: int, at: nat)
    requires before <= after && from <= |before| && NamesOwn(before, from) && Brings(before, from, stmt, at)
    requires NamesOnly(after, |before|, stmt)
    ensures NamesOwn(after, from) && Brings(after, from, stmt, at)
  {
    var j :| from <= j < |before| && before[j].heard && before[j].op.Prepare? && before[j].op.stmt == stmt
             && before[j].n == at;
    assert after[j] == before[j];
    forall i | from <= i < |after| && after[i].op.Named().Some?
      ensures exists k :: from <= k < i && after[k].heard && after[k].op.Prepare?
                          && after[k].op.stmt == after[i].op.Named().value
    {
      if i < |before| {
        assert after[i] == before[i];
        var k :| from <= k < i && before[k].heard && before[k].op.Prepare?
                 && before[k].op.stmt == before[i].op.Named().value;
        assert after[k] == before[k];
      }
    }
  }

  lemma StartsBound(a: Trace, b: Trace, c: Trace, stmt: int, tx: int, autoCommit: bool, at: nat)
    requires Starts(a, b, stmt, tx, autoCommit, at, true) && Binds(b, c, stmt, tx)
    ensures Starts(a, c, stmt, tx, autoCommit, at, true) && Starts(a, c, stmt, tx, autoCommit, at, false)
    ensures b.step <= c.step
    ensures Gains(a, b, stmt) && Handles(b, c, stmt) ==> Gains(a, c, stmt)
    ensures Gains(a, b, stmt) && Drops(b, c, stmt) ==> SameHands(a, c)
  {
    NamesOwnGrows(b.log, c.log, |a.log|, stmt, at);
    assert forall i :: |a.log| <= i < |b.log| ==> c.log[i] == b.log[i];
  }

  lemma StartsMeans(a: Trace, b: Trace, stmt: int, tx: int, autoCommit: bool, at: nat, ok: bool)
    requires Starts(a, b, stmt, tx, autoCommit, at, ok)
    ensures Later(a, b) && NamesOwn(b.log, |a.log|) && RunsOnce(b.log, |a.log|)
    ensures !autoCommit ==> StaysIn(b.log, |a.log|, tx)
  {
  }

  lemma InStepThroughout(t: Trace, replies: nat -> Reply)
    requires Kept(t, replies)
    ensures t.inStep ==> forall i :: 0 <= i < |t.log| ==> t.log[i].inStep
  {
  }

  /** An execution after its start: once, with its own handle, in its own transaction, and committed if need be. */
  lemma AdHocExecuted(a: Trace, b: Trace, c: Trace, stmt: int, tx: int, autoCommit: bool, at: nat,
                      commits: bool, ok: bool)
    requires Starts(a, b, stmt, tx, autoCommit, at, true) && Executes(b, c, stmt, tx, commits, ok)
    ensures Later(a, c) && b.step <= c.step && RunsOnce(c.log, |a.log|) && NamesOwn(c.log, |a.log|)
    ensures Brings(c.log, |a.log|, stmt, at)
    ensures !autoCommit && !commits ==> StaysIn(c.log, |a.log|, tx)
    ensures ok ==> Ran(c.log, |a.log|)
    ensures ok && commits && (forall i :: 0 <= i < |c.log| ==> c.log[i].inStep) ==> Durable(c.log, |a.log|)
    ensures Gains(a, b, stmt) && Drops(b, c, stmt) ==> SameHands(a, c)
    ensures Gains(a, b, stmt) && Handles(b, c, stmt) ==> Gains(a, c, stmt)
  {
    NamesOwnGrows(b.log, c.log, |a.log|, stmt, at);
    var n := |b.log|;
    assert c.log[n].op.Execute?;
    assert forall i :: |a.log| <= i < n ==> c.log[i] == b.log[i];
    if ok && commits {
      assert c.log[n + 1].op == CommitRetaining(c.log[n].op.tx);
    }
  }

  lemma CausedNone(replies: nat -> Reply, from: nat, to: nat)
    ensures CausedBy(None, replies, from, to)
  {
  }

  lemma CausedHere(err: Option<Error>, r: Reply, replies: nat -> Reply, from: nat, n: nat, to: nat)
    requires from <= n < to && r == replies(n) && !r.Ok?
    requires err == Failure(r) || (r == TransportError && err == Some(BadConn))
    ensures CausedBy(err, replies, from, to)
  {
  }

  lemma StartsBrings(a: Trace, b: Trace, stmt: int, tx: int, autoCommit: bool, at: nat)
    requires Starts(a, b, stmt, tx, autoCommit, at, true)
    ensures Brings(b.log, |a.log|, stmt, at)
  {
  }

  lemma ExecutesBlobs(a: Trace, b: Trace, c: Trace, stmt: int, tx: int)
    requires Executes(a, b, stmt, tx, false, true) && Handles(a, b, stmt) && OnlyBlobs(b, c, ReadBlob(tx))
    ensures Executes(a, c, stmt, tx, false, true) && Executes(a, c, stmt, tx, false, false) && Handles(a, c, stmt)
  {
    var returning :| b.log[|a.log|].op == Execute(stmt, tx, returning);
    assert c.log[|a.log|].op == Execute(stmt, tx, returning);
  }

  lemma ExecutedAt(a: Trace, b: Trace, stmt: int, tx: int, autoCommit: bool)
    requires Executes(a, b, stmt, tx, autoCommit, true)
    ensures var n := |a.log|;
            n < |b.log| && b.log[n].op.Execute? && b.log[n].op.stmt == stmt && b.log[n].op.tx == tx && b.log[n].heard
  {
  }

  /** Nothing is executed or stored, and no handle is relied on. */
  ghost predicate Wordless(a: Trace, b: Trace) {
    forall i :: |a.log| <= i < |b.log| ==> !b.log[i].op.Effect() && b.log[i].op.Named().None? && !b.log[i].op.Prepare?
  }

  /** Giving a handle up relies on that handle alone. */
  lemma Recycled(t: Trace, stmt: int, r: Reply)
    ensures var u := Next(t, Recycle(stmt, false), r);
            && Later(t, u) && NamesOnly(u.log, |t.log|, stmt) && Drops(t, u, stmt) && u.step == t.step + 1
            && u.log == t.log + [Event(Recycle(stmt, false), t.step, r.Ok?, t.inStep)]
  {
  }

  lemma WordlessStart(t: Trace)
    ensures Later(t, t) && SameHands(t, t) && Wordless(t, t)
  {
  }

  lemma WordlessNext(a: Trace, b: Trace, op: Op, r: Reply)
    requires Later(a, b) && SameHands(a, b) && Wordless(a, b)
    requires !op.Effect() && op.Named().None? && !op.Prepare?
    ensures var c := Next(b, op, r);
            && Later(a, c) && SameHands(a, c) && Wordless(a, c)
            && c.log == b.log + [Event(op, b.step, r.Ok?, b.inStep)]
  {
  }

  /** Executing a prepared statement, after binding that involved no handle. */
  lemma PreparedExecuted(a: Trace, b: Trace, c: Trace, stmt: int, tx: int, commits: bool, ok: bool)
    requires Quiet(a, b) && Executes(b, c, stmt, tx, commits, ok)
    requires forall i :: |a.log| <= i < |b.log| ==> !b.log[i].op.Execute?
    ensures Later(a, c) && b.step <= c.step && RunsOnce(c.log, |a.log|) && NamesOnly(c.log, |a.log|, stmt)
    ensures !commits && StaysIn(b.log, |a.log|, tx) ==> StaysIn(c.log, |a.log|, tx)
    ensures ok ==> Ran(c.log, |a.log|)
    ensures ok && commits && (forall i :: 0 <= i < |c.log| ==> c.log[i].inStep) ==> Durable(c.log, |a.log|)
    ensures Handles(b, c, stmt) ==> Handles(a, c, stmt)
  {
    var n := |b.log|;
    assert c.log[n].op.Execute?;
    assert forall i :: |a.log| <= i < n ==> c.log[i] == b.log[i];
    if ok && commits {
      assert c.log[n + 1].op == CommitRetaining(c.log[n].op.tx);
    }
  }

  /** Transactions are begun and blobs stored, and nothing else happens. */
  ghost predicate OnlyBinding(a: Trace, b: Trace) {
    Quiet(a, b) && forall i :: |a.log| <= i < |b.log| ==> b.log[i].op.Begin? || b.log[i].op.WriteBlob?
  }

  lemma NothingBound(t: Trace, replies: nat -> Reply)
    ensures OnlyBinding(t, t) && NoEffects(t.log, |t.log|) && CausedBy(None, replies, t.step, t.step)
    ensures CausedBy(Some(Refused), replies, t.step, t.step) && forall tx :: StaysIn(t.log, |t.log|, tx)
  {
  }

  lemma BindingBegun(a: Trace, b: Trace, r: Reply)
    requires b == a || b == Next(a, Begin, r)
    ensures OnlyBinding(a, b) && NoEffects(b.log, |a.log|)
    ensures b != a ==> b.step == a.step + 1 && |b.log| == |a.log| + 1
    ensures b == Next(a, Begin, r) ==> b.step == a.step + 1 && |b.log| == |a.log| + 1
  {
  }

  lemma BindingStored(a: Trace, b: Trace, c: Trace, tx: int)
    requires OnlyBinding(a, b) && OnlyBlobs(b, c, WriteBlob(tx))
    ensures OnlyBinding(a, c) && b.step <= c.step
    ensures NoEffects(b.log, |a.log|) ==> (NoEffects(c.log, |a.log|) <==> |c.log| == |b.log|)
    ensures b == a ==> StaysIn(c.log, |a.log|, tx)
  {
    if |b.log| < |c.log| {
      assert c.log[|b.log|].op.Effect();
    }
  }

  lemma Idle(t: Trace, replies: nat -> Reply, stmt: int)
    ensures Later(t, t) && Handles(t, t, stmt) && NoEffects(t.log, |t.log|) && RunsOnce(t.log, |t.log|)
    ensures NamesOnly(t.log, |t.log|, stmt) && forall tx :: StaysIn(t.log, |t.log|, tx)
    ensures CausedBy(Some(Cancelled), replies, t.step, t.step)
  {
  }

  lemma BoundOnly(a: Trace, b: Trace, stmt: int)
    requires OnlyBinding(a, b)
    ensures Later(a, b) && Handles(a, b, stmt) && NamesOnly(b.log, |a.log|, stmt) && RunsOnce(b.log, |a.log|)
    ensures forall i :: |a.log| <= i < |b.log| ==> !b.log[i].op.Execute?
  {
  }

  lemma BoundMore(a: Trace, b: Trace, c: Trace, stmt: int, r: Reply)
    requires OnlyBinding(a, b) && (c == b || c == Next(b, Begin, r))
    ensures OnlyBinding(a, c) && Later(a, c) && Handles(a, c, stmt) && NamesOnly(c.log, |a.log|, stmt)
    ensures RunsOnce(c.log, |a.log|) && (NoEffects(c.log, |a.log|) <==> NoEffects(b.log, |a.log|))
    ensures b.step <= c.step && (c == Next(b, Begin, r) ==> c.step == b.step + 1)
  {
    assert forall i :: |a.log| <= i < |b.log| ==> c.log[i] == b.log[i];
  }

  lemma {:induction false} StoredIsBlob(blobs: seq<BlobArg>)
    ensures CountStored(blobs) > 0 ==> exists i :: 0 <= i < |blobs| && blobs[i] != NotABlob
  {
    if blobs != [] && blobs[0] == NotABlob {
      StoredIsBlob(blobs[1..]);
      if CountStored(blobs) > 0 {
        var i :| 0 <= i < |blobs[1..]| && blobs[1..][i] != NotABlob;
        assert blobs[i + 1] != NotABlob;
      }
    } else if blobs != [] {
      assert blobs[0] != NotABlob;
    }
  }

  lemma FetchedStart(t: Trace, stmt: int, r: Reply)
    ensures var u := Next(t, Fetch(stmt), r);
            u.step == t.step + 1 && |u.log| == |t.log| + 1 && forall tx :: OnlyBlobs(u, u, ReadBlob(tx))
  {
  }

  /** A batch fetched and its blobs read. */
  lemma FetchedAndRead(a: Trace, c: Trace, stmt: int, tx: int, r: Reply)
    requires OnlyBlobs(Next(a, Fetch(stmt), r), c, ReadBlob(tx))
    ensures Later(a, c) && NoEffects(c.log, |a.log|) && NamesOnly(c.log, |a.log|, stmt) && Handles(a, c, stmt)
    ensures |a.log| < |c.log| && c.log[|a.log|].op == Fetch(stmt) && c.log[|a.log|].heard == r.Ok?
    ensures Said(c.log, |a.log|) == [Fetch(stmt)] + Said(c.log, |a.log| + 1)
  {
    var b := Next(a, Fetch(stmt), r);
    assert b.log == a.log + [Event(Fetch(stmt), a.step, r.Ok?, a.inStep)];
    SaysNext(a, a, Fetch(stmt), r);
    SaysJoin(a, b, c);
  }

  lemma NothingClosed(t: Trace, replies: nat -> Reply)
    ensures NoRetaining(t.log, |t.log|) && Said(t.log, |t.log|) == []
    ensures CausedBy(None, replies, t.step, t.step)
  {
  }

  /** A handle given back, or a cursor closed. */
  lemma Released(a: Trace, stmt: int, op: Op, r: Reply)
    requires op == Recycle(stmt, op.Recycle? && op.hasCursor) || op == Free(stmt, false)
    ensures var b := Next(a, op, r);
            && Later(a, b) && NoEffects(b.log, |a.log|) && NamesOnly(b.log, |a.log|, stmt)
            && NoRetaining(b.log, |a.log|) && (if op.Recycle? then Drops(a, b, stmt) else Handles(a, b, stmt))
            && (stmt !in a.inUse ==> !b.faultless)
  {
  }

  /** A commit afterwards changes none of that. */
  lemma ReleasedCommitted(a: Trace, b: Trace, stmt: int, tx: int, r: Reply)
    requires Later(a, b) && NoEffects(b.log, |a.log|) && NamesOnly(b.log, |a.log|, stmt)
    ensures var c := Next(b, CommitRetaining(tx), r);
            && Later(a, c) && NoEffects(c.log, |a.log|) && NamesOnly(c.log, |a.log|, stmt)
            && (Drops(a, b, stmt) ==> Drops(a, c, stmt)) && (Handles(a, b, stmt) ==> Handles(a, c, stmt))
            && (!b.faultless ==> !c.faultless)
            && c.log == b.log + [Event(CommitRetaining(tx), b.step, r.Ok?, b.inStep)]
  {
  }

  class Tx {
    const conn: Conn
    const handle: int
    var done: bool

    constructor (conn: Conn, handle: int)
      ensures this.conn == conn && this.handle == handle && !done
    {
      this.conn, this.handle, done := conn, handle, false;
    }

    method Finish(commit: bool) returns (err: Option<Error>)
      requires conn.Inv()
      modifies this, conn
      ensures conn.Inv() && done && conn.closed == old(conn.closed) && conn.abandoned == old(conn.abandoned)
      ensures old(conn.bad) ==> conn.bad
      ensures Later(old(conn.t), conn.t) && SameHands(old(conn.t), conn.t) && Wordless(old(conn.t), conn.t)
      ensures old(done) ==> err == None && conn.t == old(conn.t) && conn.activeTx == old(conn.activeTx)
      ensures !old(done) ==> conn.activeTx == 0
      ensures !old(done) && (old(conn.closed) || old(conn.bad)) ==> err == Some(BadConn) && conn.t == old(conn.t)
      ensures !old(done) && !old(conn.closed) && !old(conn.bad) ==>
        && conn.t == Next(old(conn.t), if commit then Commit(handle) else Rollback(handle),
                          conn.replies(old(conn.t.step)))
        && err == Failure(conn.replies(old(conn.t.step))) && (err == Some(Transport) ==> conn.bad)
    {
      hide Kept;
      if done {
        return None;
      }
      done := true;
      conn.activeTx := 0;
      if conn.closed || conn.bad {
        return Some(BadConn);
      }
      var r := conn.Do(if commit then Commit(handle) else Rollback(handle));
      err := conn.HandleError(Failure(r), false);
    }
  }

  class Stmt {
    const conn: Conn
    const handle: int
    const kind: Kind
    const inputs: nat
    var closed: bool

    constructor (conn: Conn, handle: int, kind: Kind, inputs: nat)
      ensures this.conn == conn && this.handle == handle && this.kind == kind && this.inputs == inputs && !closed
    {
      this.conn, this.handle, this.kind, this.inputs, closed := conn, handle, kind, inputs, false;
    }

    /** The prepared statement gives its handle to the pool; there is never anything to commit. */
    method Close() returns (err: Option<Error>)
      requires conn.Inv()
      modifies this, conn
      ensures conn.Inv() && closed && conn.closed == old(conn.closed) && conn.abandoned == old(conn.abandoned)
      ensures KeepsTx(old(conn.bad), old(conn.activeTx), conn.bad, conn.activeTx)
      ensures old(closed) || old(conn.closed) || old(conn.bad) ==> err == None && conn.t == old(conn.t)
      ensures !old(closed) && !old(conn.closed) && !old(conn.bad) ==>
        var r := conn.replies(old(conn.t.step));
        conn.t == Next(old(conn.t), Recycle(handle, false), r) && err == Failure(r) && conn.bad == (r == TransportError)
    {
      hide Kept, Next;
      if closed {
        return None;
      }
      closed := true;
      if conn.closed || conn.bad {
        return None;
      }
      var r := conn.Do(Recycle(handle, false));
      err := conn.HandleError(Failure(r), false);
      if conn.CommitDue() {
        assert false;
      }
    }

    /** A call that reaches the wire at all. */
    ghost predicate Usable(cancelled: bool)
      reads this, conn
    {
      !closed && !conn.closed && !conn.bad && !cancelled
    }

    /** The arguments cannot be bound to this statement. */
    predicate Unbindable(args: Args) {
      inputs > 0 && args.given > 0 && (!args.encodes || Unencodable in args.blobs)
    }

    /** The blobs get stored in a transaction the server has given the handle 0. */
    ghost predicate StoresUnderZero(args: Args)
      reads this, conn
    {
      var n := conn.t.step;
      && conn.activeTx == 0 && conn.autoTx == 0
      && inputs > 0 && args.given > 0 && CountStored(args.blobs) > 0 && args.encodes
      && conn.replies(n).Ok? && conn.replies(n).handle == 0
      && AllStored(conn.replies, n + 1, args.blobs)
    }

    /**
     * The one way a blob is stored and the pool is then told to retry: the driver takes handle 0 for no
     * transaction, so after storing the blobs it begins another, and the transport fails there.
     */
    ghost predicate ZeroHandle(args: Args)
      reads this, conn
    {
      StoresUnderZero(args) && conn.replies(conn.t.step + 1 + CountStored(args.blobs)) == TransportError
    }

    /** Begins a transaction and stores the blobs in it, as binding in auto-commit mode does when there are any. */
    method BindBlobs(args: Args) returns (tx: int, err: Option<Error>)
      requires conn.Inv() && !conn.bad && conn.activeTx == 0
      modifies conn
      ensures conn.Inv() && conn.closed == old(conn.closed) && conn.abandoned == old(conn.abandoned)
      ensures KeepsTx(old(conn.bad), old(conn.activeTx), conn.bad, conn.activeTx)
      ensures OnlyBinding(old(conn.t), conn.t) && (err.Some? ==> conn.autoTx == 0)
      ensures err == Some(BadConn) ==> NoEffects(conn.t.log, |old(conn.t.log)|) && conn.bad
      ensures WireError(err) || err == Some(BadConn) || (err == Some(Refused) && Unencodable in args.blobs)
      ensures CausedBy(err, conn.replies, old(conn.t.step), conn.t.step)
      ensures err.None? ==> !conn.bad && conn.activeTx == 0 && tx == conn.autoTx && Unencodable !in args.blobs
      ensures err.None? && old(conn.autoTx) == 0 ==>
        && conn.replies(old(conn.t.step)).Ok? && tx == conn.replies(old(conn.t.step)).handle
        && AllStored(conn.replies, old(conn.t.step) + 1, args.blobs)
        && conn.t.step == old(conn.t.step) + 1 + CountStored(args.blobs)
        && (NoEffects(conn.t.log, |old(conn.t.log)|) <==> CountStored(args.blobs) == 0)
      ensures err.None? && old(conn.autoTx) != 0 ==> tx != 0
      ensures err == Some(Transport) ==> conn.bad
      ensures err.None? ==>
        && tx == old(conn.At()).Tx(conn.replies) && old(conn.t.log) <= conn.t.log
        && Said(conn.t.log, |old(conn.t.log)|) == Binding(old(conn.At()), conn.replies, CountStored(args.blobs))
      ensures (old(conn.autoTx) == 0 && conn.replies(old(conn.t.step)).Ok?
               && AllStored(conn.replies, old(conn.t.step) + 1, args.blobs)) ==> err.None?
    {
      hide Kept, Next, Said, OnlyBinding, NoEffects, AllStored;
      tx, err := conn.GetAutoTx();
      ghost var begun := conn.t;
      BindingBegun(old(conn.t), begun, conn.replies(old(conn.t.step)));
      SaysNext(old(conn.t), old(conn.t), Begin, conn.replies(old(conn.t.step)));
      if err.Some? {
        err := conn.HandleError(err, true);
        return;
      }
      err := conn.MaterializeNamedBlobs(tx, args.blobs);
      SaysJoin(old(conn.t), begun, conn.t);
      BindingStored(old(conn.t), begun, conn.t, tx);
      CausedLater(err, conn.replies, old(conn.t.step), begun.step, conn.t.step, conn.t.step);
      if err.Some? {
        conn.InvalidateAutoTx();
        err := conn.HandleError(err, false);
      }
    }

    /** Whether binding needs a transaction: for blobs, even those stored already. */
    predicate NeedsTx(args: Args) {
      inputs > 0 && args.given > 0 && exists i :: 0 <= i < |args.blobs| && args.blobs[i] != NotABlob
    }

    /** Binds the arguments; in auto-commit mode a transaction is begun here only if a blob needs one. */
    method Bind(autoCommit: bool, args: Args) returns (tx: int, err: Option<Error>)
      requires conn.Inv() && !conn.bad && autoCommit == (conn.activeTx == 0)
      modifies conn
      ensures conn.Inv() && conn.closed == old(conn.closed) && conn.abandoned == old(conn.abandoned)
      ensures KeepsTx(old(conn.bad), old(conn.activeTx), conn.bad, conn.activeTx)
      ensures OnlyBinding(old(conn.t), conn.t) && (err.Some? && autoCommit ==> conn.autoTx == 0)
      ensures err == Some(BadConn) ==> NoEffects(conn.t.log, |old(conn.t.log)|) && conn.bad
      ensures WireError(err) || err == Some(BadConn) || (err == Some(Refused) && Unbindable(args))
      ensures CausedBy(err, conn.replies, old(conn.t.step), conn.t.step)
      ensures err.None? ==> !conn.bad && conn.activeTx == old(conn.activeTx)
      ensures !autoCommit ==> StaysIn(conn.t.log, |old(conn.t.log)|, old(conn.activeTx))
      ensures err.None? ==> if autoCommit then tx == 0 || tx == conn.autoTx else tx == conn.activeTx
      ensures old(StoresUnderZero(args)) ==>
        && err.None? && tx == 0 && conn.autoTx == 0 && conn.t.step == old(conn.t.step) + 1 + CountStored(args.blobs)
        && !NoEffects(conn.t.log, |old(conn.t.log)|)
      ensures err.None? && autoCommit && tx == 0 && !NoEffects(conn.t.log, |old(conn.t.log)|) ==> old(StoresUnderZero(args))
      ensures err == Some(Transport) ==> conn.bad
      ensures err.None? ==> old(conn.t.log) <= conn.t.log && (NeedsTx(args) || Stores(inputs, args) == 0)
      ensures err.None? && autoCommit && !NeedsTx(args) ==>
        tx == 0 && conn.t == old(conn.t) && conn.autoTx == old(conn.autoTx)
      ensures err.None? && (!autoCommit || NeedsTx(args)) ==>
        && tx == old(conn.At()).Tx(conn.replies) && (autoCommit ==> conn.autoTx == tx)
        && Said(conn.t.log, |old(conn.t.log)|) == Binding(old(conn.At()), conn.replies, Stores(inputs, args))
    {
      hide Kept, Next, Said;
      SaysNothing(conn.t);
      StoredIsBlob(args.blobs);
      BindingInside(conn.At(), conn.replies);
      tx, err := conn.activeTx, None;
      NothingBound(conn.t, conn.replies);
      if inputs > 0 && args.given > 0 {
        if autoCommit {
          if exists i :: 0 <= i < |args.blobs| && args.blobs[i] != NotABlob {
            tx, err := BindBlobs(args);
          }
        } else {
          err := conn.MaterializeNamedBlobs(tx, args.blobs);
          BindingStored(old(conn.t), old(conn.t), conn.t, tx);
          if err.Some? {
            err := conn.HandleError(err, false);
          }
        }
        if err.None? && !args.encodes {
          if autoCommit {
            conn.InvalidateAutoTx();
          }
          return tx, Some(Refused);
        }
      }
    }

    /** Executes in `tx`, and commits in auto-commit mode. */
    method ExecuteIn(tx: int, autoCommit: bool) returns (err: Option<Error>)
      requires conn.Inv()
      modifies conn
      ensures conn.Inv() && conn.closed == old(conn.closed) && conn.abandoned == old(conn.abandoned)
      ensures KeepsTx(old(conn.bad), old(conn.activeTx), conn.bad, conn.activeTx)
      ensures Executes(old(conn.t), conn.t, handle, tx, autoCommit, err.None?) && Handles(old(conn.t), conn.t, handle)
      ensures WireError(err) && CausedBy(err, conn.replies, old(conn.t.step), conn.t.step)
      ensures err.Some? && autoCommit ==> conn.autoTx == 0
      ensures err == Some(Transport) ==> conn.bad
      ensures err.None? ==>
        && old(conn.t.log) <= conn.t.log && conn.t.step >= 1
        && Said(conn.t.log, |old(conn.t.log)|) == Running(handle, tx, kind, autoCommit) + [RowCount(handle)]
        && (conn.bad <==> old(conn.bad) || conn.replies(conn.t.step - 1) == TransportError)
        && (conn.bad == old(conn.bad) ==> conn.autoTx == old(conn.autoTx))
        && (autoCommit && kind != ExecProcedure ==> OneFlush(conn.t.log, |old(conn.t.log)|))
    {
      hide Kept, Next, NextBoth, Executes, Handles, Said, Running, OneFlush;
      var r := conn.ExecuteAndCommit(handle, tx, autoCommit, kind);
      if !r.Ok? {
        if autoCommit {
          conn.InvalidateAutoTx();
        }
        err := conn.HandleError(Failure(r), false);
        return;
      }
      ExecutesMore(old(conn.t), conn.t, handle, tx, autoCommit, true, RowCount(handle), conn.replies(conn.t.step));
      SaysNext(old(conn.t), conn.t, RowCount(handle), conn.replies(conn.t.step));
      ghost var executed := conn.t;
      var counted := conn.Do(RowCount(handle));
      if autoCommit && kind != ExecProcedure {
        FlushStays(executed.log, conn.t.log, |old(conn.t.log)|, |old(conn.t.log)|);
      }
      var _ := conn.HandleError(Failure(counted), false);
      err := None;
    }

    /** Binds the arguments and finds the transaction to execute in, begun anew if binding has brought none. */
    method BindAndBegin(autoCommit: bool, args: Args) returns (tx: int, ghost again: bool, err: Option<Error>)
      requires conn.Inv() && !conn.bad && autoCommit == (conn.activeTx == 0)
      modifies conn
      ensures conn.Inv() && conn.closed == old(conn.closed) && conn.abandoned == old(conn.abandoned)
      ensures KeepsTx(old(conn.bad), old(conn.activeTx), conn.bad, conn.activeTx)
      ensures OnlyBinding(old(conn.t), conn.t) && CausedBy(err, conn.replies, old(conn.t.step), conn.t.step)
      ensures err == Some(BadConn) && !NoEffects(conn.t.log, |old(conn.t.log)|) <==> old(ZeroHandle(args))
      ensures err == Some(BadConn) || err == Some(Transport) ==> conn.bad
      ensures !autoCommit ==> StaysIn(conn.t.log, |old(conn.t.log)|, old(conn.activeTx))
      ensures err.Some? && autoCommit && !NoEffects(conn.t.log, |old(conn.t.log)|) ==> conn.autoTx == 0
      ensures WireError(err) || err == Some(BadConn) || (err == Some(Refused) && Unbindable(args))
      ensures err.None? ==>
        && !conn.bad && (if autoCommit then conn.autoTx == tx else conn.activeTx == tx == old(conn.activeTx))
        && (if again then old(conn.At()).Tx(conn.replies) == 0 else tx == old(conn.At()).Tx(conn.replies))
        && Said(conn.t.log, |old(conn.t.log)|)
           == Binding(old(conn.At()), conn.replies, Stores(inputs, args)) + Beginning(again)
    {
      hide Kept, Next, Handles, CausedBy, RunsOnce, StaysIn, NamesOnly, Said, Binding, Stores, NoEffects;
      tx, err := Bind(autoCommit, args);
      ghost var bound := conn.t;
      again := autoCommit && NeedsTx(args) && tx == 0;
      BoundOnly(old(conn.t), bound, handle);
      if err.Some? {
        return;
      }
      SaysNothing(bound);
      SaysNext(old(conn.t), bound, Begin, conn.replies(bound.step));
      BindingInside(old(conn.At()), conn.replies);
      if autoCommit && tx == 0 {
        tx, err := conn.GetAutoTx();
        BoundMore(old(conn.t), bound, conn.t, handle, conn.replies(bound.step));
        if err.Some? {
          err := conn.HandleError(err, true);
          CausedHere(err, conn.replies(bound.step), conn.replies, old(conn.t.step), bound.step, conn.t.step);
          return;
        }
        CausedNone(conn.replies, old(conn.t.step), conn.t.step);
      }
      ghost var binding := Binding(old(conn.At()), conn.replies, Stores(inputs, args));
      assert binding + [] == binding;
      assert !autoCommit || NeedsTx(args) ==> Said(bound.log, |old(conn.t.log)|) == binding;
      assert again ==> Said(conn.t.log, |old(conn.t.log)|) == binding + [Begin];
    }

    /** An auto-commit execution that succeeds is committed; only handle 0 can make a retry repeat anything. */
    method ExecContext(args: Args, cancelled: bool) returns (err: Option<Error>)
      requires conn.Inv()
      modifies conn
      ensures conn.Inv() && conn.closed == old(conn.closed) && conn.abandoned == old(conn.abandoned)
      ensures KeepsTx(old(conn.bad), old(conn.activeTx), conn.bad, conn.activeTx)
      ensures Later(old(conn.t), conn.t)
      ensures Handles(old(conn.t), conn.t, handle) && NamesOnly(conn.t.log, |old(conn.t.log)|, handle)
      ensures closed || old(conn.closed) || old(conn.bad) ==> err == Some(BadConn) && conn.t == old(conn.t)
      ensures err == Some(Cancelled) <==> !closed && !old(conn.closed) && !old(conn.bad) && cancelled
      ensures err == Some(BadConn) && !NoEffects(conn.t.log, |old(conn.t.log)|)
         <==> old(Usable(cancelled) && ZeroHandle(args))
      ensures err == Some(BadConn) ==> closed || conn.closed || conn.bad
      ensures err.None? ==> Ran(conn.t.log, |old(conn.t.log)|)
      ensures err.None? && old(conn.activeTx) == 0 && conn.t.inStep ==> Durable(conn.t.log, |old(conn.t.log)|)
      ensures old(conn.activeTx) != 0 ==> StaysIn(conn.t.log, |old(conn.t.log)|, old(conn.activeTx))
      ensures err.Some? && old(conn.activeTx) == 0 && !NoEffects(conn.t.log, |old(conn.t.log)|) ==> conn.autoTx == 0
      ensures RunsOnce(conn.t.log, |old(conn.t.log)|)
      ensures old(Usable(cancelled)) ==> CausedBy(err, conn.replies, old(conn.t.step), conn.t.step)
      ensures err == Some(Refused) ==> Unbindable(args)
      ensures err == Some(Transport) ==> conn.bad
      ensures err.None? ==> conn.t.step >= 1 && (conn.bad <==> conn.replies(conn.t.step - 1) == TransportError)
      ensures err.None? && !conn.bad && old(conn.activeTx) == 0 && old(conn.At()).Tx(conn.replies) != 0 ==>
        conn.autoTx == old(conn.At()).Tx(conn.replies)
      ensures err.None? && old(conn.activeTx) == 0 && kind != ExecProcedure ==> OneFlush(conn.t.log, |old(conn.t.log)|)
      ensures err.None? ==>
        SaysStmtExec(conn.t.log, |old(conn.t.log)|, conn.replies, old(conn.At()), args, handle, kind, inputs)
    {
      hide Kept, Next, NextBoth, Executes, Handles, CausedBy, Durable, RunsOnce, Ran, StaysIn, NamesOnly, NoEffects;
      hide Said, Running, Binding, Stores, ZeroHandle, Quiet, OneFlush;
      Idle(conn.t, conn.replies, handle);
      if closed || conn.closed || conn.bad {
        return Some(BadConn);
      }
      if cancelled {
        return Some(Cancelled);
      }
      var autoCommit := conn.activeTx == 0;
      var tx;
      ghost var again;
      tx, again, err := BindAndBegin(autoCommit, args);
      BoundOnly(old(conn.t), conn.t, handle);
      if err.Some? {
        return;
      }
      ghost var begun := conn.t;
      err := ExecuteIn(tx, autoCommit);
      InStepThroughout(conn.t, conn.replies);
      PreparedExecuted(old(conn.t), begun, conn.t, handle, tx, autoCommit, err.None?);
      CausedLater(err, conn.replies, old(conn.t.step), begun.step, conn.t.step, conn.t.step);
      if err.None? {
        SaysJoin(old(conn.t), begun, conn.t);
        SaysRerun(conn.t.log, |old(conn.t.log)|, conn.replies, old(conn.At()), args, tx, again);
        if autoCommit && kind != ExecProcedure {
          FlushStays(conn.t.log, conn.t.log, |begun.log|, |old(conn.t.log)|);
        }
      }
    }

    lemma SaysRerun(log: seq<Event>, from: nat, replies: nat -> Reply, at: Setting, args: Args, tx: int, again: bool)
      requires if again then at.Tx(replies) == 0 else tx == at.Tx(replies)
      requires Said(log, from) == Binding(at, replies, Stores(inputs, args)) + Beginning(again)
                                  + (Running(handle, tx, kind, at.activeTx == 0) + [RowCount(handle)])
      ensures SaysStmtExec(log, from, replies, at, args, handle, kind, inputs)
    {
      hide Said, Binding, Beginning, Running, Stores;
      assert Said(log, from) == Binding(at, replies, Stores(inputs, args))
                                + Rerunning(at, again, handle, tx, kind);
    }

    /** Binds for a query, which always runs in a transaction begun beforehand. */
    method BindQuery(tx: int, autoCommit: bool, args: Args) returns (err: Option<Error>)
      requires conn.Inv()
      modifies conn
      ensures conn.Inv() && conn.closed == old(conn.closed) && conn.abandoned == old(conn.abandoned)
      ensures KeepsTx(old(conn.bad), old(conn.activeTx), conn.bad, conn.activeTx)
      ensures OnlyBlobs(old(conn.t), conn.t, WriteBlob(tx)) && (err.Some? && autoCommit ==> conn.autoTx == 0)
      ensures WireError(err) || (err == Some(Refused) && Unbindable(args))
      ensures CausedBy(err, conn.replies, old(conn.t.step), conn.t.step)
      ensures err.None? ==> conn.bad == old(conn.bad) && conn.autoTx == old(conn.autoTx)
      ensures err == Some(Transport) ==> conn.bad
      ensures err.None? ==>
        && old(conn.t.log) <= conn.t.log && |conn.t.log| - |old(conn.t.log)| == conn.t.step - old(conn.t.step)
        && Said(conn.t.log, |old(conn.t.log)|) == Repeat(WriteBlob(tx), Stores(inputs, args))
    {
      hide Kept, Next, Said;
      SaysNothing(conn.t);
      err := None;
      if inputs > 0 && args.given > 0 {
        err := conn.MaterializeNamedBlobs(tx, args.blobs);
        if err.None? && !args.encodes {
          err := Some(Refused);
        }
        if err.Some? {
          if autoCommit {
            conn.InvalidateAutoTx();
          }
          err := conn.HandleError(err, false);
        }
      }
    }

    lemma QuerySays(a: Trace, b: Trace, c: Trace, d: Trace, replies: nat -> Reply, at: Setting, args: Args, tx: int)
      requires a.log <= b.log <= c.log <= d.log && tx == at.Tx(replies) && at.step == a.step
      requires Said(b.log, |a.log|) == Beginning(at.Begins()) && |c.log| - |a.log| == c.step - a.step
      requires Said(c.log, |b.log|) == Repeat(WriteBlob(tx), Stores(inputs, args))
      requires Said(d.log, |c.log|) == Querying(handle, tx, kind, replies(c.step))
      ensures SaysStmtQuery(d.log, |a.log|, replies, at, args, handle, kind, inputs)
    {
      hide Said, Stores, Querying, Beginning, Setting.Tx;
      SaysJoin(a, b, c);
      SaysJoin(a, c, d);
      SaidLength(c.log, |a.log|);
    }

    method QueryContext(args: Args, cancelled: bool) returns (rows: Option<Rows>, err: Option<Error>)
      requires conn.Inv()
      modifies conn
      ensures conn.Inv() && conn.closed == old(conn.closed) && conn.abandoned == old(conn.abandoned)
      ensures KeepsTx(old(conn.bad), old(conn.activeTx), conn.bad, conn.activeTx)
      ensures Later(old(conn.t), conn.t) && (rows.Some? <==> err.None?)
      ensures Handles(old(conn.t), conn.t, handle) && NamesOnly(conn.t.log, |old(conn.t.log)|, handle)
      ensures closed || old(conn.closed) || old(conn.bad) ==> err == Some(BadConn) && conn.t == old(conn.t)
      ensures err == Some(Cancelled) <==> !closed && !old(conn.closed) && !old(conn.bad) && cancelled
      ensures err == Some(BadConn) ==> NoEffects(conn.t.log, |old(conn.t.log)|) && (closed || conn.closed || conn.bad)
      ensures old(conn.activeTx) != 0 ==> StaysIn(conn.t.log, |old(conn.t.log)|, old(conn.activeTx))
      ensures err.Some? && old(conn.activeTx) == 0 && !NoEffects(conn.t.log, |old(conn.t.log)|) ==> conn.autoTx == 0
      ensures RunsOnce(conn.t.log, |old(conn.t.log)|)
      ensures old(Usable(cancelled)) ==> CausedBy(err, conn.replies, old(conn.t.step), conn.t.step)
      ensures err == Some(Refused) ==> Unbindable(args)
      ensures rows.Some? ==>
        && !conn.bad && fresh(rows.value) && rows.value.Opened(conn, old(conn.activeTx), |old(conn.t.log)|)
        && rows.value.kind == kind && rows.value.stmt == handle && !rows.value.autoFreeStmt
      ensures err == Some(Transport) ==> conn.bad
      ensures rows.Some? && old(conn.activeTx) == 0 ==> conn.autoTx == old(conn.At()).Tx(conn.replies)
      ensures rows.Some? ==>
        SaysStmtQuery(conn.t.log, |old(conn.t.log)|, conn.replies, old(conn.At()), args, handle, kind, inputs)
    {
      hide Kept, Next, NextBoth, Executes, Handles, CausedBy, RunsOnce, StaysIn, NamesOnly, Ran, OnlyBlobs, OnlyBinding;
      hide Said, Stores, Querying, Quiet, SaysStmtQuery, Beginning, NoEffects;
      Idle(conn.t, conn.replies, handle);
      rows := None;
      if closed || conn.closed || conn.bad {
        return None, Some(BadConn);
      }
      if cancelled {
        return None, Some(Cancelled);
      }
      var tx, autoCommit;
      tx, autoCommit, err := conn.TxForStatement();
      ghost var begun := conn.t;
      BindingBegun(old(conn.t), begun, conn.replies(old(conn.t.step)));
      BoundOnly(old(conn.t), begun, handle);
      if err.Some? {
        return;
      }
      err := BindQuery(tx, autoCommit, args);
      BindingStored(old(conn.t), begun, conn.t, tx);
      BoundOnly(old(conn.t), conn.t, handle);
      CausedLater(err, conn.replies, old(conn.t.step), begun.step, conn.t.step, conn.t.step);
      if err.Some? {
        return;
      }
      var bound := conn.t;
      err := conn.ExecuteQuery(handle, tx, kind);
      PreparedExecuted(old(conn.t), bound, conn.t, handle, tx, false, err.None?);
      CausedLater(err, conn.replies, old(conn.t.step), bound.step, conn.t.step, conn.t.step);
      if err.Some? {
        if autoCommit {
          conn.InvalidateAutoTx();
        }
        err := conn.HandleError(err, false);
        return;
      }
      ExecutedAt(bound, conn.t, handle, tx, false);
      QuerySays(old(conn.t), begun, bound, conn.t, conn.replies, old(conn.At()), args, tx);
      var r := new Rows(conn, handle, tx, false, autoCommit, kind, |bound.log|);
      return Some(r), None;
    }
  }

  class Rows {
    const conn: Conn
    const stmt: int
    const txHandle: int
    const autoFreeStmt: bool
    const commitOnClose: bool
    const hasCursor: bool
    /** What the query was, whether it ran outside any explicit transaction, and where the log has it. */
    const kind: Kind
    const auto: bool
    const executedAt: nat
    var closed: bool

    constructor (conn: Conn, stmt: int, tx: int, autoFreeStmt: bool, auto: bool, kind: Kind, executedAt: nat)
      ensures this.conn == conn && this.stmt == stmt && txHandle == tx && this.autoFreeStmt == autoFreeStmt && !closed
      ensures this.kind == kind && this.auto == auto && this.executedAt == executedAt
      ensures commitOnClose == (auto && kind != Select && kind != SelectForUpdate)
      ensures hasCursor == (kind != ExecProcedure)
    {
      this.conn, this.stmt, txHandle, this.autoFreeStmt := conn, stmt, tx, autoFreeStmt;
      this.kind, this.auto, this.executedAt, closed := kind, auto, executedAt, false;
      commitOnClose := auto && kind != Select && kind != SelectForUpdate;
      hasCursor := kind != ExecProcedure;
    }

    /** The rows come from an execution heard to have succeeded; this only ever stays true. */
    ghost predicate Backed()
      reads this, conn
    {
      && executedAt < |conn.t.log| && conn.t.log[executedAt].heard
      && conn.t.log[executedAt].op.Execute?
      && conn.t.log[executedAt].op.stmt == stmt && conn.t.log[executedAt].op.tx == txHandle
      && commitOnClose == (auto && kind != Select && kind != SelectForUpdate) && hasCursor == (kind != ExecProcedure)
    }

    /** Rows just opened by a call that began with this transaction and this much of the log. */
    ghost predicate Opened(c: Conn, activeTx: int, from: nat)
      reads this, conn
    {
      && conn == c && !closed && Backed() && from <= executedAt
      && auto == (activeTx == 0) && (activeTx != 0 ==> txHandle == activeTx)
    }

    /** A close that has anything to send. */
    ghost predicate Live()
      reads this, conn
    {
      !closed && !conn.closed && !conn.bad
    }

    /** Gives the handle back, or closes the cursor of a statement that stays. */
    method Release() returns (err: Option<Error>)
      requires conn.Inv() && !conn.bad
      modifies conn
      ensures conn.Inv() && conn.closed == old(conn.closed) && conn.abandoned == old(conn.abandoned)
      ensures KeepsTx(old(conn.bad), old(conn.activeTx), conn.bad, conn.activeTx)
      ensures (err.None? ==> !conn.bad) && WireError(err) && (err == Some(Transport) ==> conn.bad)
      ensures CausedBy(err, conn.replies, old(conn.t.step), conn.t.step)
      ensures var r := conn.replies(old(conn.t.step));
              conn.t == if autoFreeStmt then Next(old(conn.t), Recycle(stmt, hasCursor), r)
                        else if hasCursor then Next(old(conn.t), Free(stmt, false), r)
                        else old(conn.t)
      ensures old(conn.t.step) <= conn.t.step
      ensures conn.bad <==> (autoFreeStmt || hasCursor) && conn.replies(old(conn.t.step)) == TransportError
      ensures old(conn.t.log) <= conn.t.log
      ensures Said(conn.t.log, |old(conn.t.log)|)
           == if autoFreeStmt then [Recycle(stmt, hasCursor)] else if hasCursor then [Free(stmt, false)] else []
    {
      hide Kept, Said;
      SaysNext(conn.t, conn.t, if autoFreeStmt then Recycle(stmt, hasCursor) else Free(stmt, false),
               conn.replies(conn.t.step));
      err := None;
      if autoFreeStmt {
        var r := conn.Do(Recycle(stmt, hasCursor));
        err := conn.HandleError(Failure(r), false);
      } else if hasCursor {
        var r := conn.Do(Free(stmt, false));
        err := conn.HandleError(Failure(r), false);
      }
    }

    method CommitChanges() returns (err: Option<Error>)
      requires conn.Inv()
      modifies conn
      ensures conn.Inv() && conn.closed == old(conn.closed) && conn.abandoned == old(conn.abandoned) && WireError(err)
      ensures KeepsTx(old(conn.bad), old(conn.activeTx), conn.bad, conn.activeTx)
      ensures conn.t == Next(old(conn.t), CommitRetaining(txHandle), conn.replies(old(conn.t.step)))
      ensures err == Failure(conn.replies(old(conn.t.step))) && (err.Some? ==> conn.autoTx == 0)
      ensures conn.t.step == old(conn.t.step) + 1 && CausedBy(err, conn.replies, old(conn.t.step), conn.t.step)
      ensures (old(conn.bad) ==> conn.bad) && (err == Some(Transport) ==> conn.bad)
      ensures old(conn.t.log) <= conn.t.log && Said(conn.t.log, |old(conn.t.log)|) == [CommitRetaining(txHandle)]
    {
      hide Kept, Next, Said;
      SaysNext(conn.t, conn.t, CommitRetaining(txHandle), conn.replies(conn.t.step));
      var r := conn.Do(CommitRetaining(txHandle));
      err := None;
      if !r.Ok? {
        conn.InvalidateAutoTx();
        err := conn.HandleError(Failure(r), false);
      }
    }

    /** A first close that succeeds on a live connection has committed what the query changed. */
    method Close() returns (err: Option<Error>)
      requires conn.Inv() && Backed()
      modifies this, conn
      ensures conn.Inv() && closed && conn.closed == old(conn.closed) && conn.abandoned == old(conn.abandoned)
      ensures KeepsTx(old(conn.bad), old(conn.activeTx), conn.bad, conn.activeTx)
      ensures Later(old(conn.t), conn.t) && Backed()
      ensures NoEffects(conn.t.log, |old(conn.t.log)|) && NamesOnly(conn.t.log, |old(conn.t.log)|, stmt)
      ensures !old(Live()) ==> err.None? && conn.t == old(conn.t)
      ensures WireError(err) && CausedBy(err, conn.replies, old(conn.t.step), conn.t.step)
      ensures old(Live()) && autoFreeStmt ==> Drops(old(conn.t), conn.t, stmt)
      ensures !old(Live()) || !autoFreeStmt ==> Handles(old(conn.t), conn.t, stmt)
      ensures old(Live()) && (autoFreeStmt || hasCursor) && stmt !in old(conn.t).inUse ==> !conn.t.faultless
      ensures old(Live()) && auto && kind != Select && kind != SelectForUpdate && err.None? ==>
        && |old(conn.t.log)| < |conn.t.log| && executedAt < |conn.t.log| - 1
        && conn.t.log[|conn.t.log| - 1].op == CommitRetaining(txHandle) && conn.t.log[|conn.t.log| - 1].heard
      ensures !auto || kind == Select || kind == SelectForUpdate ==> NoRetaining(conn.t.log, |old(conn.t.log)|)
      ensures old(Live()) && auto && err.Some? && !NoRetaining(conn.t.log, |old(conn.t.log)|) ==>
        conn.t.log[|conn.t.log| - 1].heard || conn.autoTx == 0
      ensures err == Some(Transport) ==> conn.bad
      ensures old(Live()) ==>
        Said(conn.t.log, |old(conn.t.log)|)
          == Closing(stmt, txHandle, autoFreeStmt, auto, kind, conn.replies(old(conn.t.step)))
    {
      hide Kept, Said, Next, NoEffects, NamesOnly, Drops, Handles, CausedBy, NoRetaining;
      Idle(conn.t, conn.replies, stmt);
      NothingClosed(conn.t, conn.replies);
      err := None;
      if closed {
        return;
      }
      closed := true;
      if conn.closed || conn.bad {
        return;
      }
      err := Release();
      ghost var released := conn.t;
      Released(old(conn.t), stmt, if autoFreeStmt then Recycle(stmt, hasCursor) else Free(stmt, false),
               conn.replies(old(conn.t.step)));
      if commitOnClose && !conn.bad {
        ReleasedCommitted(old(conn.t), released, stmt, txHandle, conn.replies(released.step));
        var cerr := CommitChanges();
        SaysJoin(old(conn.t), released, conn.t);
        CausedLater(err, conn.replies, old(conn.t.step), old(conn.t.step), released.step, conn.t.step);
        CausedLater(cerr, conn.replies, old(conn.t.step), released.step, conn.t.step, conn.t.step);
        if err.None? {
          err := cerr;
        }
      }
    }

    /** One batch, and the blobs in it; closed rows are at their end. */
    method FetchBatch(blobs: nat) returns (err: Option<Error>)
      requires conn.Inv() && Backed()
      modifies conn
      ensures conn.Inv() && conn.closed == old(conn.closed) && conn.abandoned == old(conn.abandoned)
      ensures KeepsTx(old(conn.bad), old(conn.activeTx), conn.bad, conn.activeTx)
      ensures Later(old(conn.t), conn.t) && Backed()
      ensures NoEffects(conn.t.log, |old(conn.t.log)|) && NamesOnly(conn.t.log, |old(conn.t.log)|, stmt)
      ensures Handles(old(conn.t), conn.t, stmt)
      ensures WireError(err) && CausedBy(err, conn.replies, old(conn.t.step), conn.t.step)
      ensures closed ==> err.None? && conn.t == old(conn.t)
      ensures !closed ==> |old(conn.t.log)| < |conn.t.log| && conn.t.log[|old(conn.t.log)|].op == Fetch(stmt)
      ensures !closed && err.None? ==> conn.t.log[|old(conn.t.log)|].heard
      ensures err == Some(Transport) ==> conn.bad
      ensures !closed && err.None? ==>
        Said(conn.t.log, |old(conn.t.log)|) == [Fetch(stmt)] + Repeat(ReadBlob(txHandle), blobs)
    {
      hide Kept, Next, Said, NoEffects, NamesOnly, Handles, OnlyBlobs;
      Idle(conn.t, conn.replies, stmt);
      FetchedStart(conn.t, stmt, conn.replies(conn.t.step));
      err := None;
      if closed {
        return;
      }
      var r := conn.Do(Fetch(stmt));
      ghost var fetched := conn.t;
      if r.Ok? {
        err := conn.MaterializeRowBlobs(txHandle, blobs);
        CausedLater(err, conn.replies, old(conn.t.step), fetched.step, conn.t.step, conn.t.step);
      } else {
        err := Failure(r);
      }
      FetchedAndRead(old(conn.t), conn.t, stmt, txHandle, r);
      err := conn.HandleError(err, false);
    }
  }

  function ZeroHandleReplies(n: nat): Reply {
    if n < 2 then Reply.Ok(0, Change, 0, None, false) else TransportError
  }

  /** A run in which the pool is told to retry although a blob has been stored. */
  method ZeroHandleRepeats() returns (err: Option<Error>, log: seq<Event>)
    ensures err == Some(BadConn) && !NoEffects(log, 0)
  {
    var c := new Conn(ZeroHandleReplies);
    var s := new Stmt(c, 1, Change, 1);
    var args := Args(1, [Stored], true);
    assert [Stored][1..] == [] && CountStored(args.blobs) == 1;
    assert AllStored(c.replies, 1, args.blobs);
    err := s.ExecContext(args, false);
    log := c.t.log;
  }

  function AgreeableReplies(n: nat): Reply { Reply.Ok(7, Select, 0, None, false) }

  /** A prepared query with its rows open, everything having gone well. */
  method OpenQuery() returns (s: Stmt, rows: Rows)
    ensures s.conn.Inv() && rows.conn == s.conn && !s.closed && !rows.closed && !s.conn.closed && !s.conn.bad
    ensures rows.Backed() && rows.stmt == s.handle && rows.kind == Select
    ensures fresh(s) && fresh(rows) && fresh(s.conn) && forall n :: s.conn.replies(n).Ok?
  {
    hide Next, Later, NoEffects, RunsOnce, NamesOwn, NamesOnly, StaysIn, Gains, SameHands, Drops, CausedBy, Handles, Kept;
    var c := new Conn(AgreeableReplies);
    var prepared, e := c.PrepareContext(false);
    NoFailures(e, c.replies, 0, c.t.step);
    s := prepared.value;
    ghost var t0 := c.t;
    var result, f := s.QueryContext(Args(0, [], true), false);
    NoFailures(f, c.replies, t0.step, c.t.step);
    rows := result.value;
  }

  /** A statement closed while its rows are open: closing the rows relies on a handle already given up. */
  method ClosedTooEarly() returns (log: seq<Event>)
    ensures !Disciplined(log)
  {
    hide Next, Later, NoEffects, NamesOnly, Drops, CausedBy, Handles, InUse, Disciplined;
    var s, rows := OpenQuery();
    ghost var t := s.conn.t;
    GivenUp(t, s.handle, s.conn.replies(t.step));
    var _ := s.Close();
    var _ := rows.Close();
    log := s.conn.t.log;
  }

  lemma GivenUp(t: Trace, stmt: int, r: Reply)
    ensures stmt !in Next(t, Recycle(stmt, false), r).inUse && t.log <= Next(t, Recycle(stmt, false), r).log
  {
  }

  lemma NoFailures(err: Option<Error>, replies: nat -> Reply, from: nat, to: nat)
    requires (forall n: nat :: replies(n).Ok?) && CausedBy(err, replies, from, to)
    ensures err.None? || err == Some(Cancelled) || err == Some(Refused)
  {
    if err.Some? {
      match err.value
      case BadConn =>
      case Cancelled =>
      case Refused =>
      case Server =>
      case Transport =>
    }
  }
}
