/** Whole runs of a connection with its statements, rows and transactions. */
module ConnectionRuns {
  import opened Common
  import opened Trace
  import opened Connection

  /** What a program may call next; objects are named by the order they were made in. */
  datatype Call =
    | BeginTx(supported: bool, cancelled: bool)
    | PrepareStmt(cancelled: bool)
    | Exec(args: Args, cancelled: bool)
    | Query(args: Args, cancelled: bool)
    | PingConn
    | ResetConn
    | CloseConn
    | StmtExec(which: nat, args: Args, cancelled: bool)
    | StmtQuery(which: nat, args: Args, cancelled: bool)
    | StmtClose(which: nat)
    | RowsFetch(which: nat, blobs: nat)
    | RowsClose(which: nat)
    | TxFinish(which: nat, commit: bool)
  {
    predicate IsExec() { Exec? || StmtExec? }

    predicate MayBeRetried() { IsExec() || Query? || StmtQuery? }

    predicate OnStmt() { StmtExec? || StmtQuery? || StmtClose? }

    predicate OnRows() { RowsFetch? || RowsClose? }
  }

  datatype StmtState = StmtState(handle: int, kind: Kind, inputs: nat, closed: bool) {
    /** Arguments that cannot be expressed in the statement's types. */
    predicate Unfit(args: Args) { inputs > 0 && (!args.encodes || Unencodable in args.blobs) }
  }

  /** Open rows: of the prepared statement `origin`, or of an ad-hoc query. */
  datatype RowsState = RowsState(stmt: int, tx: int, kind: Kind, auto: bool,
                                 origin: Option<nat>, executedAt: nat, closed: bool)
  {
    /** Open rows of an ad-hoc query, which have the statement to themselves. */
    predicate Holds() { !closed && origin.None? }
  }

  datatype TxState = TxState(handle: int, done: bool)

  /** Everything a call can depend on; `sent` is the length of the log. */
  datatype State = State(closed: bool, bad: bool, abandoned: bool, activeTx: int, autoTx: int,
                         step: nat, sent: nat, inStep: bool,
                         stmts: seq<StmtState>, rows: seq<RowsState>, txs: seq<TxState>)
  {
    /** The call names an object that has been made. */
    predicate Has(call: Call) {
      && (call.OnStmt() ==> call.which < |stmts|)
      && (call.OnRows() ==> call.which < |rows|)
      && (call.TxFinish? ==> call.which < |txs|)
    }

    predicate Dead() { closed || bad }

    predicate Of(t: Trace) { step == t.step && sent == |t.log| && inStep == t.inStep }

    /** The request number of the next prepare. */
    function PrepareStep(): nat { At().PrepareStep() }

    function At(): Setting { Setting(activeTx, autoTx, step) }

    /** Closing a prepared statement on a live connection gives its handle away. */
    predicate GivesAway(call: Call) {
      call.StmtClose? && Has(call) && !stmts[call.which].closed && !Dead()
    }

    /** Giving away the handle of a prepared statement whose rows are all closed, or doing anything else. */
    predicate Orderly(call: Call) {
      GivesAway(call) ==>
        forall i :: 0 <= i < |rows| && rows[i].origin == Some(call.which) ==> rows[i].closed
    }
  }

  const EMPTY := State(false, false, false, 0, 0, 0, 0, true, [], [], [])

  datatype Report = Report(call: Call, err: Option<Error>, before: State, after: State)

  /** The server never gives a transaction the handle 0. */
  ghost predicate NonZeroHandles(replies: nat -> Reply) {
    forall n :: replies(n).Ok? ==> replies(n).handle != 0
  }

  // ---------------------------------------------------------------------------
  // What every call of every run keeps and achieves; `log` ends with the call
  // ---------------------------------------------------------------------------

  /** An explicit transaction excludes an auto-commit one; a bad connection has neither, and a reason. */
  ghost predicate Consistent(r: Report, log: seq<Event>, replies: nat -> Reply) {
    var b, a := r.before, r.after;
    && (a.activeTx != 0 ==> a.autoTx == 0) && (a.bad ==> a.activeTx == 0 && a.autoTx == 0)
    && (a.bad ==> a.abandoned || exists n: nat :: n < a.step && replies(n) == TransportError)
    && (a.abandoned ==> b.abandoned || (r.call.ResetConn? && b.activeTx != 0))
    && a.closed == (b.closed || r.call.CloseConn?)
    && b.sent <= a.sent == |log| && b.step <= a.step && (a.inStep ==> b.inStep)
    && Transacts(r, replies)
  }

  /** Only beginning and finishing one changes the explicit transaction, or a bad connection forgets it. */
  ghost predicate Transacts(r: Report, replies: nat -> Reply) {
    var b, a := r.before, r.after;
    if r.call.BeginTx? && r.err.None? then
      var begun := replies(b.step + if b.autoTx != 0 then 1 else 0);
      begun.Ok? && a.activeTx == begun.handle && a.autoTx == 0
    else if r.call.TxFinish? && b.Has(r.call) && !b.txs[r.call.which].done then
      a.activeTx == 0 && (b.bad ==> a.bad)
    else KeepsTx(b.bad, b.activeTx, a.bad, a.activeTx)
  }

  /** How the objects change: one more on success, one closed or finished, or none. */
  ghost predicate Moves(r: Report, log: seq<Event>, replies: nat -> Reply) {
    var b, a := r.before, r.after;
    var ok := r.err.None?;
    && (if r.call.PrepareStmt? && ok then
          var d := Description(replies, b.PrepareStep(), false);
          d.Ok? && exists h ::
            a.stmts == b.stmts + [StmtState(h, d.kind, d.inputs, false)] && Brings(log, b.sent, h, b.PrepareStep())
        else if r.call.StmtClose? && b.Has(r.call) then
          a.stmts == b.stmts[r.call.which := b.stmts[r.call.which].(closed := true)]
        else a.stmts == b.stmts)
    && (if (r.call.Query? || r.call.StmtQuery?) && ok then
          |a.rows| == |b.rows| + 1 && a.rows[..|b.rows|] == b.rows && NewRows(r, log, replies, a.rows[|b.rows|])
        else if r.call.RowsClose? && b.Has(r.call) then
          a.rows == b.rows[r.call.which := b.rows[r.call.which].(closed := true)]
        else a.rows == b.rows)
    && (if r.call.BeginTx? && ok then a.txs == b.txs + [TxState(a.activeTx, false)]
        else if r.call.TxFinish? && b.Has(r.call) then
          a.txs == b.txs[r.call.which := b.txs[r.call.which].(done := true)]
        else a.txs == b.txs)
  }

  /** Rows come from an execution of this call; their kind is what the statement was described as. */
  ghost predicate NewRows(r: Report, log: seq<Event>, replies: nat -> Reply, x: RowsState) {
    var b := r.before;
    && !x.closed && x.auto == (b.activeTx == 0) && (b.activeTx != 0 ==> x.tx == b.activeTx)
    && b.sent <= x.executedAt && ExecutedAs(log, x)
    && (if r.call.Query? then
          var d := Description(replies, b.PrepareStep(), true);
          && x.origin == None && d.Ok? && x.kind == d.kind && Accepts(r.call.args, d)
          && Brings(log, b.sent, x.stmt, b.PrepareStep())
        else r.call.StmtQuery? && b.Has(r.call)
             && x.origin == Some(r.call.which) && x.stmt == b.stmts[r.call.which].handle
             && x.kind == b.stmts[r.call.which].kind)
  }

  ghost predicate ExecutedAs(log: seq<Event>, x: RowsState) {
    && x.executedAt < |log| && log[x.executedAt].heard && log[x.executedAt].op.Execute?
    && log[x.executedAt].op.stmt == x.stmt && log[x.executedAt].op.tx == x.tx
  }

  /** Every error has its reason in the call, in the state it met, or in an answer it heard. */
  ghost predicate Explained(r: Report, replies: nat -> Reply) {
    var b, a, call := r.before, r.after, r.call;
    if !b.Has(call) then r.err == Some(Refused) && a == b
    else match r.err
      case None => true
      case Some(Server) => CausedBy(r.err, replies, b.step, a.step)
      case Some(Transport) => CausedBy(r.err, replies, b.step, a.step) && a.Dead()
      case Some(BadConn) =>
        || b.Dead() || (CausedBy(r.err, replies, b.step, a.step) && a.Dead())
        || (call.OnStmt() && b.stmts[call.which].closed) || (call.ResetConn? && b.activeTx != 0)
      case Some(Cancelled) =>
        (call.BeginTx? || call.PrepareStmt? || call.MayBeRetried()) && call.cancelled
      case Some(Refused) =>
        || (call.BeginTx? && !call.supported)
        || (call.Exec? && Refuses(call.args, Description(replies, b.PrepareStep(), false)))
        || (call.Query? && Refuses(call.args, Description(replies, b.PrepareStep(), true)))
        || ((call.StmtExec? || call.StmtQuery?) && b.stmts[call.which].Unfit(call.args))
  }

  /** What a call that reports success has had acknowledged. */
  ghost predicate Achieves(r: Report, log: seq<Event>) {
    var b, a, n := r.before, r.after, |log|;
    r.err.None? && b.Has(r.call) ==>
      match r.call
      case BeginTx(_, _) => n > b.sent && log[n - 1].op == Begin && log[n - 1].heard
      case PingConn => n > b.sent && log[n - 1].op == Ping && log[n - 1].heard
      case ResetConn => !b.Dead() && b.activeTx == 0 && n == b.sent
      case CloseConn => b.Dead() || (n > b.sent && log[n - 1].op == Detach && log[n - 1].heard)
      case Exec(args, _) => Ran(log, b.sent) && (b.activeTx == 0 && a.inStep ==> Durable(log, b.sent))
      case StmtExec(_, _, _) => Ran(log, b.sent) && (b.activeTx == 0 && a.inStep ==> Durable(log, b.sent))
      case StmtClose(k) =>
        b.stmts[k].closed || b.Dead()
        || (n > b.sent && log[n - 1].op == Recycle(b.stmts[k].handle, false) && log[n - 1].heard)
      case RowsFetch(k, _) =>
        b.rows[k].closed || (n > b.sent && log[b.sent].op == Fetch(b.rows[k].stmt) && log[b.sent].heard)
      case RowsClose(k) =>
        b.rows[k].closed || b.Dead()
        || (if b.rows[k].auto && b.rows[k].kind != Select && b.rows[k].kind != SelectForUpdate then
              Settled(log, b.sent, b.rows[k], a.inStep)
            else NoRetaining(log, b.sent))
      case TxFinish(k, commit) =>
        b.txs[k].done
        || (n > b.sent && log[n - 1].heard
            && log[n - 1].op == if commit then Commit(b.txs[k].handle) else Rollback(b.txs[k].handle))
      case _ => true
  }

  /** What a call that succeeds has said, from its first request to its last. */
  ghost predicate Converses(r: Report, log: seq<Event>, replies: nat -> Reply) {
    var b, a, n, at := r.before, r.after, r.before.sent, r.before.At();
    r.err.None? && b.Has(r.call) ==>
      match r.call
      case BeginTx(_, _) => Said(log, n) == (if b.autoTx != 0 then [Commit(b.autoTx)] else []) + [Begin]
      case PrepareStmt(_) =>
        |b.stmts| < |a.stmts| && SaysPrepare(log, n, replies, at, a.stmts[|b.stmts|].handle)
      case Exec(args, _) =>
        && SaysExec(log, n, replies, at, args)
        && (b.activeTx == 0 && Description(replies, at.PrepareStep(), false).kind != ExecProcedure ==> OneFlush(log, n))
      case Query(args, _) =>
        |b.rows| < |a.rows| && SaysQuery(log, n, replies, at, args, a.rows[|b.rows|].stmt)
      case PingConn => Said(log, n) == [Ping]
      case ResetConn => Said(log, n) == []
      case CloseConn =>
        b.Dead() || Said(log, n) == (if b.autoTx != 0 then [Commit(b.autoTx)] else []) + [Drain, Detach]
      case StmtExec(k, args, _) =>
        var s := b.stmts[k];
        && SaysStmtExec(log, n, replies, at, args, s.handle, s.kind, s.inputs)
        && (b.activeTx == 0 && s.kind != ExecProcedure ==> OneFlush(log, n))
      case StmtQuery(k, args, _) =>
        var s := b.stmts[k];
        SaysStmtQuery(log, n, replies, at, args, s.handle, s.kind, s.inputs)
      case StmtClose(k) => b.stmts[k].closed || b.Dead() || Said(log, n) == [Recycle(b.stmts[k].handle, false)]
      case RowsFetch(k, blobs) =>
        var x := b.rows[k];
        x.closed || Said(log, n) == [Fetch(x.stmt)] + Repeat(ReadBlob(x.tx), blobs)
      case RowsClose(k) =>
        var x := b.rows[k];
        x.closed || b.Dead()
        || Said(log, n) ==
           (if x.auto && x.origin.None? then [Recycle(x.stmt, x.kind != ExecProcedure)]
            else if x.kind != ExecProcedure then [Free(x.stmt, false)] else [])
           + if x.auto && x.kind != Select && x.kind != SelectForUpdate
                && !(((x.auto && x.origin.None?) || x.kind != ExecProcedure) && replies(b.step) == TransportError)
             then [CommitRetaining(x.tx)] else []
      case TxFinish(k, commit) =>
        b.txs[k].done || Said(log, n) == [if commit then Commit(b.txs[k].handle) else Rollback(b.txs[k].handle)]
  }

  /** A statement that succeeds leaves its transaction to the next; only counting its rows can still fail unnoticed. */
  ghost predicate Retains(r: Report, replies: nat -> Reply) {
    var b, a, call := r.before, r.after, r.call;
    r.err.None? && b.Has(call) ==>
      && (call.Exec? ==> 2 <= a.step && (a.bad <==> replies(a.step - 2) == TransportError))
      && (call.StmtExec? ==> 1 <= a.step && (a.bad <==> replies(a.step - 1) == TransportError))
      && ((call.MayBeRetried() || call.PrepareStmt?) && b.activeTx == 0 && !a.bad && b.At().Tx(replies) != 0 ==>
            a.autoTx == b.At().Tx(replies))
  }

  /** Commit-retaining of the rows' transaction was acknowledged, after the query was executed in it. */
  ghost predicate Settled(log: seq<Event>, from: nat, x: RowsState, inStep: bool) {
    && ExecutedAs(log, x) && from < |log| && x.executedAt < |log| - 1
    && log[|log| - 1].op == CommitRetaining(x.tx) && log[|log| - 1].heard
    && (inStep ==> log[|log| - 1].Acked() && log[x.executedAt].Acked())
  }

  /**
   * No effect before the retry signal, no second execution, no leaving an explicit transaction, and no later
   * commit of what was reported as failed.
   */
  ghost predicate Harmless(r: Report, log: seq<Event>, replies: nat -> Reply) {
    r.call.MayBeRetried() ==>
      && (r.err == Some(BadConn) && NonZeroHandles(replies) ==> NoEffects(log, r.before.sent))
      && RunsOnce(log, r.before.sent)
      && (r.err.Some? && r.before.activeTx == 0 && !NoEffects(log, r.before.sent) ==> r.after.autoTx == 0)
      && (r.before.activeTx != 0 ==> StaysIn(log, r.before.sent, r.before.activeTx))
  }

  /** A call relies only on the handle of its object, or on one it brought back itself. */
  ghost predicate OwnHandles(r: Report, log: seq<Event>) {
    var b := r.before;
    && (b.GivesAway(r.call) ==> LetGo(log, b.sent, b.stmts[r.call.which].handle))
    && if !b.Has(r.call) then |log| == b.sent
    else if r.call.OnStmt() then NamesOnly(log, b.sent, b.stmts[r.call.which].handle)
    else if r.call.OnRows() then NamesOnly(log, b.sent, b.rows[r.call.which].stmt)
    else NamesOwn(log, b.sent)
  }

  ghost predicate LetGo(log: seq<Event>, from: nat, stmt: int) {
    from < |log| && log[|log| - 1].op == Recycle(stmt, false)
  }

  ghost predicate Sound(r: Report, log: seq<Event>, replies: nat -> Reply) {
    && Consistent(r, log, replies) && Moves(r, log, replies) && Explained(r, replies)
    && Achieves(r, log) && Harmless(r, log, replies) && OwnHandles(r, log)
    && Converses(r, log, replies) && Retains(r, replies)
  }

  /**
   * The handle of whatever is still open is in use, and only by its owner: a prepared statement with the rows
   * opened on it, or the rows of an ad-hoc query.
   */
  ghost predicate Owned(s: State, used: set<int>) {
    && (forall i :: 0 <= i < |s.stmts| && !s.stmts[i].closed ==> s.stmts[i].handle in used)
    && (forall j :: 0 <= j < |s.rows| && !s.rows[j].closed ==> s.rows[j].stmt in used)
    && (forall i, j :: 0 <= i < j < |s.stmts| && !s.stmts[i].closed && !s.stmts[j].closed ==>
          s.stmts[i].handle != s.stmts[j].handle)
    && (forall i, j :: 0 <= i < |s.stmts| && 0 <= j < |s.rows| && !s.stmts[i].closed && !s.rows[j].closed ==>
          s.rows[j].origin == Some(i) || s.stmts[i].handle != s.rows[j].stmt)
    && (forall i, j :: 0 <= i < |s.rows| && 0 <= j < |s.rows| && i != j && s.rows[i].Holds() && !s.rows[j].closed ==>
          s.rows[i].stmt != s.rows[j].stmt)
  }

  lemma OwnedNewStmt(s: State, x: StmtState, used: set<int>)
    requires Owned(s, used) && x.handle !in used
    ensures Owned(s.(stmts := s.stmts + [x]), used + {x.handle})
  {
  }

  lemma OwnedNewRows(s: State, x: RowsState, used: set<int>)
    requires Owned(s, used)
    requires if x.origin.None? then x.stmt !in used else IsOpenAs(s, x.origin.value, x.stmt)
    ensures Owned(s.(rows := s.rows + [x]), if x.origin.None? then used + {x.stmt} else used)
  {
  }

  predicate IsOpenAs(s: State, k: nat, handle: int) {
    k < |s.stmts| && !s.stmts[k].closed && s.stmts[k].handle == handle
  }

  lemma OwnedCloseStmt(s: State, k: nat, used: set<int>)
    requires Owned(s, used) && s.Has(StmtClose(k)) && !s.stmts[k].closed && s.Orderly(StmtClose(k))
    ensures Owned(s.(stmts := s.stmts[k := s.stmts[k].(closed := true)]),
                  if s.Dead() then used else used - {s.stmts[k].handle})
  {
  }

  lemma OwnedCloseRows(s: State, k: nat, used: set<int>, gone: bool)
    requires Owned(s, used) && k < |s.rows| && (gone ==> s.rows[k].Holds())
    ensures Owned(s.(rows := s.rows[k := s.rows[k].(closed := true)]), if gone then used - {s.rows[k].stmt} else used)
  {
  }

  /** Ownership looks at statements and rows alone. */
  lemma OwnedSame(s: State, a: State, used: set<int>)
    requires Owned(s, used) && a.stmts == s.stmts && a.rows == s.rows
    ensures Owned(a, used)
  {
  }

  /** Rows of a prepared statement go by its handle. */
  ghost predicate Linked(s: State) {
    forall j :: 0 <= j < |s.rows| && s.rows[j].origin.Some? ==>
      s.rows[j].origin.value < |s.stmts| && s.rows[j].stmt == s.stmts[s.rows[j].origin.value].handle
  }

  lemma LinkedNext(r: Report, log: seq<Event>, replies: nat -> Reply)
    requires Moves(r, log, replies) && Linked(r.before) && (r.before.Has(r.call) || r.after == r.before)
    ensures Linked(r.after)
  {
    hide Brings, ExecutedAs;
    var b, a := r.before, r.after;
    forall j | 0 <= j < |a.rows| && a.rows[j].origin.Some?
      ensures a.rows[j].origin.value < |a.stmts| && a.rows[j].stmt == a.stmts[a.rows[j].origin.value].handle
    {
      if j < |b.rows| {
        assert a.rows[..|b.rows|][j] == a.rows[j];
        assert a.rows[j] == b.rows[j].(closed := a.rows[j].closed);
      }
    }
  }

  /** Giving a handle away under open rows leaves them without one. */
  lemma DisorderLoses(r: Report, log: seq<Event>, replies: nat -> Reply)
    requires Sound(r, log, replies) && Linked(r.before) && !r.before.Orderly(r.call)
    ensures !Owned(r.after, InUse(log))
  {
    var b, k := r.before, r.call.which;
    var j :| 0 <= j < |b.rows| && b.rows[j].origin == Some(k) && !b.rows[j].closed;
    assert InUse(log) == Uses(InUse(log[..|log| - 1]), log[|log| - 1]);
    assert r.after.rows[j].stmt == b.stmts[k].handle;
  }

  /** One operation with this answer and outcome. */
  ghost predicate Answered(t: Trace, u: Trace, op: Op, reply: Reply, err: Option<Error>) {
    && t.step < u.step && err == Failure(reply)
    && |t.log| < |u.log| && u.log[|u.log| - 1].op == op && u.log[|u.log| - 1].heard == reply.Ok?
    && Said(u.log, |t.log|) == [op]
  }

  /** The wire does nothing but give this handle up, with this answer and outcome. */
  ghost predicate Recycles(t: Trace, u: Trace, stmt: int, reply: Reply, err: Option<Error>) {
    Drops(t, u, stmt) && Answered(t, u, Recycle(stmt, false), reply, err)
  }

  /** What closing a prepared statement comes to, said of its states and the log. */
  lemma StmtCloseSound(r: Report, log: seq<Event>, replies: nat -> Reply, t: Trace, u: Trace)
    requires r.before.Of(t) && r.after.Of(u) && log == u.log
    requires r.call.StmtClose? && r.before.Has(r.call) && Consistent(r, log, replies)
    requires var b, a, k := r.before, r.after, r.call.which;
             var x, reply := b.stmts[k], replies(b.step);
             && a.stmts == b.stmts[k := x.(closed := true)] && a.rows == b.rows && a.txs == b.txs
             && NamesOnly(log, b.sent, x.handle)
             && (if x.closed || b.Dead() then r.err.None?
                 else Recycles(t, u, x.handle, reply, r.err) && (reply == TransportError ==> a.bad))
    ensures Converses(r, log, replies) && Retains(r, replies)
    ensures Moves(r, log, replies) && Explained(r, replies) && Achieves(r, log)
    ensures Harmless(r, log, replies) && OwnHandles(r, log)
  {
    if r.err.Some? {
      CausedHere(r.err, replies(r.before.step), replies, r.before.step, r.before.step, r.after.step);
    }
  }

  /** What opening a result comes to, apart from the result itself. */
  ghost predicate Queried(r: Report, log: seq<Event>, replies: nat -> Reply) {
    var b, call := r.before, r.call;
    (call.Query? || call.StmtQuery?) && b.Has(call) &&
    var unusable := b.Dead() || (call.StmtQuery? && b.stmts[call.which].closed);
    && (r.err == Some(Cancelled) ==> call.cancelled)
    && (r.err == Some(BadConn) ==> NoEffects(log, b.sent))
    && (r.err.Some? && b.activeTx == 0 && !NoEffects(log, b.sent) ==> r.after.autoTx == 0)
    && (b.activeTx != 0 ==> StaysIn(log, b.sent, b.activeTx)) && RunsOnce(log, b.sent)
    && (unusable ==> r.err == Some(BadConn))
    && (!unusable ==> CausedBy(r.err, replies, b.step, r.after.step) || r.err == Some(Cancelled))
    && (r.err == Some(Transport) || r.err == Some(BadConn) ==> unusable || r.after.Dead())
    && (if call.Query? then
          && NamesOwn(log, b.sent)
          && (r.err == Some(Refused) ==> Refuses(call.args, Description(replies, b.PrepareStep(), true)))
        else
          && NamesOnly(log, b.sent, b.stmts[call.which].handle)
          && (r.err == Some(Refused) ==> b.stmts[call.which].Unfit(call.args)))
  }

  lemma QuerySound(r: Report, log: seq<Event>, replies: nat -> Reply)
    requires Queried(r, log, replies) && Consistent(r, log, replies)
    ensures Explained(r, replies) && Achieves(r, log) && Harmless(r, log, replies) && OwnHandles(r, log)
  {
    hide CausedBy, NoEffects, StaysIn, RunsOnce, NamesOwn, NamesOnly, Refuses;
  }

  lemma OwnedByStmtNew(s: State, a: State, x: StmtState, t: Trace, u: Trace)
    requires a.stmts == s.stmts + [x] && a.rows == s.rows
    requires Gains(t, u, x.handle) && u.inStep && t.faultless && Owned(s, t.inUse)
    ensures u.faultless && Owned(a, u.inUse)
  {
    hide Owned;
    OwnedNewStmt(s, x, t.inUse);
    OwnedSame(s.(stmts := s.stmts + [x]), a, u.inUse);
  }

  /** Opening an ad-hoc result gives it the handle it came with. */
  lemma OwnedByRows(s: State, a: State, x: RowsState, t: Trace, u: Trace)
    requires x.origin.None? && a.rows == s.rows + [x] && a.stmts == s.stmts
    requires Gains(t, u, x.stmt) && u.inStep && t.faultless && Owned(s, t.inUse)
    ensures u.faultless && Owned(a, u.inUse)
  {
    hide Owned;
    OwnedNewRows(s, x, t.inUse);
    OwnedSame(s.(rows := s.rows + [x]), a, u.inUse);
  }

  /** Opening a result of a prepared statement leaves the handles where they are. */
  lemma OwnedByStmt(s: State, a: State, x: RowsState, t: Trace, u: Trace)
    requires x.origin.Some? && a.rows == s.rows + [x] && a.stmts == s.stmts
    requires IsOpenAs(s, x.origin.value, x.stmt)
    requires Handles(t, u, x.stmt) && u.inStep && t.faultless && Owned(s, t.inUse) && x.stmt in t.inUse
    ensures u.faultless && Owned(a, u.inUse)
  {
    hide Owned;
    OwnedNewRows(s, x, t.inUse);
    OwnedSame(s.(rows := s.rows + [x]), a, u.inUse);
  }

  lemma OwnedIdle(s: State, a: State, stmt: int, t: Trace, u: Trace)
    requires a.rows == s.rows && a.stmts == s.stmts && u.inStep && t.faultless && Owned(s, t.inUse)
    requires u == t || (Handles(t, u, stmt) && stmt in t.inUse)
    ensures u.faultless && Owned(a, u.inUse)
  {
    OwnedSame(s, a, u.inUse);
  }

  // ---------------------------------------------------------------------------
  // The session
  // ---------------------------------------------------------------------------

  class Session {
    const c: Conn
    var stmts: seq<Stmt>
    var rows: seq<Rows>
    var txs: seq<Tx>
    var stmtStates: seq<StmtState>
    var rowsStates: seq<RowsState>
    var txStates: seq<TxState>
    /** No statement has given its handle away while its rows were open. */
    var orderly: bool

    function View(): State
      reads this, c
    {
      State(c.closed, c.bad, c.abandoned, c.activeTx, c.autoTx, c.t.step, |c.t.log|, c.t.inStep,
            stmtStates, rowsStates, txStates)
    }

    ghost predicate MatchesStmt(i: nat)
      reads `stmts, `stmtStates, stmts
      requires i < |stmts| == |stmtStates|
    {
      var x, y := stmts[i], stmtStates[i];
      x.conn == c && y == StmtState(x.handle, x.kind, x.inputs, x.closed)
    }

    ghost predicate MatchesRows(i: nat)
      reads `rows, `rowsStates, c, rows
      requires i < |rows| == |rowsStates|
    {
      var x, y := rows[i], rowsStates[i];
      && x.conn == c && x.Backed() && x.autoFreeStmt == (x.auto && y.origin.None?)
      && y == RowsState(x.stmt, x.txHandle, x.kind, x.auto, y.origin, x.executedAt, x.closed)
    }

    ghost predicate MatchesTx(i: nat)
      reads `txs, `txStates, txs
      requires i < |txs| == |txStates|
    {
      txs[i].conn == c && txStates[i] == TxState(txs[i].handle, txs[i].done)
    }

    ghost predicate Tracks()
      reads `stmts, `stmtStates, `rows, `rowsStates, `txs, `txStates, c, stmts, rows, txs
    {
      && |stmts| == |stmtStates| && (forall i :: 0 <= i < |stmts| ==> MatchesStmt(i))
      && |rows| == |rowsStates| && (forall i :: 0 <= i < |rows| ==> MatchesRows(i))
      && |txs| == |txStates| && (forall i :: 0 <= i < |txs| ==> MatchesTx(i))
      && (forall i, j :: 0 <= i < j < |stmts| ==> stmts[i] != stmts[j])
      && (forall i, j :: 0 <= i < j < |rows| ==> rows[i] != rows[j])
      && (forall i, j :: 0 <= i < j < |txs| ==> txs[i] != txs[j])
    }

    ghost predicate Valid()
      reads this, c, stmts, rows, txs
    {
      && c.Inv() && Tracks()
      && (orderly && c.t.inStep ==> c.t.faultless && Owned(View(), c.t.inUse))
    }

    constructor (replies: nat -> Reply)
      ensures Valid() && fresh(c) && c.replies == replies && View() == EMPTY && orderly && c.t == START
      ensures stmts == [] && rows == [] && txs == []
    {
      c := new Conn(replies);
      stmts, rows, txs := [], [], [];
      stmtStates, rowsStates, txStates := [], [], [];
      orderly := true;
    }

    twostate lemma KeepsStmts()
      requires old(Tracks()) && stmts == old(stmts) && stmtStates == old(stmtStates) && unchanged(stmts)
      ensures forall i :: 0 <= i < |stmts| ==> MatchesStmt(i)
    {
      forall i | 0 <= i < |stmts| ensures MatchesStmt(i) {
        assert old(MatchesStmt(i));
      }
    }

    twostate lemma KeepsRows()
      requires old(Tracks()) && rows == old(rows) && rowsStates == old(rowsStates) && unchanged(rows)
      requires old(c.t.log) <= c.t.log
      ensures forall i :: 0 <= i < |rows| ==> MatchesRows(i)
    {
      forall i | 0 <= i < |rows| ensures MatchesRows(i) {
        assert old(MatchesRows(i));
      }
    }

    twostate lemma KeepsTxs()
      requires old(Tracks()) && txs == old(txs) && txStates == old(txStates) && unchanged(txs)
      ensures forall i :: 0 <= i < |txs| ==> MatchesTx(i)
    {
      forall i | 0 <= i < |txs| ensures MatchesTx(i) {
        assert old(MatchesTx(i));
      }
    }

    /** Calls on the connection leave the objects alone. */
    twostate lemma StillTracks()
      requires old(Tracks()) && unchanged(this) && unchanged(stmts) && unchanged(rows) && unchanged(txs)
      requires old(c.t.log) <= c.t.log
      ensures Tracks()
    {
      KeepsStmts();
      KeepsRows();
      KeepsTxs();
    }

    /** What every call keeps, whatever it did. */
    lemma Keeps(r: Report, t: Trace)
      requires c.Inv() && r.after == View() && Later(t, c.t) && r.before.Of(t)
      requires r.after.closed == (r.before.closed || r.call.CloseConn?)
      requires r.after.abandoned ==> r.before.abandoned || (r.call.ResetConn? && r.before.activeTx != 0)
      requires Transacts(r, c.replies)
      ensures Consistent(r, c.t.log, c.replies)
      ensures c.t.inStep ==> forall i :: 0 <= i < |c.t.log| ==> c.t.log[i].inStep
    {
    }

    method OnPing(call: Call) returns (r: Report)
      requires Valid() && call.PingConn?
      modifies c
      ensures Valid() && r == Report(call, r.err, old(View()), View()) && Sound(r, c.t.log, c.replies)
      ensures old(c.t.log) <= c.t.log
    {
      hide Kept, Owned, Consistent;
      var before := View();
      var err := c.PingContext();
      r := Report(call, err, before, View());
      StillTracks();
      Keeps(r, old(c.t));
      if orderly && c.t.inStep {
        OwnedSame(before, View(), old(c.t).inUse);
      }
    }

    method OnReset(call: Call) returns (r: Report)
      requires Valid() && call.ResetConn?
      modifies c
      ensures Valid() && r == Report(call, r.err, old(View()), View()) && Sound(r, c.t.log, c.replies)
      ensures old(c.t.log) <= c.t.log
    {
      hide Kept, Owned, Consistent;
      var before := View();
      var err := c.ResetSession();
      r := Report(call, err, before, View());
      StillTracks();
      Keeps(r, old(c.t));
      if orderly && c.t.inStep {
        OwnedSame(before, View(), old(c.t).inUse);
      }
    }

    method OnClose(call: Call) returns (r: Report)
      requires Valid() && call.CloseConn?
      modifies c
      ensures Valid() && r == Report(call, r.err, old(View()), View()) && Sound(r, c.t.log, c.replies)
      ensures old(c.t.log) <= c.t.log
    {
      hide Kept, Owned, Consistent;
      var before := View();
      var err := c.Close();
      r := Report(call, err, before, View());
      StillTracks();
      Keeps(r, old(c.t));
      if orderly && c.t.inStep {
        OwnedSame(before, View(), old(c.t).inUse);
      }
    }

    method OnExec(call: Call) returns (r: Report)
      requires Valid() && call.Exec?
      modifies c
      ensures Valid() && r == Report(call, r.err, old(View()), View()) && Sound(r, c.t.log, c.replies)
      ensures old(c.t.log) <= c.t.log
    {
      hide Kept, Owned, Consistent, SaysExec, OneFlush, Setting.Tx, Ran, Durable, StaysIn, RunsOnce, NamesOwn, NoEffects;
      hide CausedBy, Refuses;
      var before := View();
      var err := c.ExecContext(call.args, call.cancelled);
      r := Report(call, err, before, View());
      StillTracks();
      Keeps(r, old(c.t));
      if orderly && c.t.inStep {
        OwnedSame(before, View(), old(c.t).inUse);
      }
    }

    method OnBegin(call: Call) returns (r: Report)
      requires Valid() && call.BeginTx?
      modifies c, `txs, `txStates
      ensures Valid() && r == Report(call, r.err, old(View()), View()) && Sound(r, c.t.log, c.replies)
      ensures old(c.t.log) <= c.t.log
      ensures forall x :: x in txs ==> x in old(txs) || fresh(x)
    {
      hide Kept, Owned, Consistent, Said;
      var before := View();
      var tx, err := c.BeginTx(call.supported, call.cancelled);
      StillTracks();
      if tx.Some? {
        AddTx(tx.value);
      }
      r := Report(call, err, before, View());
      SaidShort(c.t.log, |old(c.t.log)|);
      Keeps(r, old(c.t));
      if orderly && c.t.inStep {
        OwnedSame(before, View(), old(c.t).inUse);
      }
    }

    /** Prepares a statement and keeps it. */
    method MakeStmt(call: Call) returns (err: Option<Error>)
      requires c.Inv() && Tracks() && call.PrepareStmt?
      modifies c, `stmts, `stmtStates
      ensures c.Inv() && Tracks() && c.closed == old(c.closed) && c.abandoned == old(c.abandoned)
      ensures KeepsTx(old(c.bad), old(c.activeTx), c.bad, c.activeTx)
      ensures Later(old(c.t), c.t) && forall x :: x in stmts ==> x in old(stmts) || fresh(x)
      ensures NoEffects(c.t.log, |old(c.t.log)|) && NamesOwn(c.t.log, |old(c.t.log)|)
      ensures Moves(Report(call, err, old(View()), View()), c.t.log, c.replies)
      ensures Explained(Report(call, err, old(View()), View()), c.replies)
      ensures if err.Some? then stmtStates == old(stmtStates) && SameHands(old(c.t), c.t)
              else stmtStates == old(stmtStates) + [stmtStates[|stmtStates| - 1]]
                   && Gains(old(c.t), c.t, stmtStates[|stmtStates| - 1].handle)
      ensures Converses(Report(call, err, old(View()), View()), c.t.log, c.replies)
      ensures Retains(Report(call, err, old(View()), View()), c.replies)
    {
      hide Kept, Gains, SameHands, NoEffects, NamesOwn, CausedBy, Brings, SaysPrepare, Setting.Tx;
      var stmt;
      stmt, err := c.PrepareContext(call.cancelled);
      StillTracks();
      if stmt.Some? {
        AddStmt(stmt.value);
      }
    }

    method OnPrepare(call: Call) returns (r: Report)
      requires Valid() && call.PrepareStmt?
      modifies c, `stmts, `stmtStates
      ensures Valid() && r == Report(call, r.err, old(View()), View()) && Sound(r, c.t.log, c.replies)
      ensures old(c.t.log) <= c.t.log
      ensures forall x :: x in stmts ==> x in old(stmts) || fresh(x)
    {
      hide Kept, Owned, Gains, Consistent, Moves, Explained, Converses, Retains;
      var before := View();
      var err := MakeStmt(call);
      r := Report(call, err, before, View());
      Keeps(r, old(c.t));
      if orderly && c.t.inStep {
        if err.None? {
          OwnedByStmtNew(before, View(), stmtStates[|stmtStates| - 1], old(c.t), c.t);
        } else {
          OwnedSame(before, View(), old(c.t).inUse);
        }
      }
    }

    method AddTx(x: Tx)
      requires Tracks() && x.conn == c && !x.done && x !in txs
      modifies `txs, `txStates
      ensures Tracks() && txs == old(txs) + [x] && txStates == old(txStates) + [TxState(x.handle, false)]
    {
      txs, txStates := txs + [x], txStates + [TxState(x.handle, false)];
      KeepsStmts();
      KeepsRows();
      forall i | 0 <= i < |txs| ensures MatchesTx(i) {
        if i < |txs| - 1 {
          assert old(MatchesTx(i));
        }
      }
    }

    method AddStmt(x: Stmt)
      requires Tracks() && x.conn == c && !x.closed && x !in stmts
      modifies `stmts, `stmtStates
      ensures Tracks() && stmts == old(stmts) + [x]
      ensures stmtStates == old(stmtStates) + [StmtState(x.handle, x.kind, x.inputs, false)]
    {
      stmts, stmtStates := stmts + [x], stmtStates + [StmtState(x.handle, x.kind, x.inputs, false)];
      KeepsRows();
      KeepsTxs();
      forall i | 0 <= i < |stmts| ensures MatchesStmt(i) {
        if i < |stmts| - 1 {
          assert old(MatchesStmt(i));
        }
      }
    }

    method AddRows(x: Rows, origin: Option<nat>)
      requires Tracks() && x.conn == c && x.Backed() && !x.closed && x !in rows
      requires x.autoFreeStmt == (x.auto && origin.None?)
      modifies `rows, `rowsStates
      ensures Tracks() && rows == old(rows) + [x]
      ensures rowsStates == old(rowsStates) + [RowsState(x.stmt, x.txHandle, x.kind, x.auto, origin, x.executedAt, false)]
    {
      rows := rows + [x];
      rowsStates := rowsStates + [RowsState(x.stmt, x.txHandle, x.kind, x.auto, origin, x.executedAt, false)];
      KeepsStmts();
      KeepsTxs();
      forall i | 0 <= i < |rows| ensures MatchesRows(i) {
        if i < |rows| - 1 {
          assert old(MatchesRows(i));
        }
      }
    }

    /** Runs an ad-hoc query and keeps the rows it opens. */
    method OpenQuery(call: Call) returns (err: Option<Error>)
      requires c.Inv() && Tracks() && call.Query?
      modifies c, `rows, `rowsStates
      ensures c.Inv() && Tracks() && c.closed == old(c.closed) && c.abandoned == old(c.abandoned)
      ensures KeepsTx(old(c.bad), old(c.activeTx), c.bad, c.activeTx)
      ensures Later(old(c.t), c.t) && forall x :: x in rows ==> x in old(rows) || fresh(x)
      ensures Queried(Report(call, err, old(View()), View()), c.t.log, c.replies)
      ensures Moves(Report(call, err, old(View()), View()), c.t.log, c.replies)
      ensures err.None? ==>
        rowsStates == old(rowsStates) + [rowsStates[|rowsStates| - 1]] && rowsStates[|rowsStates| - 1].origin.None?
      ensures err.Some? ==> rowsStates == old(rowsStates)
      ensures if err.None? then Gains(old(c.t), c.t, rowsStates[|rowsStates| - 1].stmt) else SameHands(old(c.t), c.t)
      ensures Converses(Report(call, err, old(View()), View()), c.t.log, c.replies)
      ensures Retains(Report(call, err, old(View()), View()), c.replies)
    {
      hide Kept, Gains, SameHands, NoEffects, RunsOnce, StaysIn, NamesOwn, CausedBy, Brings, SaysQuery, Setting.Tx;
      var result;
      result, err := c.QueryContext(call.args, call.cancelled);
      StillTracks();
      if result.Some? {
        AddRows(result.value, None);
      }
    }

    method OnQuery(call: Call) returns (r: Report)
      requires Valid() && call.Query?
      modifies c, `rows, `rowsStates
      ensures Valid() && r == Report(call, r.err, old(View()), View()) && Sound(r, c.t.log, c.replies)
      ensures old(c.t.log) <= c.t.log
      ensures forall x :: x in rows ==> x in old(rows) || fresh(x)
    {
      hide Kept, Owned, Gains, Consistent, Moves, Queried, Explained, Achieves, Harmless, OwnHandles, Converses, Retains;
      var before := View();
      var err := OpenQuery(call);
      r := Report(call, err, before, View());
      Keeps(r, old(c.t));
      QuerySound(r, c.t.log, c.replies);
      if orderly && c.t.inStep {
        if err.None? {
          OwnedByRows(before, View(), rowsStates[|rowsStates| - 1], old(c.t), c.t);
        } else {
          OwnedSame(before, View(), old(c.t).inUse);
        }
      }
    }

    method OnStmtExec(call: Call) returns (r: Report)
      requires Valid() && call.StmtExec? && call.which < |stmts|
      modifies c
      ensures Valid() && r == Report(call, r.err, old(View()), View()) && Sound(r, c.t.log, c.replies)
      ensures old(c.t.log) <= c.t.log
    {
      hide Kept, Owned, Consistent;
      var before := View();
      assert MatchesStmt(call.which);
      StmtInUse(call.which);
      var err := stmts[call.which].ExecContext(call.args, call.cancelled);
      r := Report(call, err, before, View());
      StillTracks();
      Keeps(r, old(c.t));
      if orderly && c.t.inStep {
        OwnedSame(before, View(), old(c.t).inUse);
      }
    }

    /** A statement still open has its handle in use; a closed one sends nothing. */
    lemma StmtInUse(k: nat)
      requires Valid() && k < |stmts|
      ensures orderly && c.t.inStep && !stmts[k].closed ==> stmts[k].handle in c.t.inUse
    {
      assert MatchesStmt(k);
    }

    /** Runs a prepared query and keeps the rows it opens. */
    method OpenStmtQuery(call: Call) returns (err: Option<Error>)
      requires c.Inv() && Tracks() && call.StmtQuery? && call.which < |stmts|
      modifies c, `rows, `rowsStates
      ensures c.Inv() && Tracks() && c.closed == old(c.closed) && c.abandoned == old(c.abandoned)
      ensures KeepsTx(old(c.bad), old(c.activeTx), c.bad, c.activeTx)
      ensures Later(old(c.t), c.t) && forall x :: x in rows ==> x in old(rows) || fresh(x)
      ensures Queried(Report(call, err, old(View()), View()), c.t.log, c.replies)
      ensures Moves(Report(call, err, old(View()), View()), c.t.log, c.replies)
      ensures Handles(old(c.t), c.t, stmtStates[call.which].handle)
      ensures stmtStates[call.which].closed ==> err.Some? && c.t == old(c.t)
      ensures err.None? ==> rowsStates == old(rowsStates) + [rowsStates[|rowsStates| - 1]]
      ensures Converses(Report(call, err, old(View()), View()), c.t.log, c.replies)
      ensures Retains(Report(call, err, old(View()), View()), c.replies)
    {
      hide Kept, Handles, NoEffects, RunsOnce, StaysIn, NamesOnly, CausedBy, SaysStmtQuery, Setting.Tx;
      assert MatchesStmt(call.which);
      var result;
      result, err := stmts[call.which].QueryContext(call.args, call.cancelled);
      StillTracks();
      if result.Some? {
        AddRows(result.value, Some(call.which));
      }
    }

    method OnStmtQuery(call: Call) returns (r: Report)
      requires Valid() && call.StmtQuery? && call.which < |stmts|
      modifies c, `rows, `rowsStates
      ensures Valid() && r == Report(call, r.err, old(View()), View()) && Sound(r, c.t.log, c.replies)
      ensures old(c.t.log) <= c.t.log
      ensures forall x :: x in rows ==> x in old(rows) || fresh(x)
    {
      hide Kept, Owned, Handles, Consistent, Queried, Explained, Achieves, Harmless, OwnHandles, Converses, Retains;
      var before := View();
      assert MatchesStmt(call.which);
      StmtInUse(call.which);
      var err := OpenStmtQuery(call);
      r := Report(call, err, before, View());
      Keeps(r, old(c.t));
      QuerySound(r, c.t.log, c.replies);
      if orderly && c.t.inStep {
        if err.None? {
          OwnedByStmt(before, View(), rowsStates[|rowsStates| - 1], old(c.t), c.t);
        } else {
          OwnedIdle(before, View(), stmtStates[call.which].handle, old(c.t), c.t);
        }
      }
    }

    method CloseStmt(k: nat) returns (err: Option<Error>)
      requires c.Inv() && Tracks() && k < |stmts|
      modifies c, stmts, `stmtStates
      ensures c.Inv() && Tracks() && stmtStates == old(stmtStates)[k := old(stmtStates)[k].(closed := true)]
      ensures c.closed == old(c.closed) && c.abandoned == old(c.abandoned)
      ensures KeepsTx(old(c.bad), old(c.activeTx), c.bad, c.activeTx)
      ensures var x := old(stmtStates)[k];
              && NamesOnly(c.t.log, |old(c.t.log)|, x.handle)
              && (if x.closed || c.closed || old(c.bad) then err.None? && c.t == old(c.t)
                  else Recycles(old(c.t), c.t, x.handle, c.replies(old(c.t.step)), err)
                       && (c.replies(old(c.t.step)) == TransportError ==> c.bad))
      ensures Later(old(c.t), c.t)
    {
      hide Kept, Next, NamesOnly, Drops;
      assert MatchesStmt(k);
      Idle(c.t, c.replies, stmts[k].handle);
      Recycled(c.t, stmts[k].handle, c.replies(c.t.step));
      err := stmts[k].Close();
      stmtStates := stmtStates[k := stmtStates[k].(closed := true)];
      KeepsRows();
      KeepsTxs();
      forall i | 0 <= i < |stmts| ensures MatchesStmt(i) {
        assert old(MatchesStmt(i));
      }
    }

    method OnStmtClose(call: Call) returns (r: Report)
      requires Valid() && call.StmtClose? && call.which < |stmts|
      modifies c, stmts, `stmtStates, `orderly
      ensures Valid() && r == Report(call, r.err, old(View()), View()) && Sound(r, c.t.log, c.replies)
      ensures old(c.t.log) <= c.t.log
      ensures orderly == (old(orderly) && old(View()).Orderly(call))
    {
      hide Kept, Owned, NamesOnly, Drops, Recycles, Moves, Explained, Achieves, Harmless, OwnHandles, Consistent;
      hide Converses, Retains;
      var before, k := View(), call.which;
      StmtInUse(k);
      assert MatchesStmt(k);
      var stillOrderly := orderly && before.Orderly(call);
      var err := CloseStmt(k);
      orderly := stillOrderly;
      r := Report(call, err, before, View());
      Keeps(r, old(c.t));
      StmtClosed(before, old(c.t), k, err);
      StmtCloseSound(r, c.t.log, c.replies, old(c.t), c.t);
    }

    lemma StmtClosed(before: State, t: Trace, k: nat, err: Option<Error>)
      requires k < |before.stmts|
      requires View().stmts == before.stmts[k := before.stmts[k].(closed := true)] && View().rows == before.rows
      requires orderly && c.t.inStep ==> t.inStep && t.faultless && Owned(before, t.inUse) && before.Orderly(StmtClose(k))
      requires orderly && c.t.inStep && !before.stmts[k].closed ==> before.stmts[k].handle in t.inUse
      requires before.stmts[k].closed || before.Dead() ==> c.t == t
      requires !before.stmts[k].closed && !before.Dead() ==>
        Recycles(t, c.t, before.stmts[k].handle, c.replies(t.step), err)
      ensures orderly && c.t.inStep ==> c.t.faultless && Owned(View(), c.t.inUse)
    {
      hide Owned;
      if orderly && c.t.inStep {
        if before.stmts[k].closed {
          assert View().stmts == before.stmts;
          OwnedSame(before, View(), t.inUse);
        } else {
          OwnedCloseStmt(before, k, t.inUse);
          OwnedSame(before.(stmts := View().stmts), View(), c.t.inUse);
        }
      }
    }

    method OnRowsFetch(call: Call) returns (r: Report)
      requires Valid() && call.RowsFetch? && call.which < |rows|
      modifies c
      ensures Valid() && r == Report(call, r.err, old(View()), View()) && Sound(r, c.t.log, c.replies)
      ensures old(c.t.log) <= c.t.log
    {
      hide Kept, Owned, Consistent;
      var before := View();
      assert MatchesRows(call.which);
      RowsInUse(call.which);
      var err := rows[call.which].FetchBatch(call.blobs);
      r := Report(call, err, before, View());
      StillTracks();
      Keeps(r, old(c.t));
      if orderly && c.t.inStep {
        OwnedSame(before, View(), old(c.t).inUse);
      }
    }

    lemma RowsInUse(k: nat)
      requires Valid() && k < |rows|
      ensures orderly && c.t.inStep && !rows[k].closed ==> rows[k].stmt in c.t.inUse
    {
      assert MatchesRows(k);
    }

    /** Closes rows, and what closing them comes to. */
    method CloseRows(k: nat) returns (err: Option<Error>)
      requires c.Inv() && Tracks() && k < |rows|
      modifies c, rows, `rowsStates
      ensures c.Inv() && Tracks() && rowsStates == old(rowsStates)[k := old(rowsStates)[k].(closed := true)]
      ensures c.closed == old(c.closed) && c.abandoned == old(c.abandoned)
      ensures KeepsTx(old(c.bad), old(c.activeTx), c.bad, c.activeTx)
      ensures Later(old(c.t), c.t) && NamesOnly(c.t.log, |old(c.t.log)|, old(rowsStates)[k].stmt)
      ensures WireError(err) && CausedBy(err, c.replies, old(c.t.step), c.t.step)
      ensures var x := old(rowsStates)[k];
              if x.closed || c.closed || old(c.bad) then err.None? && c.t == old(c.t)
              else
                && (if x.auto && x.origin.None? then Drops(old(c.t), c.t, x.stmt) else Handles(old(c.t), c.t, x.stmt))
                && (x.auto && x.kind != Select && x.kind != SelectForUpdate && err.None? ==>
                      Settled(c.t.log, |old(c.t.log)|, x, c.t.inStep))
                && (!x.auto || x.kind == Select || x.kind == SelectForUpdate ==> NoRetaining(c.t.log, |old(c.t.log)|))
                && Said(c.t.log, |old(c.t.log)|)
                   == Closing(x.stmt, x.tx, x.auto && x.origin.None?, x.auto, x.kind, c.replies(old(c.t.step)))
      ensures err == Some(Transport) ==> c.bad
    {
      hide Kept, NamesOnly, Drops, Handles, CausedBy, NoEffects, Said, Closing;
      assert MatchesRows(k);
      err := rows[k].Close();
      rowsStates := rowsStates[k := rowsStates[k].(closed := true)];
      KeepsStmts();
      KeepsTxs();
      forall i | 0 <= i < |rows| ensures MatchesRows(i) {
        assert old(MatchesRows(i));
      }
      InStepThroughout(c.t, c.replies);
    }

    method OnRowsClose(call: Call) returns (r: Report)
      requires Valid() && call.RowsClose? && call.which < |rows|
      modifies c, rows, `rowsStates
      ensures Valid() && r == Report(call, r.err, old(View()), View()) && Sound(r, c.t.log, c.replies)
      ensures old(c.t.log) <= c.t.log
    {
      hide Kept, Owned, NamesOnly, Drops, Handles, CausedBy, Consistent, Settled, Said;
      var before, k := View(), call.which;
      assert MatchesRows(k);
      RowsInUse(k);
      var err := CloseRows(k);
      r := Report(call, err, before, View());
      Keeps(r, old(c.t));
      RowsClosed(before, old(c.t), k);
    }

    lemma RowsClosed(before: State, t: Trace, k: nat)
      requires k < |before.rows|
      requires View().rows == before.rows[k := before.rows[k].(closed := true)] && View().stmts == before.stmts
      requires orderly && c.t.inStep ==> t.inStep && t.faultless && Owned(before, t.inUse)
      requires orderly && c.t.inStep && !before.rows[k].closed ==> before.rows[k].stmt in t.inUse
      requires before.rows[k].closed || before.Dead() ==> c.t == t
      requires !before.rows[k].closed && !before.Dead() ==>
        if before.rows[k].auto && before.rows[k].origin.None? then Drops(t, c.t, before.rows[k].stmt)
        else Handles(t, c.t, before.rows[k].stmt)
      ensures orderly && c.t.inStep ==> c.t.faultless && Owned(View(), c.t.inUse)
    {
      hide Owned;
      if orderly && c.t.inStep {
        var x := before.rows[k];
        OwnedCloseRows(before, k, t.inUse, !x.closed && !before.Dead() && x.auto && x.origin.None?);
        OwnedSame(before.(rows := View().rows), View(), c.t.inUse);
      }
    }

    method FinishTx(k: nat, commit: bool) returns (err: Option<Error>)
      requires c.Inv() && Tracks() && k < |txs|
      modifies c, txs, `txStates
      ensures c.Inv() && Tracks() && txStates == old(txStates)[k := old(txStates)[k].(done := true)]
      ensures c.closed == old(c.closed) && c.abandoned == old(c.abandoned) && (old(c.bad) ==> c.bad)
      ensures c.activeTx == if old(txStates)[k].done then old(c.activeTx) else 0
      ensures Later(old(c.t), c.t) && SameHands(old(c.t), c.t) && Wordless(old(c.t), c.t)
      ensures var x := old(txStates)[k];
              if x.done then err.None? && c.t == old(c.t)
              else if c.closed || old(c.bad) then err == Some(BadConn) && c.t == old(c.t)
              else Answered(old(c.t), c.t, if commit then Commit(x.handle) else Rollback(x.handle),
                            c.replies(old(c.t.step)), err)
      ensures err == Some(Transport) ==> c.bad
    {
      hide Kept, SameHands, Wordless;
      assert MatchesTx(k);
      err := txs[k].Finish(commit);
      txStates := txStates[k := txStates[k].(done := true)];
      KeepsStmts();
      KeepsRows();
      forall i | 0 <= i < |txs| ensures MatchesTx(i) {
        assert old(MatchesTx(i));
      }
    }

    method OnTxFinish(call: Call) returns (r: Report)
      requires Valid() && call.TxFinish? && call.which < |txs|
      modifies c, txs, `txStates
      ensures Valid() && r == Report(call, r.err, old(View()), View()) && Sound(r, c.t.log, c.replies)
      ensures old(c.t.log) <= c.t.log
    {
      hide Kept, Owned, Consistent;
      var before := View();
      var err := FinishTx(call.which, call.commit);
      r := Report(call, err, before, View());
      Keeps(r, old(c.t));
      if orderly && c.t.inStep {
        OwnedSame(before, View(), old(c.t).inUse);
      }
    }

    /** A call on an object not made yet is not made. */
    method NoCall(call: Call) returns (r: Report)
      requires Valid() && !View().Has(call)
      ensures r == Report(call, Some(Refused), View(), View()) && Sound(r, c.t.log, c.replies)
    {
      r := Report(call, Some(Refused), View(), View());
      Keeps(r, c.t);
    }

    method Step(call: Call) returns (r: Report)
      requires Valid()
      modifies this, c, stmts, rows, txs
      ensures Valid() && r == Report(call, r.err, old(View()), View()) && Sound(r, c.t.log, c.replies)
      ensures old(c.t.log) <= c.t.log && orderly == (old(orderly) && old(View()).Orderly(call))
      ensures forall x :: x in stmts ==> x in old(stmts) || fresh(x)
      ensures forall x :: x in rows ==> x in old(rows) || fresh(x)
      ensures forall x :: x in txs ==> x in old(txs) || fresh(x)
    {
      hide Sound, Kept, Owned;
      var view := View();
      if !view.Has(call) {
        r := NoCall(call);
        return;
      }
      match call
      case BeginTx(_, _) => r := OnBegin(call);
      case PrepareStmt(_) => r := OnPrepare(call);
      case Exec(_, _) => r := OnExec(call);
      case Query(_, _) => r := OnQuery(call);
      case PingConn => r := OnPing(call);
      case ResetConn => r := OnReset(call);
      case CloseConn => r := OnClose(call);
      case StmtExec(_, _, _) => r := OnStmtExec(call);
      case StmtQuery(_, _, _) => r := OnStmtQuery(call);
      case StmtClose(_) => r := OnStmtClose(call);
      case RowsFetch(_, _) => r := OnRowsFetch(call);
      case RowsClose(_) => r := OnRowsClose(call);
      case TxFinish(_, _) => r := OnTxFinish(call);
    }
  }

  /** The state a call of a run meets. */
  function StateBefore(reports: seq<Report>, i: nat): State
    requires i <= |reports|
  {
    if i == 0 then EMPTY else reports[i - 1].after
  }

  /** Each report starts where the one before it ended, and is sound for the log up to its end. */
  ghost predicate Story(reports: seq<Report>, log: seq<Event>, replies: nat -> Reply) {
    forall i :: 0 <= i < |reports| ==> Episode(reports, i, log, replies)
  }

  ghost predicate Episode(reports: seq<Report>, i: nat, log: seq<Event>, replies: nat -> Reply)
    requires i < |reports|
  {
    var r := reports[i];
    r.before == StateBefore(reports, i) && r.after.sent <= |log| && Sound(r, log[..r.after.sent], replies)
  }

  lemma StoryGrows(reports: seq<Report>, r: Report, log: seq<Event>, log': seq<Event>, replies: nat -> Reply)
    requires Story(reports, log, replies) && log <= log'
    requires r.before == StateBefore(reports, |reports|) && r.after.sent == |log'| && Sound(r, log', replies)
    ensures Story(reports + [r], log', replies)
  {
    hide Sound;
    var all := reports + [r];
    forall i | 0 <= i < |all| ensures Episode(all, i, log', replies) {
      if i < |reports| {
        assert Episode(reports, i, log, replies);
        assert all[i] == reports[i] && StateBefore(all, i) == StateBefore(reports, i);
        assert log'[..all[i].after.sent] == log[..all[i].after.sent];
      } else {
        assert log'[..|log'|] == log';
      }
    }
  }

  /** No statement ever gives its handle away while its rows are open. */
  ghost predicate Orderly(reports: seq<Report>) {
    forall i :: 0 <= i < |reports| ==> reports[i].before.Orderly(reports[i].call)
  }

  ghost predicate OwnedAt(reports: seq<Report>, i: nat, log: seq<Event>)
    requires i <= |reports|
  {
    var s := StateBefore(reports, i);
    s.sent <= |log| && Owned(s, InUse(log[..s.sent]))
  }

  /** Before, between and after all calls, whatever is open has a handle of its own. */
  ghost predicate AlwaysOwned(reports: seq<Report>, log: seq<Event>) {
    forall i :: 0 <= i <= |reports| ==> OwnedAt(reports, i, log)
  }

  /**
   * Any calls in any order, against any answers. The reports tell the whole story of the session returned: what
   * each call met, left, achieved, and whose handles it relied on. While the wire is in step, everything open owns
   * its handle at every point of the run exactly if no statement gave its handle away under its open rows; and
   * then no handle was ever relied on by anyone but its owner, and none of them was ever in the pool.
   */
  method Run(replies: nat -> Reply, calls: seq<Call>) returns (session: Session, reports: seq<Report>)
    ensures session.Valid() && session.c.replies == replies
    ensures |reports| == |calls| && forall i :: 0 <= i < |calls| ==> reports[i].call == calls[i]
    ensures Story(reports, session.c.t.log, replies) && session.View() == StateBefore(reports, |reports|)
    ensures session.c.t.inStep ==> (Orderly(reports) <==> AlwaysOwned(reports, session.c.t.log))
    ensures Orderly(reports) && session.c.t.inStep ==> Disciplined(session.c.t.log) && PoolApart(session.c.t.log)
    ensures Served(session.c.t.log)
  {
    hide Sound, Story, Owned, Disciplined, InUse, Served, PoolApart, AlwaysOwned, Orderly;
    session := new Session(replies);
    reports := [];
    NoStory(replies);
    KeptMeans(session.c.t, replies);
    for i := 0 to |calls|
      invariant session.Valid() && session.c.replies == replies && fresh(session) && fresh(session.c)
      invariant forall x :: x in session.stmts ==> fresh(x)
      invariant forall x :: x in session.rows ==> fresh(x)
      invariant forall x :: x in session.txs ==> fresh(x)
      invariant |reports| == i && forall k :: 0 <= k < i ==> reports[k].call == calls[k]
      invariant Story(reports, session.c.t.log, replies) && session.View() == StateBefore(reports, i)
      invariant session.orderly <==> Orderly(reports)
      invariant session.orderly && session.c.t.inStep ==> AlwaysOwned(reports, session.c.t.log)
    {
      assert forall k :: 0 <= k < |session.stmts| ==> session.stmts[k] in session.stmts;
      assert forall k :: 0 <= k < |session.rows| ==> session.rows[k] in session.rows;
      assert forall k :: 0 <= k < |session.txs| ==> session.txs[k] in session.txs;
      ghost var log := session.c.t.log;
      var r := session.Step(calls[i]);
      KeptMeans(session.c.t, replies);
      StoryGrows(reports, r, log, session.c.t.log, replies);
      OrderlyGrows(reports, r);
      InStepBefore(r, session.c.t.log, replies);
      if session.orderly && session.c.t.inStep {
        OwnedGrows(reports, r, log, session.c.t.log);
      }
      reports := reports + [r];
    }
    OrderedIfOwned(reports, session.c.t.log, replies);
    if Orderly(reports) && session.c.t.inStep {
      PoolStaysApart(session.c.t.log);
    }
  }

  lemma NoStory(replies: nat -> Reply)
    ensures Story([], START.log, replies) && Orderly([]) && AlwaysOwned([], START.log)
  {
    assert OwnedAt([], 0, START.log);
  }

  lemma OwnedGrows(reports: seq<Report>, r: Report, log: seq<Event>, log': seq<Event>)
    requires AlwaysOwned(reports, log) && log <= log'
    requires r.after.sent == |log'| && Owned(r.after, InUse(log'))
    ensures AlwaysOwned(reports + [r], log')
  {
    hide Owned;
    var all := reports + [r];
    forall i | 0 <= i <= |all| ensures OwnedAt(all, i, log') {
      if i <= |reports| {
        assert OwnedAt(reports, i, log);
        assert StateBefore(all, i) == StateBefore(reports, i);
        assert log'[..StateBefore(all, i).sent] == log[..StateBefore(all, i).sent];
      } else {
        assert log'[..|log'|] == log';
      }
    }
  }

  lemma InStepBefore(r: Report, log: seq<Event>, replies: nat -> Reply)
    requires Sound(r, log, replies)
    ensures r.after.inStep ==> r.before.inStep
  {
  }

  /** Rows are linked to their statements throughout a run. */
  lemma {:induction false} AlwaysLinked(reports: seq<Report>, log: seq<Event>, replies: nat -> Reply, i: nat)
    requires Story(reports, log, replies) && i <= |reports|
    ensures Linked(StateBefore(reports, i))
  {
    if i > 0 {
      AlwaysLinked(reports, log, replies, i - 1);
      assert Episode(reports, i - 1, log, replies);
      LinkedNext(reports[i - 1], log[..reports[i - 1].after.sent], replies);
    }
  }

  /** The first handle given away under open rows shows in the state after it, in step or not. */
  lemma OrderedIfOwned(reports: seq<Report>, log: seq<Event>, replies: nat -> Reply)
    requires Story(reports, log, replies)
    ensures AlwaysOwned(reports, log) ==> Orderly(reports)
  {
    hide Sound, Owned, InUse;
    if !Orderly(reports) {
      var i :| 0 <= i < |reports| && !reports[i].before.Orderly(reports[i].call);
      assert Episode(reports, i, log, replies);
      AlwaysLinked(reports, log, replies, i);
      DisorderLoses(reports[i], log[..reports[i].after.sent], replies);
      assert !OwnedAt(reports, i + 1, log);
    }
  }

  lemma OrderlyGrows(reports: seq<Report>, r: Report)
    ensures Orderly(reports + [r]) <==> Orderly(reports) && r.before.Orderly(r.call)
  {
    var all := reports + [r];
    assert all[|reports|] == r && forall i :: 0 <= i < |reports| ==> all[i] == reports[i];
    if Orderly(all) {
      assert forall i :: 0 <= i < |reports| ==> all[i].before.Orderly(all[i].call);
    }
  }

  lemma KeptMeans(t: Trace, replies: nat -> Reply)
    requires Kept(t, replies)
    ensures t.inUse == InUse(t.log) && (t.faultless <==> Disciplined(t.log)) && Served(t.log)
  {
  }

  /** An explicit transaction in force is the one begun last, and not finished. */
  lemma {:induction false} ActiveIsOpen(reports: seq<Report>, log: seq<Event>, replies: nat -> Reply, i: nat)
    requires Story(reports, log, replies) && i <= |reports|
    ensures var s := StateBefore(reports, i);
            s.activeTx != 0 ==> s.txs != [] && s.txs[|s.txs| - 1] == TxState(s.activeTx, false)
  {
    if i > 0 {
      ActiveIsOpen(reports, log, replies, i - 1);
      assert Episode(reports, i - 1, log, replies);
      ActiveKept(reports[i - 1], log[..reports[i - 1].after.sent], replies);
    }
  }

  lemma ActiveKept(r: Report, log: seq<Event>, replies: nat -> Reply)
    requires Transacts(r, replies) && Moves(r, log, replies)
    requires r.call.TxFinish? && !r.before.Has(r.call) ==> r.after == r.before
    requires r.before.activeTx != 0
             ==> r.before.txs != [] && r.before.txs[|r.before.txs| - 1] == TxState(r.before.activeTx, false)
    ensures r.after.activeTx != 0
            ==> r.after.txs != [] && r.after.txs[|r.after.txs| - 1] == TxState(r.after.activeTx, false)
  {
    hide NewRows, Brings;
  }

  /**
   * Call `i` executes something, and succeeds, while every transaction begun so far is finished. Then, the wire
   * being in step, the server acknowledged the execution and afterwards a commit of the transaction it ran in.
   */
  lemma ExecutionsAreCommitted(reports: seq<Report>, log: seq<Event>, replies: nat -> Reply, i: nat)
    requires Story(reports, log, replies) && i < |reports|
    requires reports[i].call.IsExec() && reports[i].err.None? && reports[i].after.inStep
    requires forall k :: 0 <= k < |reports[i].before.txs| ==> reports[i].before.txs[k].done
    ensures reports[i].after.sent <= |log| && Durable(log[..reports[i].after.sent], reports[i].before.sent)
  {
    assert Episode(reports, i, log, replies);
    ActiveIsOpen(reports, log, replies, i);
  }

  /** Rows once opened stay what they are, but for being closed. */
  lemma {:induction false} RowsStay(reports: seq<Report>, log: seq<Event>, replies: nat -> Reply, i: nat, j: nat, k: nat)
    requires Story(reports, log, replies) && i <= j <= |reports| && k < |StateBefore(reports, i).rows|
    ensures var x, rows := StateBefore(reports, i).rows[k], StateBefore(reports, j).rows;
            k < |rows| && rows[k] == x.(closed := rows[k].closed)
    decreases j - i
  {
    if i < j {
      RowsStay(reports, log, replies, i, j - 1, k);
      assert Episode(reports, j - 1, log, replies);
      RowsMove(reports[j - 1], log[..reports[j - 1].after.sent], replies, k);
    }
  }

  lemma RowsMove(r: Report, log: seq<Event>, replies: nat -> Reply, k: nat)
    requires Moves(r, log, replies) && k < |r.before.rows|
    ensures k < |r.after.rows| && r.after.rows[k] == r.before.rows[k].(closed := r.after.rows[k].closed)
  {
    assert (r.call.Query? || r.call.StmtQuery?) && r.err.None? ==> r.after.rows[..|r.before.rows|][k] == r.after.rows[k];
  }

  /**
   * Call `i` opened these rows outside any explicit transaction, by a query that changes data. Call `j` is the
   * first to close them, on a live connection, and succeeds. Then, the wire being in step, the server has
   * acknowledged the query and afterwards a commit of the transaction the query ran in.
   */
  lemma ClosedRowsAreCommitted(reports: seq<Report>, log: seq<Event>, replies: nat -> Reply, i: nat, j: nat)
    requires Story(reports, log, replies) && i < j < |reports|
    requires (reports[i].call.Query? || reports[i].call.StmtQuery?) && reports[i].err.None?
    requires reports[i].before.activeTx == 0
    requires reports[j].call == RowsClose(|reports[i].before.rows|) && reports[j].err.None? && reports[j].after.inStep
    requires !reports[j].before.Dead() && reports[j].before.Has(reports[j].call)
    requires !reports[j].before.rows[|reports[i].before.rows|].closed
    ensures var x, n := reports[j].before.rows[|reports[i].before.rows|], reports[j].after.sent;
            && n <= |log| && reports[i].before.sent <= x.executedAt
            && (x.kind != Select && x.kind != SelectForUpdate ==> Settled(log[..n], reports[j].before.sent, x, true))
            && (x.kind == Select || x.kind == SelectForUpdate ==> NoRetaining(log[..n], reports[j].before.sent))
            && (reports[i].call.Query? ==>
                  var d := Description(replies, reports[i].before.PrepareStep(), true); d.Ok? && x.kind == d.kind)
  {
    var k := |reports[i].before.rows|;
    assert Episode(reports, i, log, replies) && Episode(reports, j, log, replies);
    RowsStay(reports, log, replies, i + 1, j, k);
  }
}
