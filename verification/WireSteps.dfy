/** What the connection hears of its wire operations, and when answers stop belonging to them. */
module WireSteps {
  import opened Common
  import opened WireServer
  import opened WireSession
  import opened Blobs
  import Trace

  /** An operation of the connection, with the blob it is about. */
  datatype Act = Act(op: Trace.Op, id: int, data: Bytes)

  /** The one request a plain operation makes. */
  function Wired(op: Trace.Op): Request {
    match op
    case Begin => Transaction
    case Commit(tx) => Request.Commit(tx)
    case Rollback(tx) => Request.Rollback(tx)
    case CommitRetaining(tx) => Request.CommitRetaining(tx)
    case Describe(stmt) => InfoSQL(stmt)
    case RowCount(stmt) => InfoSQL(stmt)
    case Execute(stmt, tx, returning) => if returning then Request.Execute2(stmt, tx) else Request.Execute(stmt, tx)
    case Fetch(stmt) => Request.Fetch(stmt)
    case Free(stmt, drop) => Request.Free(stmt, drop)
    case Detach => Request.Detach
    case _ => InfoDatabase
  }

  predicate IsPlain(op: Trace.Op) {
    op.Begin? || op.Commit? || op.Rollback? || op.CommitRetaining? || op.Describe? || op.RowCount? || op.Ping?
    || op.Detach? || (op.Execute? && !op.returning)
  }

  /**
   * Whether the operation leaves a response unread: a refused allocate does, and a failed response still owed
   * from before does when the operation's own answer is not a single response.
   */
  predicate StepLost(op: Trace.Op, s: Server, pool: seq<int>, owed: seq<Message>) {
    match op
    case Prepare(_, _) => pool == [] && !(Clean(owed) && s.Accepts(Allocate))
    case Execute(stmt, tx, returning) => returning && !Clean(owed) && |s.Answer(Request.Execute2(stmt, tx))| != 1
    case Fetch(_) => !Clean(owed) && !RefusedOutright(s)
    case _ => false
  }

  /** What the connection hears. */
  function Heard(op: Trace.Op, ok: bool, s: Server, pool: seq<int>, owed: seq<Message>): Trace.Reply {
    if ok then Trace.Ok(0, Trace.Change, 0, None, false) else Trace.StatusError(StepLost(op, s, pool, owed))
  }

  /** The server has accepted the operation itself; with lazy send a free is taken on trust. */
  ghost predicate Accepted(op: Trace.Op, s: Server, pool: seq<int>) {
    match op
    case Begin => s.Accepts(Transaction)
    case Commit(tx) => s.Accepts(Request.Commit(tx))
    case Rollback(tx) => s.Accepts(Request.Rollback(tx))
    case CommitRetaining(tx) => s.Accepts(Request.CommitRetaining(tx))
    case Describe(stmt) => s.Accepts(InfoSQL(stmt))
    case RowCount(stmt) => s.Accepts(InfoSQL(stmt))
    case Ping => s.Accepts(InfoDatabase)
    case Detach => s.Accepts(Request.Detach)
    case Execute(stmt, tx, returning) =>
      s.Accepts(if returning then Request.Execute2(stmt, tx) else Request.Execute(stmt, tx))
    case Fetch(stmt) => s.Accepts(Request.Fetch(stmt))
    case Free(stmt, drop) => s.lazy || s.Accepts(Request.Free(stmt, drop))
    case Prepare(tx, _) =>
      if pool != [] then s.Accepts(Request.Prepare(tx, pool[|pool| - 1]))
      else s.Accepts(Allocate) && s.After(Allocate).Accepts(Request.Prepare(tx, INVALID_OBJECT))
    case _ => true
  }

  /** What an operation says to the server, whatever comes of it. */
  ghost predicate Reached(op: Trace.Op, s: Server, pool: seq<int>, s': Server) {
    match op
    case Begin => s'.log == s.log + [Transaction]
    case Commit(tx) => s'.log == s.log + [Request.Commit(tx)]
    case Rollback(tx) => s'.log == s.log + [Request.Rollback(tx)]
    case CommitRetaining(tx) => s'.log == s.log + [Request.CommitRetaining(tx)]
    case Describe(stmt) => s'.log == s.log + [InfoSQL(stmt)]
    case RowCount(stmt) => s'.log == s.log + [InfoSQL(stmt)]
    case Ping => s'.log == s.log + [InfoDatabase]
    case Detach => s'.log == s.log + [Request.Detach]
    case Execute(stmt, tx, returning) =>
      s'.log == s.log + [if returning then Request.Execute2(stmt, tx) else Request.Execute(stmt, tx)]
    case Fetch(stmt) => s'.log == s.log + [Request.Fetch(stmt)]
    case Free(stmt, drop) => s'.log == s.log + [Request.Free(stmt, drop)]
    case Prepare(tx, _) =>
      s'.log == s.log + if pool != [] then [Request.Prepare(tx, pool[|pool| - 1])]
                        else [Allocate, Request.Prepare(tx, INVALID_OBJECT)]
    case _ => s.log <= s'.log
  }

  /** What is noted of an operation; a prepare is noted with the handle it brought back. */
  predicate IsActOf(op: Trace.Op, asked: Trace.Op) {
    op == asked || (op.Prepare? && asked.Prepare? && op.tx == asked.tx)
  }

  /** One operation: the reply it comes to loses step exactly if the wire is no longer in sync. */
  method Perform(wc: WireConnection, act: Act) returns (op: Trace.Op, ok: bool)
    requires wc.InSync() && wc.PoolFits()
    modifies wc, wc.freeHandles
    ensures wc.PoolFits() && IsActOf(op, act.op)
    ensures wc.InSync() <==> !Trace.LosesStep(op, Heard(op, ok, old(wc.server), old(wc.Pool()), old(wc.inbox)))
    ensures ok ==> Accepted(op, old(wc.server), old(wc.Pool()))
    ensures Reached(op, old(wc.server), old(wc.Pool()), wc.server)
  {
    op := act.op;
    if op.Prepare? {
      op, ok := PerformPrepare(wc, op);
    } else if IsPlain(op) {
      ok := PerformPlain(wc, op);
    } else if op.Execute? || op.Fetch? {
      ok := PerformLong(wc, op);
    } else {
      ok := PerformOther(wc, act);
    }
  }

  method PerformPrepare(wc: WireConnection, asked: Trace.Op) returns (op: Trace.Op, ok: bool)
    requires wc.InSync() && wc.PoolFits() && asked.Prepare?
    modifies wc`outbox, wc`server, wc`inbox, wc`deferredCount, wc`freeCount, wc`owned
    ensures wc.PoolFits() && op.Prepare? && op.tx == asked.tx
    ensures wc.InSync() <==> !StepLost(op, old(wc.server), old(wc.Pool()), old(wc.inbox))
    ensures ok ==> wc.InSync() && Accepted(op, old(wc.server), old(wc.Pool()))
    ensures Reached(op, old(wc.server), old(wc.Pool()), wc.server)
  {
    hide Clean;
    var handle, r := wc.AllocateAndPrepare(asked.tx);
    op, ok := Trace.Prepare(asked.tx, handle), r.Ok?;
  }

  method PerformPlain(wc: WireConnection, op: Trace.Op) returns (ok: bool)
    requires wc.InSync() && wc.PoolFits() && IsPlain(op)
    modifies wc`outbox, wc`server, wc`inbox, wc`deferredCount
    ensures wc.InSync() && (ok ==> Accepted(op, old(wc.server), old(wc.Pool())))
    ensures Reached(op, old(wc.server), old(wc.Pool()), wc.server)
  {
    var r := wc.Call(Wired(op));
    ok := r.Ok?;
  }

  method PerformLong(wc: WireConnection, op: Trace.Op) returns (ok: bool)
    requires wc.InSync() && wc.PoolFits() && !IsPlain(op) && (op.Execute? || op.Fetch?)
    modifies wc`outbox, wc`server, wc`inbox, wc`deferredCount
    ensures wc.InSync() <==> !StepLost(op, old(wc.server), old(wc.Pool()), old(wc.inbox))
    ensures ok ==> wc.InSync() && Accepted(op, old(wc.server), old(wc.Pool()))
    ensures Reached(op, old(wc.server), old(wc.Pool()), wc.server)
  {
    if op.Execute? {
      var row, r := wc.Execute2(op.stmt, op.tx);
      ok := r.Ok?;
    } else {
      var r := wc.FetchRowsReuse(op.stmt);
      ok := r.Ok?;
    }
  }

  method PerformOther(wc: WireConnection, act: Act) returns (ok: bool)
    requires wc.InSync() && wc.PoolFits()
    requires !act.op.Prepare? && !IsPlain(act.op) && !act.op.Execute? && !act.op.Fetch?
    modifies wc, wc.freeHandles
    ensures wc.InSync() && wc.PoolFits() && (ok ==> Accepted(act.op, old(wc.server), old(wc.Pool())))
    ensures Reached(act.op, old(wc.server), old(wc.Pool()), wc.server)
  {
    hide Clean, Releases, Drops;
    Grows(wc.server);
    ok := true;
    match act.op
    case Free(stmt, drop) =>
      var r := wc.FreeStatement(stmt, drop);
      ok := r.Ok?;
    case Recycle(stmt, hasCursor) =>
      var r := wc.RecycleStatement(stmt, hasCursor);
      ok := r.Ok?;
    case WriteBlob(tx) =>
      var r := WriteBlobData(wc, tx, act.data);
      ok := r.Ok?;
    case ReadBlob(tx) =>
      var r := ReadBlobData(wc, tx, act.id);
      ok := r.Ok?;
    case Drain => wc.DrainStatementPool();
    case _ =>
  }

  lemma Grows(s: Server)
    ensures forall reqs :: s.log <= s.AfterAll(reqs).log
  {
    forall reqs ensures s.log <= s.AfterAll(reqs).log {
      AfterAllGrows(s, reqs);
    }
  }

  /** An execution and its commit in one flush keep step, and succeed only if both are accepted. */
  method PerformBoth(wc: WireConnection, stmt: int, tx: int) returns (ok: bool)
    requires wc.InSync()
    modifies wc`outbox, wc`server, wc`inbox, wc`deferredCount
    ensures wc.InSync()
    ensures wc.server.log == old(wc.server.log) + [Request.Execute(stmt, tx), Request.CommitRetaining(tx)]
    ensures ok ==> var s, execute := old(wc.server), Request.Execute(stmt, tx);
                   s.Accepts(execute) && s.After(execute).Accepts(Request.CommitRetaining(tx))
  {
    TwoRequests(wc.server, Request.Execute(stmt, tx), Request.CommitRetaining(tx));
    var r := wc.ExecuteAndCommitRetaining(stmt, tx);
    ok := r.Ok?;
  }

  /** The server and the pool an operation met. */
  datatype Scene = Scene(server: Server, pool: seq<int>)

  /** An operation leads from the server it met to the one the next operation meets, or to the last. */
  ghost predicate Leads(log: seq<Trace.Event>, met: seq<Scene>, last: Server, i: nat)
    requires i < |met| && |met| == |log|
  {
    Reached(log[i].op, met[i].server, met[i].pool, if i + 1 < |met| then met[i + 1].server else last)
  }

  /**
   * Any operations against any server, which may refuse whatever it likes, until one leaves a response unread.
   * The connection's own record of whether it is in step is right all along, and what it counts as acknowledged
   * the server has accepted.
   */
  method Listen(lazy: bool, peer: Server, acts: seq<Act>)
    returns (wc: WireConnection, t: Trace.Trace, met: seq<Scene>)
    requires peer.Valid() && peer.lazy == lazy && peer.held == {}
    ensures t.inStep <==> wc.InSync()
    ensures |t.log| == |met| <= |acts| && (t.inStep ==> |met| == |acts|)
    ensures forall i :: 0 <= i < |met| ==> t.log[i].inStep && IsActOf(t.log[i].op, acts[i].op)
    ensures forall i :: 0 <= i < |met| && t.log[i].Acked() ==> Accepted(t.log[i].op, met[i].server, met[i].pool)
    ensures forall i :: 0 <= i < |met| ==> Leads(t.log, met, wc.server, i)
  {
    hide StepLost, Accepted, IsPlain, IsActOf, Reached;
    wc := new WireConnection(lazy, peer);
    t, met := Trace.START, [];
    for i := 0 to |acts|
      invariant fresh(wc) && fresh(wc.freeHandles) && wc.InSync() && wc.PoolFits() && t.inStep
      invariant |t.log| == |met| == i
      invariant forall k :: 0 <= k < i ==> t.log[k].inStep && IsActOf(t.log[k].op, acts[k].op)
      invariant forall k :: 0 <= k < i && t.log[k].Acked() ==> Accepted(t.log[k].op, met[k].server, met[k].pool)
      invariant forall k :: 0 <= k < i ==> Leads(t.log, met, wc.server, k)
    {
      var scene, owed := Scene(wc.server, wc.freeHandles[..wc.freeCount]), wc.inbox;
      var op, ok := Perform(wc, acts[i]);
      var reply := Heard(op, ok, scene.server, scene.pool, owed);
      ghost var log, seen := t.log, met;
      t, met := Trace.Next(t, op, reply), met + [scene];
      forall k | 0 <= k <= i ensures Leads(t.log, met, wc.server, k) {
        assert k < i ==> Leads(log, seen, scene.server, k);
      }
      if !t.inStep {
        return;
      }
    }
  }
}
