/** Whole runs of a connection: every operation's outcome, good or bad, is the server's verdict on it. */
module WireRuns {
  import opened Common
  import opened HandlePool
  import opened WireServer
  import opened WireSession
  import opened Blobs

  /** What a user of the connection may ask next; statements are named by their place among the live ones. */
  datatype Op =
    | Ask(req: Request)
    | PrepareNew(tx: int)
    | ExecuteCommit(which: nat, tx: int)
    | ExecuteRow(which: nat, tx: int)
    | FetchBatch(which: nat)
    | CloseCursor(which: nat)
    | Recycle(which: nat, hasCursor: bool)
    | Drop(which: nat)
    | ReadBlob(tx: int, id: int)
    | WriteBlob(tx: int, data: Bytes)
    | DrainPool
  {
    /** An operation that names no live statement, or no plain request, is not made. */
    predicate Possible(live: seq<int>) {
      match this
      case Ask(req) => Scripted(req)
      case ExecuteCommit(k, _) => k < |live|
      case ExecuteRow(k, _) => k < |live|
      case FetchBatch(k) => k < |live|
      case CloseCursor(k) => k < |live|
      case Recycle(k, _) => k < |live|
      case Drop(k) => k < |live|
      case _ => true
    }
  }

  /** What an operation comes back with. */
  datatype Outcome =
    | Skipped
    | Done
    | Failed(fault: Fault)
    | Replied(handle: int, blobId: int, data: Bytes)
    | Prepared(stmt: int, description: Bytes)
    | Returned(row: Option<Bytes>, problem: Option<Fault>)
    | Fetched(rows: seq<Bytes>, eof: bool)
    | Content(content: Bytes)
    | Written(id: int)

  /** What can be seen between two operations. */
  datatype Snapshot = Snapshot(server: Server, owed: nat, deferred: nat, pool: seq<int>, live: seq<int>) {
    /** Exactly the deferred responses are owed; handles have one owner each, and all are held on the server. */
    ghost predicate Sound() {
      && owed == deferred && (!server.lazy ==> deferred == 0)
      && |pool| <= MAX_FREE_HANDLES
      && (forall i :: 0 <= i < |pool + live| ==> (pool + live)[i] in server.held)
      && (forall i, j :: 0 <= i < j < |pool + live| ==> (pool + live)[i] != (pool + live)[j])
    }

    /** The verdict on the next request, or on a later one. */
    function Verdict(later: nat): Verdict { server.VerdictAt(|server.log| + later) }

    function Refusal(later: nat): Outcome { Failed(Status(|server.log| + later)) }
  }

  function Without(live: seq<int>, which: nat): seq<int>
    requires which < |live|
  {
    live[..which] + live[which + 1..]
  }

  // ---------------------------------------------------------------------------
  // What each operation does, in terms of the server alone
  // ---------------------------------------------------------------------------

  /** Nothing but the server has moved on, and nothing is owed. */
  predicate Caught(b: Snapshot, a: Snapshot, server: Server) {
    a == Snapshot(server, 0, 0, b.pool, b.live)
  }

  ghost predicate ExplainsPrepare(tx: int, b: Snapshot, o: Outcome, a: Snapshot) {
    if b.pool != [] then
      var n := |b.pool| - 1;
      var v := b.Verdict(0);
      var live := if v.ok then b.live + [b.pool[n]] else b.live;
      && a == Snapshot(b.server.After(Prepare(tx, b.pool[n])), 0, 0, b.pool[..n], live)
      && o == if v.ok then Prepared(b.pool[n], v.data) else b.Refusal(0)
    else
      var v, h := b.Verdict(1), b.server.NewHandle();
      var live := if v.ok then b.live + [h] else b.live;
      && a == Snapshot(b.server.After(Allocate).After(Prepare(tx, INVALID_OBJECT)), 0, 0, [], live)
      && o == if v.ok then Prepared(h, v.data) else b.Refusal(1)
  }

  ghost predicate ExplainsExecute(op: Op, b: Snapshot, o: Outcome, a: Snapshot)
    requires op.Possible(b.live) && (op.ExecuteCommit? || op.ExecuteRow? || op.FetchBatch?)
  {
    var h, v, v' := b.live[op.which], b.Verdict(0), b.Verdict(1);
    match op
    case ExecuteCommit(_, tx) =>
      && Caught(b, a, b.server.After(Execute(h, tx)).After(CommitRetaining(tx)))
      && o == if !v.ok then b.Refusal(0) else if !v'.ok then b.Refusal(1) else Done
    case ExecuteRow(_, tx) =>
      && Caught(b, a, b.server.After(Execute2(h, tx)))
      && o == Returned(if v.sql.Some? then v.sql.value else None, if v.ok then None else Some(Status(|b.server.log|)))
    case FetchBatch(_) =>
      && Caught(b, a, b.server.After(Fetch(h)))
      && o == if v.ok then Fetched(v.rows, v.eof) else b.Refusal(0)
  }

  /** Frees; the pool has room for eight handles. With lazy send nothing is heard and as many responses as requests are owed. */
  ghost predicate ExplainsFree(op: Op, b: Snapshot, o: Outcome, a: Snapshot)
    requires op.Possible(b.live) && (op.CloseCursor? || op.Drop? || op.Recycle?)
  {
    var h, lazy, full := b.live[op.which], b.server.lazy, |b.pool| == 8;
    var hasCursor := op.Recycle? && op.hasCursor;
    var reqs :=
      if op.CloseCursor? then [Free(h, false)]
      else if op.Drop? then [Free(h, true)]
      else (if hasCursor then [Free(h, false)] else [])
           + (if full && (lazy || !hasCursor || b.Verdict(0).ok) then [Free(h, true)] else []);
    var n := |b.server.log|;
    var refused := FirstRefused(b.server, n, |reqs|);
    var failed := !lazy && refused < n + |reqs|;
    && a.server == b.server.AfterAll(reqs) && a.owed == a.deferred
    && a.deferred == (if lazy then b.deferred + |reqs| else 0)
    && a.live == (if op.CloseCursor? then b.live else Without(b.live, op.which))
    && a.pool == (if op.Recycle? && !full && !failed then b.pool + [h] else b.pool)
    && o == if failed then Failed(Status(refused)) else Done
  }

  ghost predicate ExplainsBlob(op: Op, b: Snapshot, o: Outcome, a: Snapshot)
    requires op.ReadBlob? || op.WriteBlob?
  {
    && Caught(b, a, b.server.(log := b.server.log + if op.ReadBlob? then ReadRequests(b.server, op.tx, op.id)
                                                     else WriteRequests(b.server, op.tx, op.data)))
    && (op.ReadBlob? ==> o == match BlobContent(b.server) case Ok(c) => Content(c) case Err(f) => Failed(f))
    && (op.WriteBlob? ==>
          && (o == match WriteOutcome(b.server, |Segments(op.data)|)
                   case Ok(id) => Outcome.Written(id)
                   case Err(f) => Failed(f))
          && (o.Written? ==> Flatten(Blobs.Written(a.server.log[|b.server.log|..])) == op.data))
  }

  /** The operation's outcome and everything it leaves behind follow from the server it met. */
  ghost predicate Explains(op: Op, b: Snapshot, o: Outcome, a: Snapshot) {
    if !op.Possible(b.live) then o == Skipped && a == b
    else match op
      case Ask(req) =>
        var v := b.Verdict(0);
        Caught(b, a, b.server.After(req)) && o == if v.ok then Replied(v.handle, v.blobId, v.data) else b.Refusal(0)
      case PrepareNew(tx) => ExplainsPrepare(tx, b, o, a)
      case ReadBlob(_, _) => ExplainsBlob(op, b, o, a)
      case WriteBlob(_, _) => ExplainsBlob(op, b, o, a)
      case DrainPool =>
        && o == Done && a.server == b.server.AfterAll(Drops(b.pool)) && a.owed == a.deferred
        && a.deferred == (if b.server.lazy then b.deferred + |b.pool| else 0) && a.pool == [] && a.live == b.live
      case ExecuteCommit(_, _) => ExplainsExecute(op, b, o, a)
      case ExecuteRow(_, _) => ExplainsExecute(op, b, o, a)
      case FetchBatch(_) => ExplainsExecute(op, b, o, a)
      case _ => ExplainsFree(op, b, o, a)
  }

  // ---------------------------------------------------------------------------
  // The operations
  // ---------------------------------------------------------------------------

  /** The state between operations of a run. */
  ghost predicate Healthy(wc: WireConnection, live: seq<int>)
    reads wc, wc.freeHandles
  {
    && wc.InSync() && wc.Owning() && wc.server.dependable && Clean(wc.inbox)
    && (forall i :: 0 <= i < |live| ==> live[i] in wc.owned)
    && (forall i, j :: 0 <= i < j < |live| ==> live[i] != live[j])
  }

  function Look(wc: WireConnection, live: seq<int>): Snapshot
    reads wc, wc.freeHandles
    requires wc.freeCount <= wc.freeHandles.Length
  {
    Snapshot(wc.server, |wc.inbox|, wc.deferredCount, wc.freeHandles[..wc.freeCount], live)
  }

  lemma LookSound(wc: WireConnection, live: seq<int>)
    requires Healthy(wc, live)
    ensures Look(wc, live).Sound()
  {
    var pool := wc.freeHandles[..wc.freeCount];
    var all := pool + live;
    forall i | 0 <= i < |all|
      ensures all[i] in wc.server.held
      ensures (i < wc.freeCount ==> all[i] !in wc.owned) && (wc.freeCount <= i ==> all[i] in wc.owned)
    {
      if i < wc.freeCount {
        assert all[i] == wc.freeHandles[i];
      } else {
        assert all[i] == live[i - wc.freeCount];
      }
    }
    forall i, j | 0 <= i < j < |all| ensures all[i] != all[j] {
      if j < wc.freeCount {
        assert all[i] == wc.freeHandles[i] && all[j] == wc.freeHandles[j];
      } else if wc.freeCount <= i {
        assert all[i] == live[i - wc.freeCount] && all[j] == live[j - wc.freeCount];
      }
    }
  }

  method StepAsk(wc: WireConnection, live: seq<int>, req: Request) returns (o: Outcome)
    requires Healthy(wc, live) && Scripted(req)
    modifies wc`outbox, wc`server, wc`inbox, wc`deferredCount
    ensures Healthy(wc, live) && Explains(Ask(req), old(Look(wc, live)), o, Look(wc, live))
  {
    var r := wc.Call(req);
    o := if r.Err? then Failed(r.error) else Replied(r.value.handle, r.value.blobId, r.value.data);
  }

  method StepPrepare(wc: WireConnection, live: seq<int>, tx: int) returns (live': seq<int>, o: Outcome)
    requires Healthy(wc, live)
    modifies wc`outbox, wc`server, wc`inbox, wc`deferredCount, wc`freeCount, wc`owned
    ensures Healthy(wc, live') && Explains(PrepareNew(tx), old(Look(wc, live)), o, Look(wc, live'))
  {
    var handle, r := wc.AllocateAndPrepare(tx);
    o := if r.Err? then Failed(r.error) else Prepared(handle, r.value);
    live' := if r.Ok? then live + [handle] else live;
  }

  method StepExecute(wc: WireConnection, live: seq<int>, op: Op) returns (o: Outcome)
    requires Healthy(wc, live) && op.Possible(live) && (op.ExecuteCommit? || op.ExecuteRow? || op.FetchBatch?)
    modifies wc`outbox, wc`server, wc`inbox, wc`deferredCount
    ensures Healthy(wc, live) && Explains(op, old(Look(wc, live)), o, Look(wc, live))
  {
    var stmt := live[op.which];
    match op
    case ExecuteCommit(_, tx) =>
      TwoRequests(wc.server, Execute(stmt, tx), CommitRetaining(tx));
      var r := wc.ExecuteAndCommitRetaining(stmt, tx);
      o := if r.Err? then Failed(r.error) else Done;
    case ExecuteRow(_, tx) =>
      var row, r := wc.Execute2(stmt, tx);
      o := Returned(row, if r.Err? then Some(r.error) else None);
    case FetchBatch(_) =>
      var r := wc.FetchRowsReuse(stmt);
      o := if r.Err? then Failed(r.error) else Fetched(r.value.0, r.value.1);
  }

  /** The other live statements keep their handles. */
  lemma OthersKept(live: seq<int>, which: nat, owned: set<int>)
    requires which < |live| && forall i :: 0 <= i < |live| ==> live[i] in owned
    requires forall i, j :: 0 <= i < j < |live| ==> live[i] != live[j]
    ensures var rest := Without(live, which);
            && (forall i :: 0 <= i < |rest| ==> rest[i] in owned - {live[which]})
            && (forall i, j :: 0 <= i < j < |rest| ==> rest[i] != rest[j])
  {
    var rest := Without(live, which);
    assert forall i :: 0 <= i < |rest| ==> rest[i] == live[if i < which then i else i + 1];
  }

  /** Closes a cursor or drops a handle. */
  method StepFree(wc: WireConnection, live: seq<int>, op: Op) returns (live': seq<int>, o: Outcome)
    requires Healthy(wc, live) && op.Possible(live) && (op.CloseCursor? || op.Drop?)
    modifies wc`outbox, wc`server, wc`inbox, wc`deferredCount, wc`owned
    ensures Healthy(wc, live') && Explains(op, old(Look(wc, live)), o, Look(wc, live'))
  {
    hide FirstRefused, Clean, FirstFailure, Without, AllPlain, Releases, Released, Drops;
    hide ExplainsPrepare, ExplainsExecute, ExplainsBlob;
    var stmt := live[op.which];
    wc.PoolAvoids(stmt);
    OthersKept(live, op.which, wc.owned);
    OneRequest(wc.server, Free(stmt, op.Drop?));
    RefusedNext(wc.server, |wc.server.log|, 0);
    RefusedNone(wc.server, |wc.server.log|);
    FreesClean(wc.server, wc.inbox, [Free(stmt, op.Drop?)]);
    NothingOwed();
    var r := wc.FreeStatement(stmt, op.Drop?);
    o := if r.Err? then Failed(r.error) else Done;
    live' := if op.Drop? then Without(live, op.which) else live;
  }

  lemma RefusedNone(s: Server, n: nat)
    ensures FirstRefused(s, n, 0) == n
  {
  }

  /** A dependable server's answers to frees that are read late are all good. */
  lemma {:induction false} FreesClean(s: Server, inbox: seq<Message>, reqs: seq<Request>)
    requires Clean(inbox) && s.dependable && forall i :: 0 <= i < |reqs| ==> reqs[i].Free?
    ensures s.lazy ==> Clean(inbox + s.AnswerAll(reqs)) && |s.AnswerAll(reqs)| == |reqs|
    decreases |reqs|
  {
    if s.lazy {
      if reqs == [] {
        assert inbox + [] == inbox;
      } else {
        var own := s.Answer(reqs[0]);
        CleanAppend(inbox, own);
        FreesClean(s.After(reqs[0]), inbox + own, reqs[1..]);
        assert inbox + own + s.After(reqs[0]).AnswerAll(reqs[1..]) == inbox + s.AnswerAll(reqs);
      }
    }
  }

  method StepRecycle(wc: WireConnection, live: seq<int>, op: Op) returns (live': seq<int>, o: Outcome)
    requires Healthy(wc, live) && op.Possible(live) && op.Recycle?
    modifies wc`outbox, wc`server, wc`inbox, wc`deferredCount, wc`owned, wc`freeCount, wc.freeHandles
    ensures Healthy(wc, live') && Explains(op, old(Look(wc, live)), o, Look(wc, live'))
  {
    hide Releases, Released, FirstRefused, Clean, FirstFailure, Without, AllPlain, ExplainsFree;
    var stmt := live[op.which];
    ghost var before := Look(wc, live);
    ghost var full := wc.freeCount == MAX_FREE_HANDLES;
    wc.PoolAvoids(stmt);
    OthersKept(live, op.which, wc.owned);
    if wc.lazySend {
      RecycleLazily(wc.server, wc.inbox, stmt, op.hasCursor, full);
    } else {
      RecycleVerdicts(wc.server, stmt, op.hasCursor, full);
      NothingOwed();
    }
    var r := wc.RecycleStatement(stmt, op.hasCursor);
    o := if r.Err? then Failed(r.error) else Done;
    live' := Without(live, op.which);
    RecycleExplained(op, before, o, Look(wc, live'));
  }

  lemma RecycleExplained(op: Op, b: Snapshot, o: Outcome, a: Snapshot)
    requires op.Recycle? && op.Possible(b.live) && a.owed == a.deferred && b.owed == b.deferred
    requires a.live == Without(b.live, op.which)
    requires var h, full := b.live[op.which], |b.pool| == MAX_FREE_HANDLES;
             && (b.server.lazy ==>
                   var reqs := Releases(h, op.hasCursor, full);
                   a.server == b.server.AfterAll(reqs) && a.owed == b.owed + |reqs| && o == Done)
             && (!b.server.lazy ==>
                   var reqs := Releases(h, op.hasCursor, full && (!op.hasCursor || b.server.Accepts(Free(h, false))));
                   && a.server == b.server.AfterAll(reqs) && a.owed == 0
                   && (o == Done <==> Released(b.server, h, op.hasCursor, full))
                   && (o != Done ==> a.server.log != [] && o == Failed(Status(|a.server.log| - 1))))
             && a.pool == if !full && o == Done then b.pool + [h] else b.pool
    ensures ExplainsFree(op, b, o, a)
  {
    hide Released, FirstRefused, Without;
    if !b.server.lazy {
      RecycleVerdicts(b.server, b.live[op.which], op.hasCursor, |b.pool| == MAX_FREE_HANDLES);
    }
  }

  lemma RecycleLazily(s: Server, inbox: seq<Message>, stmt: int, hasCursor: bool, full: bool)
    requires Clean(inbox) && s.dependable && s.lazy
    ensures var reqs := Releases(stmt, hasCursor, full);
            && Grown(s, s.AfterAll(reqs)) && Clean(inbox + s.AnswerAll(reqs)) && |s.AnswerAll(reqs)| == |reqs|
  {
    FreesClean(s, inbox, Releases(stmt, hasCursor, full));
    AfterAllGrows(s, Releases(stmt, hasCursor, full));
  }

  /** Without lazy send a recycle goes as far as its verdicts let it. */
  lemma RecycleVerdicts(s: Server, stmt: int, hasCursor: bool, full: bool)
    requires !s.lazy
    ensures var reqs := Releases(stmt, hasCursor, full && (!hasCursor || s.VerdictAt(|s.log|).ok));
            var refused := FirstRefused(s, |s.log|, |reqs|);
            && Grown(s, s.AfterAll(reqs)) && s.AfterAll(reqs).log == s.log + reqs
            && s.Accepts(Free(stmt, false)) == s.VerdictAt(|s.log|).ok
            && (Released(s, stmt, hasCursor, full) <==> refused == |s.log| + |reqs|)
            && (refused < |s.log| + |reqs| ==> refused == |s.log| + |reqs| - 1)
  {
    var n := |s.log|;
    var reqs := Releases(stmt, hasCursor, full && (!hasCursor || s.VerdictAt(n).ok));
    AfterAllGrows(s, reqs);
    RefusedNext(s, n, 0);
    RefusedNext(s, n, 1);
  }

  method StepBlob(wc: WireConnection, live: seq<int>, op: Op) returns (o: Outcome)
    requires Healthy(wc, live) && (op.ReadBlob? || op.WriteBlob?)
    modifies wc`outbox, wc`server, wc`inbox, wc`deferredCount
    ensures Healthy(wc, live) && Explains(op, old(Look(wc, live)), o, Look(wc, live))
  {
    if op.ReadBlob? {
      var r := ReadBlobData(wc, op.tx, op.id);
      o := if r.Err? then Failed(r.error) else Content(r.value);
    } else {
      var r := WriteBlobData(wc, op.tx, op.data);
      o := if r.Err? then Failed(r.error) else Outcome.Written(r.value);
    }
  }

  method StepDrain(wc: WireConnection, live: seq<int>) returns (o: Outcome)
    requires Healthy(wc, live)
    modifies wc`outbox, wc`server, wc`inbox, wc`deferredCount, wc`owned, wc`freeCount
    ensures Healthy(wc, live) && Explains(DrainPool, old(Look(wc, live)), o, Look(wc, live))
  {
    ghost var drops := Drops(wc.Pool());
    FreesAll(wc.Pool());
    FreesClean(wc.server, wc.inbox, drops);
    AfterAllGrows(wc.server, drops);
    wc.DrainStatementPool();
    o := Done;
  }

  lemma {:induction false} FreesAll(pool: seq<int>)
    ensures forall i :: 0 <= i < |Drops(pool)| ==> Drops(pool)[i].Free?
  {
    if pool != [] {
      FreesAll(pool[..|pool| - 1]);
    }
  }

  method Step(wc: WireConnection, live: seq<int>, op: Op) returns (live': seq<int>, o: Outcome)
    requires Healthy(wc, live)
    modifies wc, wc.freeHandles
    ensures Healthy(wc, live') && Explains(op, old(Look(wc, live)), o, Look(wc, live'))
  {
    hide Healthy, ExplainsPrepare, ExplainsExecute, ExplainsFree, ExplainsBlob;
    live', o := live, Skipped;
    FitsWhenHealthy(wc, live);
    if !op.Possible(live) {
      return;
    }
    match op
    case Ask(req) => o := StepAsk(wc, live, req);
    case PrepareNew(tx) => live', o := StepPrepare(wc, live, tx);
    case ExecuteCommit(_, _) => o := StepExecute(wc, live, op);
    case ExecuteRow(_, _) => o := StepExecute(wc, live, op);
    case FetchBatch(_) => o := StepExecute(wc, live, op);
    case CloseCursor(_) => live', o := StepFree(wc, live, op);
    case Drop(_) => live', o := StepFree(wc, live, op);
    case Recycle(_, _) => live', o := StepRecycle(wc, live, op);
    case ReadBlob(_, _) => o := StepBlob(wc, live, op);
    case WriteBlob(_, _) => o := StepBlob(wc, live, op);
    case DrainPool => o := StepDrain(wc, live);
  }

  lemma FitsWhenHealthy(wc: WireConnection, live: seq<int>)
    requires Healthy(wc, live)
    ensures wc.freeCount <= wc.freeHandles.Length
  {
  }

  /** Each operation's outcome and everything seen after it are explained by what was seen before it. */
  ghost predicate Explained(ops: seq<Op>, outcomes: seq<Outcome>, seen: seq<Snapshot>) {
    && |outcomes| == |ops| && |seen| == |ops| + 1 && seen[0].pool == [] && seen[0].live == []
    && (forall i :: 0 <= i <= |ops| ==> seen[i].Sound())
    && (forall i :: 0 <= i < |ops| ==> Explains(ops[i], seen[i], outcomes[i], seen[i + 1]))
  }

  /**
   * Every run against a server that never refuses an allocate or a late-read free, from a fresh connection. What
   * is seen after each operation, and what the operation came back with, is explained by the server it met.
   */
  method Run(lazy: bool, script: seq<Verdict>, ops: seq<Op>) returns (outcomes: seq<Outcome>, seen: seq<Snapshot>)
    ensures Explained(ops, outcomes, seen)
    ensures seen[0] == Snapshot(Server(script, true, lazy, [], {}, 0), 0, 0, [], [])
  {
    hide Healthy, Explains;
    var wc := new WireConnection(lazy, Server(script, true, lazy, [], {}, 0));
    var live := [];
    StartsHealthy(wc);
    LookSound(wc, live);
    FitsWhenHealthy(wc, live);
    outcomes, seen := [], [Look(wc, live)];
    for i := 0 to |ops|
      invariant Healthy(wc, live) && fresh(wc) && fresh(wc.freeHandles) && wc.freeCount <= wc.freeHandles.Length
      invariant |outcomes| == i && |seen| == i + 1 && seen[i] == Look(wc, live)
      invariant seen[0] == Snapshot(Server(script, true, lazy, [], {}, 0), 0, 0, [], [])
      invariant forall k :: 0 <= k <= i ==> seen[k].Sound()
      invariant forall k :: 0 <= k < i ==> Explains(ops[k], seen[k], outcomes[k], seen[k + 1])
    {
      var o;
      live, o := Step(wc, live, ops[i]);
      LookSound(wc, live);
      FitsWhenHealthy(wc, live);
      outcomes, seen := outcomes + [o], seen + [Look(wc, live)];
    }
  }

  lemma StartsHealthy(wc: WireConnection)
    requires wc.InSync() && wc.Owning() && wc.server.dependable && wc.deferredCount == 0
    ensures Healthy(wc, [])
  {
  }
}
