/** Runs of the wire and logs of the connection speak of the same handles and the same pool. */
module WireTrace {
  import opened HandlePool
  import opened WireServer
  import opened WireSession
  import opened WireRuns
  import Blobs
  import Trace

  /** What a log says of an operation of the wire. */
  function Noted(op: Op, b: Snapshot, o: Outcome): Trace.Op {
    if !op.Possible(b.live) then Trace.Ping
    else match op
      case PrepareNew(tx) => Trace.Prepare(tx, if o.Prepared? then o.stmt else 0)
      case ExecuteCommit(k, tx) => Trace.Execute(b.live[k], tx, false)
      case ExecuteRow(k, tx) => Trace.Execute(b.live[k], tx, true)
      case FetchBatch(k) => Trace.Fetch(b.live[k])
      case CloseCursor(k) => Trace.Free(b.live[k], false)
      case Recycle(k, hasCursor) => Trace.Recycle(b.live[k], hasCursor)
      case Drop(k) => Trace.Free(b.live[k], true)
      case DrainPool => Trace.Drain
      case _ => Trace.Ping
  }

  function EventOf(op: Op, b: Snapshot, o: Outcome): Trace.Event {
    Trace.Event(Noted(op, b, o), |b.server.log|, !o.Failed?, true)
  }

  function Users(s: Snapshot): set<int> { set h | h in s.live }

  /** The operation moves handles between pool and users as the log of it says. */
  ghost predicate Mirrored(op: Op, b: Snapshot, o: Outcome, a: Snapshot) {
    var e := EventOf(op, b, o);
    && a.pool == Trace.Pools(b.pool, e) && Users(a) == Trace.Uses(Users(b), e)
    && Trace.Fits(Users(b), e) && Trace.Brought(b.pool, Users(b), e)
  }

  lemma StepMirrors(op: Op, b: Snapshot, o: Outcome, a: Snapshot)
    requires b.Sound() && a.Sound() && Explains(op, b, o, a)
    ensures Mirrored(op, b, o, a)
  {
    hide ExplainsPrepare, ExplainsExecute, ExplainsFree, ExplainsBlob;
    if op.Possible(b.live) {
      match op
      case PrepareNew(_) => PrepareMirrors(op, b, o, a);
      case ExecuteCommit(_, _) => ExecuteMirrors(op, b, o, a);
      case ExecuteRow(_, _) => ExecuteMirrors(op, b, o, a);
      case FetchBatch(_) => ExecuteMirrors(op, b, o, a);
      case CloseCursor(_) => FreeMirrors(op, b, o, a);
      case Recycle(_, _) => FreeMirrors(op, b, o, a);
      case Drop(_) => FreeMirrors(op, b, o, a);
      case ReadBlob(_, _) => BlobMirrors(op, b, o, a);
      case WriteBlob(_, _) => BlobMirrors(op, b, o, a);
      case Ask(_) =>
      case DrainPool =>
    }
  }

  lemma PrepareMirrors(op: Op, b: Snapshot, o: Outcome, a: Snapshot)
    requires a.Sound() && op.PrepareNew? && ExplainsPrepare(op.tx, b, o, a)
    ensures Mirrored(op, b, o, a)
  {
    if o.Prepared? {
      BroughtIsNew(b.live, o.stmt, a);
    }
  }

  lemma ExecuteMirrors(op: Op, b: Snapshot, o: Outcome, a: Snapshot)
    requires op.Possible(b.live) && (op.ExecuteCommit? || op.ExecuteRow? || op.FetchBatch?)
    requires ExplainsExecute(op, b, o, a)
    ensures Mirrored(op, b, o, a)
  {
  }

  lemma FreeMirrors(op: Op, b: Snapshot, o: Outcome, a: Snapshot)
    requires b.Sound() && op.Possible(b.live) && (op.CloseCursor? || op.Drop? || op.Recycle?)
    requires ExplainsFree(op, b, o, a)
    ensures Mirrored(op, b, o, a)
  {
    hide Blobs.FirstRefused, Releases, Without, Snapshot.Sound;
    LiveDiffer(b);
    LiveWithout(b.live, op.which);
  }

  lemma BlobMirrors(op: Op, b: Snapshot, o: Outcome, a: Snapshot)
    requires (op.ReadBlob? || op.WriteBlob?) && ExplainsBlob(op, b, o, a)
    ensures Mirrored(op, b, o, a)
  {
    hide Blobs.BlobContent, Blobs.WriteOutcome, Blobs.Segments, Blobs.Written;
  }

  lemma BroughtIsNew(live: seq<int>, h: int, a: Snapshot)
    requires a.Sound() && a.live == live + [h]
    ensures h !in live && Users(a) == (set x | x in live) + {h}
  {
    var all, n := a.pool + a.live, |a.pool| + |live|;
    assert all[n] == h;
    forall i | 0 <= i < |live| ensures live[i] != h {
      assert all[|a.pool| + i] == live[i];
    }
  }

  lemma LiveDiffer(b: Snapshot)
    requires b.Sound()
    ensures |b.pool| <= MAX_FREE_HANDLES
    ensures forall i, j :: 0 <= i < j < |b.live| ==> b.live[i] != b.live[j]
  {
    var all := b.pool + b.live;
    forall i, j | 0 <= i < j < |b.live| ensures b.live[i] != b.live[j] {
      assert all[|b.pool| + i] == b.live[i] && all[|b.pool| + j] == b.live[j];
    }
  }

  lemma LiveWithout(live: seq<int>, k: nat)
    requires k < |live| && forall i, j :: 0 <= i < j < |live| ==> live[i] != live[j]
    ensures (set h | h in Without(live, k)) == (set h | h in live) - {live[k]}
  {
    assert live == live[..k] + [live[k]] + live[k + 1..];
    assert live[k] !in live[..k] && live[k] !in live[k + 1..];
  }

  function LogOf(ops: seq<Op>, outcomes: seq<Outcome>, seen: seq<Snapshot>, n: nat): (log: seq<Trace.Event>)
    requires n <= |ops| == |outcomes| && |seen| == |ops| + 1
    ensures |log| == n
  {
    if n == 0 then [] else LogOf(ops, outcomes, seen, n - 1) + [EventOf(ops[n - 1], seen[n - 1], outcomes[n - 1])]
  }

  /**
   * Replaying the log of a run on an empty pool gives the pool the client really has at that point, and the
   * handles in use are those of its live statements. The log is one of a client that misuses no handle, and of a
   * server and a pool that hand out none in use.
   */
  lemma {:induction false} RunMirrors(ops: seq<Op>, outcomes: seq<Outcome>, seen: seq<Snapshot>, n: nat)
    requires Explained(ops, outcomes, seen) && n <= |ops|
    ensures var log := LogOf(ops, outcomes, seen, n);
            && seen[n].pool == Trace.PoolAfter(log) && Users(seen[n]) == Trace.InUse(log)
            && Trace.Disciplined(log) && Trace.Served(log) && Trace.PoolApart(log)
  {
    hide Explains, Trace.Disciplined, Trace.Served, Trace.PoolApart, Trace.Pools, Trace.Uses, Trace.Fits, Trace.Brought;
    if n == 0 {
      NothingNoted();
    } else {
      RunMirrors(ops, outcomes, seen, n - 1);
      StepMirrors(ops[n - 1], seen[n - 1], outcomes[n - 1], seen[n]);
      Trace.LogNext(LogOf(ops, outcomes, seen, n - 1), EventOf(ops[n - 1], seen[n - 1], outcomes[n - 1]));
    }
    Trace.PoolStaysApart(LogOf(ops, outcomes, seen, n));
  }

  lemma NothingNoted()
    ensures Trace.Disciplined([]) && Trace.Served([]) && Trace.PoolAfter([]) == [] && Trace.InUse([]) == {}
  {
  }
}
