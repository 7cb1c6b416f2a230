/** The client's side of the wire: pipelined requests, answers read late, and the pool of statement handles. */
module WireSession {
  import opened Common
  import opened HandlePool
  import opened WireServer

  /** An error names the request whose answer it was found in. */
  datatype Fault = Status(request: nat) | Unexpected(request: nat)

  predicate Good(m: Message) { m.Response? && m.ok }

  /** How the client reads one message where it expects a generic response. */
  function Reading(m: Message): Result<Message, Fault> {
    if !m.Response? then Err(Unexpected(m.tag)) else if !m.ok then Err(Status(m.tag)) else Ok(m)
  }

  /** Where the first answer that is not a success stands; the length if there is none. */
  function FirstFailure(ms: seq<Message>): (n: nat)
    ensures n <= |ms|
    ensures forall i :: 0 <= i < n ==> Good(ms[i])
    ensures n < |ms| ==> !Good(ms[n])
  {
    if ms == [] || !Good(ms[0]) then 0 else 1 + FirstFailure(ms[1..])
  }

  predicate Clean(ms: seq<Message>) { FirstFailure(ms) == |ms| }

  lemma {:induction false} FirstFailureIs(ms: seq<Message>, n: nat)
    requires n <= |ms| && (forall i :: 0 <= i < n ==> Good(ms[i])) && (n < |ms| ==> !Good(ms[n]))
    ensures FirstFailure(ms) == n
  {
  }

  ghost predicate AllPlain(ms: seq<Message>) { forall i :: 0 <= i < |ms| ==> ms[i].Response? }

  /**
   * What is left unread when the client first catches up on `owed` and then reads `count` more responses, the
   * catching up having stopped for good at a failure.
   */
  function Unread(owed: seq<Message>, own: seq<Message>, count: nat): seq<Message>
    requires 0 < count <= |own|
  {
    if Clean(owed) then own[count..] else (owed[FirstFailure(owed) + 1..] + own)[count - 1..]
  }

  /** The response the client takes for the answer to its request. */
  function Taken(owed: seq<Message>, own: seq<Message>): Result<Message, Fault>
    requires own != []
  {
    Reading(if Clean(owed) then own[0] else owed[FirstFailure(owed)])
  }

  /** Reading as many responses as were asked for leaves as many as the client then still counts as owed. */
  lemma UnreadCount(owed: seq<Message>, own: seq<Message>)
    requires own != [] && AllPlain(owed) && AllPlain(own)
    ensures |Unread(owed, own, |own|)| == |owed| - FirstFailure(owed)
    ensures AllPlain(Unread(owed, own, |own|))
  {
  }

  class WireConnection {
    const lazySend: bool
    var deferredCount: nat
    var server: Server
    var outbox: seq<Request>
    var inbox: seq<Message>
    const freeHandles: array<int>
    var freeCount: nat
    /** Handles held by live statements, open rows and running executions. */
    ghost var owned: set<int>

    /** Between operations the responses still unread are exactly those counted as deferred. */
    ghost predicate InSync()
      reads this
    {
      && outbox == [] && server.Valid() && server.lazy == lazySend
      && |inbox| == deferredCount && AllPlain(inbox)
      && (!lazySend ==> deferredCount == 0)
    }

    ghost function Pool(): seq<int>
      reads this, freeHandles
      requires freeCount <= freeHandles.Length
    {
      freeHandles[..freeCount]
    }

    /** Pooled handles are distinct, held on the server, and nobody else's. */
    ghost predicate Owning()
      reads this, freeHandles
    {
      && freeHandles.Length == MAX_FREE_HANDLES && freeCount <= MAX_FREE_HANDLES
      && (forall i, j :: 0 <= i < j < freeCount ==> freeHandles[i] != freeHandles[j])
      && (forall i :: 0 <= i < freeCount ==> freeHandles[i] in server.held && freeHandles[i] !in owned)
      && owned <= server.held
    }

    constructor (lazy: bool, peer: Server)
      requires peer.Valid() && peer.lazy == lazy && peer.held == {}
      ensures InSync() && Owning() && deferredCount == 0 && server == peer && lazySend == lazy && owned == {}
      ensures freeCount == 0
      ensures fresh(freeHandles)
    {
      lazySend := lazy;
      deferredCount := 0;
      server := peer;
      outbox, inbox := [], [];
      freeHandles := new int[MAX_FREE_HANDLES];
      freeCount := 0;
      owned := {};
    }

    // -------------------------------------------------------------------------
    // Transport
    // -------------------------------------------------------------------------

    method Write(req: Request)
      modifies `outbox
      ensures outbox == old(outbox) + [req]
    {
      outbox := outbox + [req];
    }

    /** Everything written is answered, in order. */
    method Flush()
      modifies `outbox, `inbox, `server
      ensures outbox == [] && server == old(server).AfterAll(old(outbox))
      ensures inbox == old(inbox) + old(server).AnswerAll(old(outbox))
    {
      inbox := inbox + server.AnswerAll(outbox);
      server := server.AfterAll(outbox);
      outbox := [];
    }

    method ReadNext() returns (r: Result<Message, Fault>)
      requires inbox != []
      modifies `inbox
      ensures r == Reading(old(inbox)[0]) && inbox == old(inbox)[1..]
    {
      r := Reading(inbox[0]);
      inbox := inbox[1..];
    }

    /** Stops at the first deferred response that failed, without counting it as consumed. */
    method ConsumeDeferred() returns (r: Result<(), Fault>)
      requires deferredCount <= |inbox|
      modifies `inbox, `deferredCount
      ensures var owed := old(inbox[..deferredCount]);
              var f := FirstFailure(owed);
              && deferredCount == |owed| - f
              && (if f == |owed| then r == Ok(()) && inbox == old(inbox)[|owed|..]
                  else inbox == old(inbox)[f + 1..] && r.Err? && Err(r.error) == Reading(owed[f]))
    {
      ghost var owed := inbox[..deferredCount];
      ghost var n := 0;
      while deferredCount > 0
        invariant 0 <= n == |owed| - deferredCount
        invariant inbox == old(inbox)[n..]
        invariant forall i :: 0 <= i < n ==> Good(owed[i])
      {
        assert owed[n] == old(inbox)[n];
        var next := ReadNext();
        if next.Err? {
          FirstFailureIs(owed, n);
          return Err(next.error);
        }
        n := n + 1;
        deferredCount := deferredCount - 1;
      }
      FirstFailureIs(owed, |owed|);
      r := Ok(());
    }

    method ReadResponse() returns (r: Result<Message, Fault>)
      requires deferredCount < |inbox|
      modifies `inbox, `deferredCount
      ensures var owed, own := old(inbox[..deferredCount]), old(inbox[deferredCount..]);
              && deferredCount == |owed| - FirstFailure(owed)
              && r == Taken(owed, own) && inbox == Unread(owed, own, 1)
    {
      var caught := ConsumeDeferred();
      if caught.Err? {
        assert old(inbox) == old(inbox[..deferredCount]) + old(inbox[deferredCount..]);
        return Err(caught.error);
      }
      r := ReadNext();
    }

    // -------------------------------------------------------------------------
    // Operations with one response, and two in one flush
    // -------------------------------------------------------------------------

    /** Every operation that sends one request and reads one generic response. */
    method Call(req: Request) returns (r: Result<Message, Fault>)
      requires InSync() && req.Plain()
      modifies `outbox, `server, `inbox, `deferredCount
      ensures InSync() && server == old(server).After(req)
      ensures var own := old(server).Answer(req);
              r == Taken(old(inbox), own) && inbox == Unread(old(inbox), own, 1)
    {
      ghost var own := server.Answer(req);
      AfterValid(server, req);
      UnreadCount(inbox, own);
      SendOne(req);
      r := ReadResponse();
    }

    method SendOne(req: Request)
      requires outbox == [] && deferredCount == |inbox|
      modifies `outbox, `inbox, `server
      ensures outbox == [] && server == old(server).After(req)
      ensures |inbox| == deferredCount + |old(server).Answer(req)|
      ensures inbox == old(inbox) + old(server).Answer(req)
      ensures inbox[..deferredCount] == old(inbox) && inbox[deferredCount..] == old(server).Answer(req)
    {
      OneRequest(server, req);
      Write(req);
      Flush();
    }

    /** Two requests in one flush. */
    method SendBoth(a: Request, b: Request)
      requires outbox == [] && deferredCount == |inbox|
      modifies `outbox, `inbox, `server
      ensures outbox == [] && server == old(server).AfterAll([a, b])
      ensures |inbox| == deferredCount + |old(server).AnswerAll([a, b])|
      ensures inbox[..deferredCount] == old(inbox) && inbox[deferredCount..] == old(server).AnswerAll([a, b])
    {
      Write(a);
      Write(b);
      assert outbox == [a, b];
      Flush();
    }

    method Execute(stmt: int, tx: int) returns (r: Result<(), Fault>)
      requires InSync()
      modifies `outbox, `server, `inbox, `deferredCount
      ensures InSync() && server == old(server).After(Request.Execute(stmt, tx))
      ensures Clean(old(inbox)) ==> inbox == [] && Settles(r, old(server).Answer(Request.Execute(stmt, tx)))
      ensures !Clean(old(inbox)) ==> Misled(r, old(inbox))
    {
      var resp := Call(Request.Execute(stmt, tx));
      r := if resp.Err? then Err(resp.error) else Ok(());
    }

    method ExecuteAndCommitRetaining(stmt: int, tx: int) returns (r: Result<(), Fault>)
      requires InSync()
      modifies `outbox, `server, `inbox, `deferredCount
      ensures InSync() && server == old(server).AfterAll([Request.Execute(stmt, tx), CommitRetaining(tx)])
      ensures Clean(old(inbox)) ==>
        inbox == [] && Settles(r, old(server).AnswerAll([Request.Execute(stmt, tx), CommitRetaining(tx)]))
      ensures !Clean(old(inbox)) ==> Misled(r, old(inbox))
    {
      hide Unread, Taken, Clean, FirstFailure, Settles, Misled;
      var execute, commit := Request.Execute(stmt, tx), CommitRetaining(tx);
      ghost var own := server.AnswerAll([execute, commit]);
      TwoRequests(server, execute, commit);
      UnreadCount(inbox, own);
      SendBoth(execute, commit);
      var execResp := ReadResponse();
      TwoReads(old(inbox), own);
      var commitResp := ReadNext();
      r := if execResp.Err? then Err(execResp.error) else if commitResp.Err? then Err(commitResp.error) else Ok(());
    }

    // -------------------------------------------------------------------------
    // Statement handles
    // -------------------------------------------------------------------------

    method PrepareStatement(tx: int, stmt: int) returns (r: Result<Bytes, Fault>)
      requires InSync()
      modifies `outbox, `server, `inbox, `deferredCount
      ensures InSync() && server == old(server).After(Prepare(tx, stmt))
      ensures Clean(old(inbox)) ==> inbox == [] && Describes(r, old(server).Answer(Prepare(tx, stmt))[0])
      ensures !Clean(old(inbox)) ==> Misled(r, old(inbox))
    {
      var resp := Call(Prepare(tx, stmt));
      r := if resp.Err? then Err(resp.error) else Ok(resp.value.data);
    }

    /** Reuses a pooled handle, or allocates and prepares in one flush. */
    method AllocateAndPrepare(tx: int) returns (handle: int, r: Result<Bytes, Fault>)
      requires InSync() && PoolFits()
      modifies `outbox, `server, `inbox, `deferredCount, `freeCount, `owned
      ensures PoolFits() && (old(Owning()) ==> Owning()) && (!InSync() ==> r.Err?)
      ensures InSync() <==> old(freeCount) > 0 || (Clean(old(inbox)) && old(server).Accepts(Allocate))
      ensures old(freeCount) > 0 ==>
        && Pool() == old(Pool())[..old(freeCount) - 1] && (r.Ok? ==> handle == old(Pool())[old(freeCount) - 1])
        && server == old(server).After(Prepare(tx, old(Pool())[old(freeCount) - 1]))
      ensures old(freeCount) > 0 && Clean(old(inbox)) ==>
        inbox == [] && Describes(r, old(server).Answer(Prepare(tx, old(freeHandles[freeCount - 1])))[0])
      ensures old(freeCount) == 0 ==>
        Pool() == old(Pool()) && server == old(server).After(Allocate).After(Prepare(tx, INVALID_OBJECT))
      ensures old(freeCount) == 0 && Clean(old(inbox)) && old(server).Accepts(Allocate) ==>
        && inbox == [] && Describes(r, old(server).After(Allocate).Answer(Prepare(tx, INVALID_OBJECT))[0])
        && handle == old(server).NewHandle() && handle !in old(server.held)
      ensures !Clean(old(inbox)) ==> Misled(r, old(inbox))
      ensures r.Ok? && old(Owning()) ==> handle in server.held && handle !in old(owned)
      ensures owned == if r.Ok? then old(owned) + {handle} else old(owned)
    {
      if freeCount > 0 {
        freeCount := freeCount - 1;
        handle := freeHandles[freeCount];
        r := PrepareStatement(tx, handle);
        if r.Err? {
          handle := 0;
          return;
        }
        owned := owned + {handle};
        return;
      }
      handle, r := AllocateThenPrepare(tx);
      if r.Ok? {
        owned := owned + {handle};
      }
    }

    method AllocateThenPrepare(tx: int) returns (handle: int, r: Result<Bytes, Fault>)
      requires InSync()
      modifies `outbox, `server, `inbox, `deferredCount
      ensures server == old(server).After(Allocate).After(Prepare(tx, INVALID_OBJECT)) && server.Valid()
      ensures InSync() <==> Clean(old(inbox)) && old(server).Accepts(Allocate)
      ensures InSync() ==> inbox == [] && Describes(r, old(server).After(Allocate).Answer(Prepare(tx, INVALID_OBJECT))[0])
      ensures InSync() ==> handle == old(server).NewHandle() && handle !in old(server.held) && handle in server.held
      ensures !InSync() ==> r.Err?
      ensures !Clean(old(inbox)) ==> Misled(r, old(inbox))
    {
      var allocate, prepare := Allocate, Prepare(tx, INVALID_OBJECT);
      ghost var own := server.AnswerAll([allocate, prepare]);
      TwoRequests(server, allocate, prepare);
      AfterValid(server, allocate);
      SendBoth(allocate, prepare);
      var allocResp := ReadResponse();
      TwoReads(old(inbox), own);
      if allocResp.Err? {
        assert |inbox| == deferredCount + 1;
        return 0, Err(allocResp.error);
      }
      handle := allocResp.value.handle;
      var prepResp := ReadNext();
      r := if prepResp.Err? then Err(prepResp.error) else Ok(prepResp.value.data);
    }

    /** The pool's array is as large as the pool may get. */
    ghost predicate PoolFits()
      reads this
    {
      freeHandles.Length == MAX_FREE_HANDLES && freeCount <= MAX_FREE_HANDLES
    }

    /** With lazy send the answer to a free is left for later. A free of a pooled handle would break the pool. */
    method FreeStatement(stmt: int, drop: bool) returns (r: Result<(), Fault>)
      requires InSync() && PoolFits()
      modifies `outbox, `server, `inbox, `deferredCount, `owned
      ensures InSync() && server == old(server).After(Free(stmt, drop))
      ensures old(Owning()) && (!drop || stmt !in Pool()) ==> Owning()
      ensures owned == if drop then old(owned) - {stmt} else old(owned)
      ensures lazySend ==> r == Ok(()) && inbox == old(inbox) + old(server).Answer(Free(stmt, drop))
      ensures !lazySend ==> inbox == [] && r.Ok? == old(server).Accepts(Free(stmt, drop))
      ensures r.Err? ==> r.error == Status(|old(server.log)|)
    {
      AfterValid(server, Free(stmt, drop));
      SendOne(Free(stmt, drop));
      if drop {
        owned := owned - {stmt};
      }
      PoolHas(stmt);
      if lazySend {
        deferredCount := deferredCount + 1;
        return Ok(());
      }
      assert inbox == old(server).Answer(Free(stmt, drop));
      var resp := ReadNext();
      r := if resp.Err? then Err(resp.error) else Ok(());
    }

    lemma PoolHas(stmt: int)
      requires freeCount <= freeHandles.Length
      ensures stmt in Pool() <==> exists i :: 0 <= i < freeCount && freeHandles[i] == stmt
    {
      if stmt in Pool() {
        var i :| 0 <= i < |Pool()| && Pool()[i] == stmt;
        assert freeHandles[i] == stmt;
      }
      if i :| 0 <= i < freeCount && freeHandles[i] == stmt {
        assert Pool()[i] == stmt;
      }
    }

    /** Puts a handle into the pool, which is right exactly for one that is held and not there yet. */
    method KeepHandle(stmt: int)
      requires PoolFits() && freeCount < MAX_FREE_HANDLES
      modifies `owned, `freeCount, freeHandles
      ensures PoolFits() && Pool() == old(Pool()) + [stmt] && owned == old(owned) - {stmt}
      ensures old(Owning()) ==> (Owning() <==> stmt in server.held && stmt !in old(Pool()))
    {
      PoolHas(stmt);
      ghost var n := freeCount;
      freeHandles[freeCount] := stmt;
      freeCount := freeCount + 1;
      owned := owned - {stmt};
      assert Pool() == old(Pool()) + [stmt];
      assert freeHandles[n] == stmt && forall i :: 0 <= i < n ==> freeHandles[i] == old(freeHandles[i]);
      if stmt in old(Pool()) {
        var i :| 0 <= i < n && old(freeHandles[i]) == stmt;
        assert freeHandles[i] == freeHandles[n];
      }
    }

    method PoolOrDrop(stmt: int) returns (r: Result<(), Fault>)
      requires InSync() && PoolFits()
      modifies `outbox, `server, `inbox, `deferredCount, `owned, `freeCount, freeHandles
      ensures InSync() && PoolFits() && owned == old(owned) - {stmt}
      ensures old(Owning()) && stmt in old(server.held) && stmt !in old(Pool()) ==> Owning()
      ensures old(Owning()) && Owning() && |Pool()| > |old(Pool())| ==> stmt in old(server.held) && stmt !in old(Pool())
      ensures old(freeCount) < MAX_FREE_HANDLES ==>
        && r == Ok(()) && Pool() == old(Pool()) + [stmt] && server == old(server) && inbox == old(inbox)
      ensures old(freeCount) == MAX_FREE_HANDLES ==>
        && Pool() == old(Pool()) && server == old(server).After(Free(stmt, true))
        && (lazySend ==> r == Ok(()) && inbox == old(inbox) + old(server).Answer(Free(stmt, true)))
        && (!lazySend ==> inbox == [] && r.Ok? == old(server).Accepts(Free(stmt, true)))
        && (r.Err? ==> r.error == Status(|old(server.log)|))
    {
      if freeCount < MAX_FREE_HANDLES {
        KeepHandle(stmt);
        return Ok(());
      }
      r := FreeStatement(stmt, true);
    }

    /**
     * The handle goes to the pool when there is room, otherwise it is dropped. Ownership survives exactly when
     * the handle was held and not in the pool already.
     */
    method RecycleStatement(stmt: int, hasCursor: bool) returns (r: Result<(), Fault>)
      requires InSync() && PoolFits()
      modifies `outbox, `server, `inbox, `deferredCount, `owned, `freeCount, freeHandles
      ensures InSync() && PoolFits() && owned == old(owned) - {stmt}
      ensures old(Owning()) && stmt in old(server.held) && stmt !in old(Pool()) ==> Owning()
      ensures old(Owning()) && Owning() && |Pool()| > |old(Pool())| ==> stmt in old(server.held) && stmt !in old(Pool())
      ensures lazySend ==>
        var requests := Releases(stmt, hasCursor, old(freeCount) == MAX_FREE_HANDLES);
        server == old(server).AfterAll(requests) && inbox == old(inbox) + old(server).AnswerAll(requests)
      ensures !lazySend ==> server == old(server).AfterAll(Releases(stmt, hasCursor,
        old(freeCount) == MAX_FREE_HANDLES && (!hasCursor || old(server).Accepts(Free(stmt, false)))))
      ensures !lazySend ==> inbox == [] && r.Ok? == Released(old(server), stmt, hasCursor, old(freeCount) == MAX_FREE_HANDLES)
      ensures Pool() == if old(freeCount) < MAX_FREE_HANDLES && r.Ok? then old(Pool()) + [stmt] else old(Pool())
      ensures r.Err? ==> !lazySend && |old(server.log)| < |server.log| && r.error == Status(|server.log| - 1)
    {
      hide Releases, Clean, FirstFailure;
      PoolHas(stmt);
      ReleaseEach(server, stmt);
      r := Ok(());
      if hasCursor {
        r := FreeStatement(stmt, false);
        if r.Err? {
          owned := owned - {stmt};
          return;
        }
      }
      r := PoolOrDrop(stmt);
    }

    lemma PoolAvoids(stmt: int)
      requires Owning() && stmt in owned
      ensures stmt !in Pool() && stmt in server.held
    {
    }

    /** Empties the pool, sending a drop for every handle in it, the latest first. */
    method DrainStatementPool()
      requires InSync() && PoolFits()
      modifies `outbox, `server, `inbox, `deferredCount, `owned, `freeCount
      ensures InSync() && freeCount == 0 && (old(Owning()) ==> Owning() && owned == old(owned))
      ensures server == old(server).AfterAll(Drops(old(Pool())))
      ensures lazySend ==> inbox == old(inbox) + old(server).AnswerAll(Drops(old(Pool())))
    {
      hide Drops, Clean, FirstFailure, InSync, Owning, Drained;
      ghost var first, received, pool := server, inbox, Pool();
      StillDraining(first, received, pool);
      while freeCount > 0
        invariant InSync() && PoolFits()
        invariant old(Owning()) ==> Owning() && owned == old(owned)
        invariant Drained(first, received, pool, server, inbox, Pool(), lazySend)
      {
        ghost var s, heard, rest := server, inbox, Pool();
        DropLatest();
        DrainsLatest(first, received, pool, s, heard, rest, inbox, lazySend);
      }
      assert Pool() == [];
      AllDrained(first, received, pool, server, inbox, lazySend);
    }

    /** Takes the latest handle out of the pool and sends its drop. */
    method DropLatest()
      requires InSync() && PoolFits() && freeCount > 0
      modifies `outbox, `server, `inbox, `deferredCount, `owned, `freeCount
      ensures InSync() && PoolFits() && freeCount == old(freeCount) - 1 && (old(Owning()) ==> Owning() && owned == old(owned))
      ensures var h := old(Pool())[old(freeCount) - 1];
              && Pool() == old(Pool())[..old(freeCount) - 1] && server == old(server).After(Free(h, true))
              && (lazySend ==> inbox == old(inbox) + old(server).Answer(Free(h, true)))
    {
      freeCount := freeCount - 1;
      var h := freeHandles[freeCount];
      assert Pool() == old(Pool())[..freeCount];
      PoolHas(h);
      var _ := FreeStatement(h, true);
    }

    // -------------------------------------------------------------------------
    // Answers of several messages
    // -------------------------------------------------------------------------

    /** The answer is a plain response, or a row announcement followed by one. */
    method Execute2(stmt: int, tx: int) returns (row: Option<Bytes>, r: Result<(), Fault>)
      requires InSync()
      modifies `outbox, `server, `inbox, `deferredCount
      ensures server == old(server).After(Request.Execute2(stmt, tx))
      ensures var own := old(server).Answer(Request.Execute2(stmt, tx));
              && (InSync() <==> Clean(old(inbox)) || |own| == 1)
              && (Clean(old(inbox)) ==> inbox == [] && Settles(r, [own[|own| - 1]])
                                        && row == if |own| == 2 then own[0].row else None)
              && (!Clean(old(inbox)) ==> Misled(r, old(inbox)))
    {
      hide Unread, Taken, Clean, FirstFailure;
      ghost var own := server.Answer(Request.Execute2(stmt, tx));
      AfterValid(server, Request.Execute2(stmt, tx));
      CleanMeans(old(inbox));
      SendOne(Request.Execute2(stmt, tx));
      row := None;
      var caught := ConsumeDeferred();
      if caught.Err? {
        LateFailure(old(inbox), own);
        return None, Err(caught.error);
      }
      CleanOne(own[|own| - 1]);
      var first := inbox[0];
      inbox := inbox[1..];
      if first.SqlResponse? {
        row := first.row;
        first := inbox[0];
        inbox := inbox[1..];
      }
      r := if !first.Response? then Err(Unexpected(first.tag)) else if first.ok then Ok(()) else Err(Status(first.tag));
    }

    /** Rows up to the end of the batch, or up to an error that discards them. */
    method ReadBatch(ghost tag: nat, ghost rows: seq<Bytes>, ghost last: Message)
      returns (r: Result<(seq<Bytes>, bool), Fault>)
      requires inbox == FetchRows(tag, rows) + [last] && (last.FetchEnd? || (last.Response? && !last.ok))
      modifies `inbox
      ensures inbox == [] && r == if last.FetchEnd? then Ok((rows, last.eof)) else Err(Status(last.tag))
    {
      var read := [];
      ghost var own := inbox;
      while true
        invariant |read| <= |rows| && read == rows[..|read|] && inbox == own[|read|..]
        decreases |inbox|
      {
        var m := inbox[0];
        inbox := inbox[1..];
        if !m.FetchRow? && !m.FetchEnd? {
          return Err(if m.Response? && !m.ok then Status(m.tag) else Unexpected(m.tag));
        }
        if m.FetchEnd? {
          assert |read| == |rows| && read == rows && m == last;
          return Ok((read, m.eof));
        }
        read := read + [m.cells];
      }
    }

    /** All rows of the batch, and whether the cursor is exhausted. */
    method FetchRowsReuse(stmt: int) returns (r: Result<(seq<Bytes>, bool), Fault>)
      requires InSync()
      modifies `outbox, `server, `inbox, `deferredCount
      ensures server == old(server).After(Fetch(stmt))
      ensures InSync() <==> Clean(old(inbox)) || RefusedOutright(old(server))
      ensures Clean(old(inbox)) ==> inbox == [] && r == Batch(old(server))
      ensures !Clean(old(inbox)) ==> Misled(r, old(inbox))
    {
      hide Unread, Taken, Clean, FirstFailure, RefusedOutright, AllPlain;
      hide FetchRows, Server.Answer, Server.VerdictAt;
      ghost var n, v := |server.log|, server.VerdictAt(|server.log|);
      ghost var own := server.Answer(Fetch(stmt));
      AfterValid(server, Fetch(stmt));
      CleanMeans(old(inbox));
      BatchPlain(old(server), stmt);
      SendOne(Fetch(stmt));
      var caught := ConsumeDeferred();
      if caught.Err? {
        LateFailure(old(inbox), own);
        return Err(caught.error);
      }
      r := ReadBatch(n, v.rows, own[|own| - 1]);
    }
  }

  lemma CleanOne(m: Message)
    ensures Clean([m]) <==> Good(m)
    ensures !Good(m) ==> FirstFailure([m]) == 0
  {
  }

  lemma CleanMeans(ms: seq<Message>)
    ensures Clean(ms) <==> FirstFailure(ms) == |ms|
    ensures AllPlain(ms) ==> forall i :: 0 <= i < |ms| ==> ms[i].Response?
    ensures AllPlain([])
  {
  }

  /** The fetch is answered by a single error. */
  predicate RefusedOutright(s: Server) {
    var v := s.VerdictAt(|s.log|);
    !v.ok && v.rows == []
  }

  function Batch(s: Server): Result<(seq<Bytes>, bool), Fault> {
    var v := s.VerdictAt(|s.log|);
    if v.ok then Ok((v.rows, v.eof)) else Err(Status(|s.log|))
  }

  lemma BatchPlain(s: Server, stmt: int)
    ensures AllPlain(s.Answer(Fetch(stmt))) && |s.Answer(Fetch(stmt))| == 1 <==> RefusedOutright(s)
    ensures var v, own := s.VerdictAt(|s.log|), s.Answer(Fetch(stmt));
            && |own| == 1 + |v.rows| && own == FetchRows(|s.log|, v.rows) + [own[|own| - 1]]
            && (if v.ok then own[|own| - 1] == FetchEnd(|s.log|, v.eof)
                else own[|own| - 1].Response? && !own[|own| - 1].ok && own[|own| - 1].tag == |s.log|)
  {
    var own, v := s.Answer(Fetch(stmt)), s.VerdictAt(|s.log|);
    assert own[0] == if v.rows != [] then FetchRow(|s.log|, v.rows[0]) else own[|own| - 1];
  }

  /**
   * When catching up fails, the operation's own messages stay behind the deferred responses still unread: as
   * many as the client still counts only if they are a single plain response.
   */
  lemma LateFailure(owed: seq<Message>, own: seq<Message>)
    requires own != [] && AllPlain(owed) && !Clean(owed)
    ensures (owed + own)[FirstFailure(owed) + 1..] == owed[FirstFailure(owed) + 1..] + own
    ensures var left := (owed + own)[FirstFailure(owed) + 1..];
            |left| == |owed| - FirstFailure(owed) && AllPlain(left) <==> AllPlain(own) && |own| == 1
  {
    var left := owed[FirstFailure(owed) + 1..];
    if AllPlain(left + own) {
      forall i | 0 <= i < |own| ensures own[i].Response? {
        assert own[i] == (left + own)[|left| + i];
      }
    }
  }

  /** A prepare succeeds exactly when its response does, with the description the response carries. */
  ghost predicate Describes(r: Result<Bytes, Fault>, m: Message) {
    if Good(m) then r == Ok(m.data) else r.Err? && Err(r.error) == Reading(m)
  }

  lemma CleanAppend(a: seq<Message>, b: seq<Message>)
    requires Clean(a) && forall i :: 0 <= i < |b| ==> Good(b[i])
    ensures Clean(a + b)
  {
    FirstFailureIs(a + b, |a + b|);
  }

  /** The same server, some requests later. */
  ghost predicate Grown(before: Server, after: Server) {
    && after.script == before.script && after.dependable == before.dependable && after.lazy == before.lazy
    && before.log <= after.log
  }

  lemma {:induction false} AfterAllGrows(s: Server, reqs: seq<Request>)
    ensures Grown(s, s.AfterAll(reqs)) && s.AfterAll(reqs).log == s.log + reqs
    decreases |reqs|
  {
    if reqs != [] {
      AfterAllGrows(s.After(reqs[0]), reqs[1..]);
      assert s.log + [reqs[0]] + reqs[1..] == s.log + reqs;
    }
  }

  /** The drops that empty a pool. */
  function Drops(pool: seq<int>): (reqs: seq<Request>)
    ensures |reqs| == |pool| && forall i :: 0 <= i < |reqs| ==> reqs[i] == Free(pool[|pool| - 1 - i], true)
  {
    if pool == [] then [] else [Free(pool[|pool| - 1], true)] + Drops(pool[..|pool| - 1])
  }

  /** Part of a pool has been dropped: with the rest, it comes to what dropping all of it does. */
  ghost predicate Drained(first: Server, received: seq<Message>, pool: seq<int>,
                          s: Server, inbox: seq<Message>, rest: seq<int>, lazy: bool)
  {
    && first.AfterAll(Drops(pool)) == s.AfterAll(Drops(rest))
    && (lazy ==> received + first.AnswerAll(Drops(pool)) == inbox + s.AnswerAll(Drops(rest)))
  }

  lemma StillDraining(first: Server, received: seq<Message>, pool: seq<int>)
    ensures forall lazy :: Drained(first, received, pool, first, received, pool, lazy)
  {
  }

  lemma DrainsLatest(first: Server, received: seq<Message>, pool: seq<int>,
                     s: Server, heard: seq<Message>, rest: seq<int>, inbox: seq<Message>, lazy: bool)
    requires rest != [] && Drained(first, received, pool, s, heard, rest, lazy)
    requires lazy ==> inbox == heard + s.Answer(Free(rest[|rest| - 1], true))
    ensures Drained(first, received, pool, s.After(Free(rest[|rest| - 1], true)), inbox, rest[..|rest| - 1], lazy)
  {
    var drop := Free(rest[|rest| - 1], true);
    assert Drops(rest)[1..] == Drops(rest[..|rest| - 1]);
    assert heard + s.AnswerAll(Drops(rest)) == heard + s.Answer(drop) + s.After(drop).AnswerAll(Drops(rest)[1..]);
  }

  lemma AllDrained(first: Server, received: seq<Message>, pool: seq<int>, s: Server, inbox: seq<Message>, lazy: bool)
    requires Drained(first, received, pool, s, inbox, [], lazy)
    ensures s == first.AfterAll(Drops(pool)) && (lazy ==> inbox == received + first.AnswerAll(Drops(pool)))
  {
  }

  /** Whether a recycle that waits for its answers gets only good ones. */
  predicate Released(s: Server, stmt: int, hasCursor: bool, full: bool) {
    var close, drop := Free(stmt, false), Free(stmt, true);
    && (hasCursor ==> s.Accepts(close))
    && (full ==> (if hasCursor then s.After(close) else s).Accepts(drop))
  }

  /** The frees a handle given up costs: its cursor, and the handle itself when the pool is full. */
  function Releases(stmt: int, hasCursor: bool, full: bool): seq<Request> {
    (if hasCursor then [Free(stmt, false)] else []) + if full then [Free(stmt, true)] else []
  }

  lemma ReleaseEach(s: Server, stmt: int)
    ensures s.AfterAll([]) == s && s.AnswerAll([]) == []
    ensures forall hasCursor :: Releases(stmt, hasCursor, false) == if hasCursor then [Free(stmt, false)] else []
    ensures Releases(stmt, false, true) == [Free(stmt, true)]
    ensures s.AfterAll([Free(stmt, true)]) == s.After(Free(stmt, true))
    ensures s.AnswerAll([Free(stmt, true)]) == s.Answer(Free(stmt, true))
    ensures s.AfterAll([Free(stmt, false)]) == s.After(Free(stmt, false))
    ensures s.AnswerAll([Free(stmt, false)]) == s.Answer(Free(stmt, false))
    ensures s.AfterAll(Releases(stmt, true, true)) == s.After(Free(stmt, false)).After(Free(stmt, true))
    ensures s.AnswerAll(Releases(stmt, true, true))
         == s.Answer(Free(stmt, false)) + s.After(Free(stmt, false)).Answer(Free(stmt, true))
  {
    var close, drop := Free(stmt, false), Free(stmt, true);
    OneRequest(s, close);
    OneRequest(s, drop);
    OneRequest(s.After(close), drop);
    assert Releases(stmt, true, true) == [close, drop] && [close, drop][1..] == [drop];
  }

  /** The operation succeeds exactly when all its own responses do, and fails with the first that does not. */
  ghost predicate Settles<T>(r: Result<T, Fault>, own: seq<Message>) {
    if Clean(own) then r.Ok? else r.Err? && Err(r.error) == Reading(own[FirstFailure(own)])
  }

  /** The operation fails, with the error of an earlier request whose response was still owed. */
  ghost predicate Misled<T>(r: Result<T, Fault>, owed: seq<Message>) {
    !Clean(owed) && r.Err? && Err(r.error) == Reading(owed[FirstFailure(owed)])
  }

  lemma OneRequest(s: Server, req: Request)
    ensures s.AfterAll([req]) == s.After(req) && s.AnswerAll([req]) == s.Answer(req)
  {
    assert [req][1..] == [];
    assert s.Answer(req) + [] == s.Answer(req);
  }

  lemma TwoRequests(s: Server, a: Request, b: Request)
    requires s.Valid() && a.Plain() && b.Plain()
    ensures s.AnswerAll([a, b]) == [s.Answer(a)[0], s.After(a).Answer(b)[0]]
    ensures s.AfterAll([a, b]) == s.After(a).After(b) && s.AfterAll([a, b]).Valid()
  {
    assert [a, b][1..] == [b];
    OneRequest(s.After(a), b);
    AfterValid(s, a);
    AfterValid(s.After(a), b);
  }

  /** Reading two responses for two requests, whatever was owed before. */
  lemma TwoReads(owed: seq<Message>, own: seq<Message>)
    requires |own| == 2
    ensures |Unread(owed, own, 1)| > 0 && Unread(owed, own, 1)[1..] == Unread(owed, own, 2)
    ensures FirstFailure(owed) <= |owed| && (owed == [] ==> Clean(owed))
    ensures var first, second := Taken(owed, own), Reading(Unread(owed, own, 1)[0]);
            var r := if first.Err? then Err(first.error) else if second.Err? then Err(second.error) else Ok(());
            && (Clean(owed) ==> Unread(owed, own, 2) == [] && Settles(r, own))
            && (!Clean(owed) ==> Misled(r, owed))
  {
    UnreadNext(owed, own, 1);
    assert own[1..] == [own[1]];
  }

  lemma UnreadNext(owed: seq<Message>, own: seq<Message>, count: nat)
    requires 0 < count < |own|
    ensures Unread(owed, own, count) != []
    ensures Unread(owed, own, count)[1..] == Unread(owed, own, count + 1)
    ensures Clean(owed) ==> Unread(owed, own, count)[0] == own[count]
  {
  }
}
