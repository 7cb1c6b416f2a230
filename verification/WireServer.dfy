/** The other end of the wire: an honest server that answers every request, in order, as it likes. */
module WireServer {
  import opened Common

  const SEGMENT_EOF := 2
  const INVALID_OBJECT := 0xFFFF

  datatype Request =
    | Transaction
    | Commit(tx: int)
    | Rollback(tx: int)
    | CommitRetaining(tx: int)
    | InfoDatabase
    | InfoTransaction(tx: int)
    | InfoSQL(stmt: int)
    | Allocate
    | Prepare(tx: int, stmt: int)
    | Execute(stmt: int, tx: int)
    | Execute2(stmt: int, tx: int)
    | Fetch(stmt: int)
    | Free(stmt: int, drop: bool)
    | CreateBlob(tx: int)
    | OpenBlob(tx: int, id: int)
    | GetSegment(blob: int)
    | PutSegment(blob: int, segment: Bytes)
    | CloseBlob(blob: int)
    | CancelBlob(blob: int)
    | Detach
  {
    /** Answered by exactly one generic response. */
    predicate Plain() { !Execute2? && !Fetch? }
  }

  /** Every answer carries, for the proofs, the number of the request it answers. */
  datatype Message =
    | Response(tag: nat, ok: bool, handle: int, blobId: int, data: Bytes)
    | SqlResponse(tag: nat, row: Option<Bytes>)
    | FetchRow(tag: nat, cells: Bytes)
    | FetchEnd(tag: nat, eof: bool)

  /** What the server makes of one request. */
  datatype Verdict = Verdict(ok: bool, handle: int, blobId: int, data: Bytes,
                             sql: Option<Option<Bytes>>, rows: seq<Bytes>, eof: bool)

  const REFUSAL := Verdict(false, 0, 0, [], None, [], false)

  /**
   * `script` decides the fate of each request by its number; beyond its end everything is refused. A dependable
   * server never refuses an allocate, nor a free whose answer is read late.
   */
  datatype Server = Server(script: seq<Verdict>, dependable: bool, lazy: bool,
                           log: seq<Request>, held: set<int>, top: int)
  {
    ghost predicate Valid() { forall h :: h in held ==> h < top }

    function VerdictAt(n: nat): Verdict { if n < |script| then script[n] else REFUSAL }

    function Accepts(req: Request): bool {
      VerdictAt(|log|).ok || (dependable && (req.Allocate? || (req.Free? && lazy)))
    }

    /** A handle no statement has. */
    function NewHandle(): int {
      var h := VerdictAt(|log|).handle;
      if h in held then top else h
    }

    function Answer(req: Request): seq<Message> {
      var n, v := |log|, VerdictAt(|log|);
      var response := Response(n, Accepts(req), if req.Allocate? then NewHandle() else v.handle, v.blobId, v.data);
      if req.Execute2? && v.sql.Some? then [SqlResponse(n, v.sql.value), response]
      else if req.Fetch? then FetchRows(n, v.rows) + [if v.ok then FetchEnd(n, v.eof) else response]
      else [response]
    }

    function After(req: Request): Server {
      var s := this.(log := log + [req]);
      if req.Allocate? && Accepts(req) then
        s.(held := held + {NewHandle()}, top := if top <= NewHandle() then NewHandle() + 1 else top)
      else if req.Free? && req.drop && Accepts(req) then s.(held := held - {req.stmt})
      else s
    }

    function AfterAll(reqs: seq<Request>): Server
      decreases |reqs|
    {
      if reqs == [] then this else After(reqs[0]).AfterAll(reqs[1..])
    }

    function AnswerAll(reqs: seq<Request>): seq<Message>
      decreases |reqs|
    {
      if reqs == [] then [] else Answer(reqs[0]) + After(reqs[0]).AnswerAll(reqs[1..])
    }
  }

  function FetchRows(tag: nat, rows: seq<Bytes>): (ms: seq<Message>)
    ensures |ms| == |rows|
    ensures forall i :: 0 <= i < |ms| ==> ms[i] == FetchRow(tag, rows[i])
  {
    seq(|rows|, i requires 0 <= i < |rows| => FetchRow(tag, rows[i]))
  }

  /** The server stays valid and only hands out handles that were free. */
  lemma AfterValid(s: Server, req: Request)
    requires s.Valid()
    ensures s.After(req).Valid() && s.NewHandle() !in s.held
  {
  }
}
