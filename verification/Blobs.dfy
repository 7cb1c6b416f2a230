/** Reading and writing whole blobs, in one flush or one request at a time. */
module Blobs {
  import opened Common
  import opened WireServer
  import opened WireSession

  const MAX_SEGMENT := 32768

  // ---------------------------------------------------------------------------
  // Packed segments
  // ---------------------------------------------------------------------------

  /** Each segment preceded by its length; a segment cut short ends the list. */
  function Unpack(packed: Bytes): Bytes {
    if |packed| < 2 || |packed| < 2 + LE16(packed[0], packed[1]) then []
    else
      var length := LE16(packed[0], packed[1]);
      packed[2..2 + length] + Unpack(packed[2 + length..])
  }

  function Pack(segments: seq<Bytes>): Bytes
    requires forall i :: 0 <= i < |segments| ==> |segments[i]| < 65536
  {
    if segments == [] then []
    else [|segments[0]| % 256, |segments[0]| / 256] + segments[0] + Pack(segments[1..])
  }

  predicate CutShort(tail: Bytes) { |tail| < 2 || |tail| < 2 + LE16(tail[0], tail[1]) }

  /** Unpacking inverts packing, and ignores a segment that was cut short. */
  lemma {:induction false} UnpackPacked(segments: seq<Bytes>, tail: Bytes)
    requires forall i :: 0 <= i < |segments| ==> |segments[i]| < 65536
    requires CutShort(tail)
    ensures Unpack(Pack(segments) + tail) == Flatten(segments)
  {
    if segments == [] {
      assert Pack(segments) + tail == tail;
    } else {
      UnpackPacked(segments[1..], tail);
      UnpackOne(segments[0], Pack(segments[1..]) + tail);
      assert Pack(segments) + tail
          == [|segments[0]| % 256, |segments[0]| / 256] + segments[0] + (Pack(segments[1..]) + tail);
    }
  }

  lemma UnpackOne(s: Bytes, rest: Bytes)
    requires |s| < 65536
    ensures Unpack([|s| % 256, |s| / 256] + s + rest) == s + Unpack(rest)
  {
    var packed := [|s| % 256, |s| / 256] + s + rest;
    LE16RoundTrip(|s|);
    assert packed[2..2 + |s|] == s && packed[2 + |s|..] == rest;
  }

  lemma Regroup(a: Bytes, b: Bytes, c: Bytes)
    ensures a + b + c == a + (b + c)
  {
  }

  /** One step of unpacking, and what stops it. */
  lemma UnpackAt(packed: Bytes, off: nat)
    requires off + 2 <= |packed|
    ensures var next := off + 2 + LE16(packed[off], packed[off + 1]);
            if |packed| < next then Unpack(packed[off..]) == []
            else Unpack(packed[off..]) == packed[off + 2..next] + Unpack(packed[next..])
  {
    var rest := packed[off..];
    var length := LE16(packed[off], packed[off + 1]);
    assert rest[0] == packed[off] && rest[1] == packed[off + 1];
    if off + 2 + length <= |packed| {
      assert rest[2..2 + length] == packed[off + 2..off + 2 + length];
      assert rest[2 + length..] == packed[off + 2 + length..];
    }
  }

  method UnpackSegments(dst: Bytes, packed: Bytes) returns (r: Bytes)
    ensures r == dst + Unpack(packed)
  {
    hide LE16;
    r := dst;
    var off := 0;
    assert packed[0..] == packed;
    while off + 2 <= |packed|
      invariant 0 <= off <= |packed| && r + Unpack(packed[off..]) == dst + Unpack(packed)
      decreases |packed| - off
    {
      UnpackAt(packed, off);
      var segLen := LE16(packed[off], packed[off + 1]);
      off := off + 2;
      if off + segLen > |packed| {
        break;
      }
      Regroup(r, packed[off..off + segLen], Unpack(packed[off + segLen..]));
      r := r + packed[off..off + segLen];
      off := off + segLen;
    }
  }

  // ---------------------------------------------------------------------------
  // Reading
  // ---------------------------------------------------------------------------

  /** Segments from request `n` on, up to the answer that says the blob is at its end, and then the close. */
  function ReadFrom(s: Server, n: nat, content: Bytes): Result<Bytes, Fault>
    decreases |s.script| - n
  {
    var v := s.VerdictAt(n);
    if !v.ok then Err(Status(n))
    else if v.handle == SEGMENT_EOF then
      if s.VerdictAt(n + 1).ok then Ok(content + Unpack(v.data)) else Err(Status(n + 1))
    else ReadFrom(s, n + 1, content + Unpack(v.data))
  }

  /** How many get-segment requests that takes. */
  function Gets(s: Server, n: nat): (count: nat)
    ensures 1 <= count
    decreases |s.script| - n
  {
    var v := s.VerdictAt(n);
    if !v.ok || v.handle == SEGMENT_EOF then 1 else 1 + Gets(s, n + 1)
  }

  lemma {:induction false} GetsScript(s: Server, t: Server, n: nat)
    requires s.script == t.script
    ensures Gets(s, n) == Gets(t, n)
    decreases |s.script| - n
  {
    var v := s.VerdictAt(n);
    if v.ok && v.handle != SEGMENT_EOF {
      GetsScript(s, t, n + 1);
    }
  }

  lemma {:induction false} ReadFromScript(s: Server, t: Server, n: nat, content: Bytes)
    requires s.script == t.script
    ensures ReadFrom(s, n, content) == ReadFrom(t, n, content)
    decreases |s.script| - n
  {
    var v := s.VerdictAt(n);
    if v.ok && v.handle != SEGMENT_EOF {
      ReadFromScript(s, t, n + 1, content + Unpack(v.data));
    }
  }

  /** What reading a blob returns, in terms of the server alone: nothing here depends on pipelining. */
  function BlobContent(s: Server): Result<Bytes, Fault> {
    var n := |s.log|;
    if s.VerdictAt(n).ok then ReadFrom(s, n + 1, []) else Err(Status(n))
  }

  /** Request `n` is answered with these segments, marked or not as the end of the blob; the mark is a handle of 2. */
  ghost predicate SendsBatch(s: Server, n: nat, batch: seq<Bytes>, last: bool) {
    && (forall j :: 0 <= j < |batch| ==> |batch[j]| < 65536)
    && s.VerdictAt(n).ok && s.VerdictAt(n).data == Pack(batch)
    && (s.VerdictAt(n).handle == 2 <==> last)
  }

  /** The server answers the requests from `n` on with these batches, the last marked as the end. */
  ghost predicate Sends(s: Server, n: nat, batches: seq<seq<Bytes>>)
    decreases |batches|
  {
    && batches != [] && SendsBatch(s, n, batches[0], |batches| == 1)
    && (|batches| > 1 ==> Sends(s, n + 1, batches[1..]))
  }

  /** However the server batches a blob's segments, reading gives their concatenation if the close is accepted. */
  lemma {:induction false} ReadsEverySegment(s: Server, n: nat, batches: seq<seq<Bytes>>, content: Bytes)
    requires Sends(s, n, batches)
    ensures ReadFrom(s, n, content)
         == if s.VerdictAt(n + |batches|).ok then Ok(content + Flatten(Flatten(batches)))
            else Err(Status(n + |batches|))
    ensures Gets(s, n) == |batches|
    decreases |batches|
  {
    var first := batches[0];
    var rest := Flatten(batches[1..]);
    UnpackPacked(first, []);
    assert Pack(first) + [] == Pack(first);
    FlattenAppend(first, rest);
    Regroup(content, Flatten(first), Flatten(rest));
    if |batches| == 1 {
      assert rest == [] && Flatten(first) + [] == Flatten(first);
    } else {
      ReadsEverySegment(s, n + 1, batches[1..], content + Flatten(first));
    }
  }

  /** The server opens the blob, and then sends it in these batches. */
  ghost predicate SendsBlob(s: Server, batches: seq<seq<Bytes>>) {
    s.VerdictAt(|s.log|).ok && Sends(s, |s.log| + 1, batches)
  }

  /** Reading a blob that is sent gives its segments; the open, a segment or the close refused gives that error. */
  lemma BlobReadsBack(s: Server)
    ensures forall batches: seq<seq<Bytes>> | SendsBlob(s, batches) ::
      var close := |s.log| + 1 + |batches|;
      BlobContent(s) == if s.VerdictAt(close).ok then Ok(Flatten(Flatten(batches))) else Err(Status(close))
    ensures !s.VerdictAt(|s.log|).ok ==> BlobContent(s) == Err(Status(|s.log|))
  {
    forall batches: seq<seq<Bytes>> | SendsBlob(s, batches)
      ensures var close := |s.log| + 1 + |batches|;
              BlobContent(s) == if s.VerdictAt(close).ok then Ok(Flatten(Flatten(batches))) else Err(Status(close))
    {
      ReadsEverySegment(s, |s.log| + 1, batches, []);
      assert [] + Flatten(Flatten(batches)) == Flatten(Flatten(batches));
    }
  }

  /** A request that neither allocates nor frees is answered as the script says. */
  predicate Scripted(req: Request) { req.Plain() && !req.Allocate? && !req.Free? }

  lemma NothingOwed()
    ensures Clean([]) && FirstFailure([]) == 0
    ensures forall own: seq<Message> :: own != [] ==> Unread([], own, 1) == own[1..] && Taken([], own) == Reading(own[0])
  {
  }

  /** One request with nothing owed. */
  method Ask(wc: WireConnection, req: Request) returns (r: Result<Message, Fault>)
    requires wc.InSync() && wc.inbox == [] && Scripted(req)
    modifies wc`outbox, wc`server, wc`inbox, wc`deferredCount
    ensures wc.InSync() && wc.inbox == []
    ensures wc.server == old(wc.server).(log := old(wc.server.log) + [req])
    ensures var n, v := |old(wc.server.log)|, old(wc.server).VerdictAt(|old(wc.server.log)|);
            r == if v.ok then Ok(Response(n, true, v.handle, v.blobId, v.data)) else Err(Status(n))
  {
    NothingOwed();
    r := wc.Call(req);
  }

  /** A stretch of requests that moved no handle, and the error it may have ended with. */
  ghost predicate Talked<T>(before: Server, after: Server, r: Result<T, Fault>) {
    && before.log <= after.log && after == before.(log := after.log)
    && (r.Err? ==> r.error.Status? && |before.log| <= r.error.request < |after.log|)
  }

  function GetsOf(blob: int, count: nat): (reqs: seq<Request>)
    ensures |reqs| == count && forall i :: 0 <= i < count ==> reqs[i] == GetSegment(blob)
  {
    Repeat(GetSegment(blob), count)
  }

  lemma GetsMore(log: seq<Request>, blob: int, k: nat)
    ensures log + GetsOf(blob, k) + [GetSegment(blob)] == log + GetsOf(blob, k + 1)
  {
  }

  /** Get-segment requests until the end of the blob, then a close. */
  method ReadToEnd(wc: WireConnection, blob: int, content: Bytes) returns (r: Result<Bytes, Fault>)
    requires wc.InSync() && wc.inbox == []
    modifies wc`outbox, wc`server, wc`inbox, wc`deferredCount
    ensures wc.InSync() && wc.inbox == []
    ensures r == ReadFrom(old(wc.server), |old(wc.server.log)|, content)
    ensures Talked(old(wc.server), wc.server, r)
    ensures wc.server.log == old(wc.server.log) + GetsOf(blob, Gets(old(wc.server), |old(wc.server.log)|))
                             + [CloseBlob(blob)]
  {
    ghost var s := wc.server;
    var result := content;
    ghost var k := 0;
    while true
      invariant wc.InSync() && wc.inbox == [] && wc.server == s.(log := s.log + GetsOf(blob, k))
      invariant ReadFrom(s, |wc.server.log|, result) == ReadFrom(s, |s.log|, content)
      invariant k + Gets(s, |wc.server.log|) == Gets(s, |s.log|)
      decreases |s.script| - |wc.server.log|
    {
      var resp := Ask(wc, GetSegment(blob));
      GetsMore(s.log, blob, k);
      k := k + 1;
      if resp.Err? {
        var _ := Ask(wc, CloseBlob(blob));
        return Err(resp.error);
      }
      result := UnpackSegments(result, resp.value.data);
      if resp.value.handle == SEGMENT_EOF {
        break;
      }
    }
    var resp := Ask(wc, CloseBlob(blob));
    r := if resp.Err? then Err(resp.error) else Ok(result);
  }

  method ReadBlobDataSequential(wc: WireConnection, tx: int, id: int) returns (r: Result<Bytes, Fault>)
    requires wc.InSync() && wc.inbox == []
    modifies wc`outbox, wc`server, wc`inbox, wc`deferredCount
    ensures wc.InSync() && wc.inbox == [] && r == BlobContent(old(wc.server))
    ensures Talked(old(wc.server), wc.server, r)
    ensures var s, n := old(wc.server), |old(wc.server.log)|;
            wc.server.log == s.log + [OpenBlob(tx, id)]
                             + if s.VerdictAt(n).ok then GetsOf(s.VerdictAt(n).handle, Gets(s, n + 1))
                                                         + [CloseBlob(s.VerdictAt(n).handle)]
                               else []
  {
    var open := Ask(wc, OpenBlob(tx, id));
    if open.Err? {
      return Err(open.error);
    }
    ReadFromScript(old(wc.server), wc.server, |wc.server.log|, []);
    GetsScript(old(wc.server), wc.server, |wc.server.log|);
    r := ReadToEnd(wc, open.value.handle, []);
  }

  /** Goes on from the answer to the first get-segment, the latest request sent. */
  method ContinueRead(wc: WireConnection, blob: int, getResp: Result<Message, Fault>) returns (r: Result<Bytes, Fault>)
    requires wc.InSync() && wc.inbox == [] && wc.server.log != []
    requires var n := |wc.server.log| - 1;
             var v := wc.server.VerdictAt(n);
             getResp == Reading(Response(n, v.ok, v.handle, v.blobId, v.data))
    modifies wc`outbox, wc`server, wc`inbox, wc`deferredCount
    ensures wc.InSync() && wc.inbox == [] && r == ReadFrom(old(wc.server), |old(wc.server.log)| - 1, [])
    ensures Talked<()>(old(wc.server), wc.server, Ok(()))
    ensures r.Err? ==> r.error.Status? && |old(wc.server.log)| - 1 <= r.error.request < |wc.server.log|
    ensures wc.server.log == old(wc.server.log) + GetsOf(blob, Gets(old(wc.server), |old(wc.server.log)| - 1) - 1)
                             + [CloseBlob(blob)]
  {
    NothingOwed();
    assert wc.server.log + GetsOf(blob, 0) == wc.server.log;
    if getResp.Err? {
      var _ := Ask(wc, CloseBlob(blob));
      return Err(getResp.error);
    }
    var result := UnpackSegments([], getResp.value.data);
    if getResp.value.handle == SEGMENT_EOF {
      var close := Ask(wc, CloseBlob(blob));
      return if close.Err? then Err(close.error) else Ok(result);
    }
    r := ReadToEnd(wc, blob, result);
  }

  /** Opens the blob and asks for its first segments in one flush. */
  method ReadBlobDataPipelined(wc: WireConnection, tx: int, id: int) returns (r: Result<Bytes, Fault>)
    requires wc.InSync()
    modifies wc`outbox, wc`server, wc`inbox, wc`deferredCount
    ensures wc.InSync()
    ensures Clean(old(wc.inbox)) ==> wc.inbox == [] && r == BlobContent(old(wc.server))
    ensures Talked<()>(old(wc.server), wc.server, Ok(()))
    ensures Clean(old(wc.inbox)) ==> Talked(old(wc.server), wc.server, r)
    ensures !Clean(old(wc.inbox)) ==> Misled(r, old(wc.inbox))
    ensures var s, n := old(wc.server), |old(wc.server.log)|;
            wc.server.log == s.log + [OpenBlob(tx, id), GetSegment(INVALID_OBJECT)]
                             + if Clean(old(wc.inbox)) && s.VerdictAt(n).ok then
                                 GetsOf(s.VerdictAt(n).handle, Gets(s, n + 1) - 1) + [CloseBlob(s.VerdictAt(n).handle)]
                               else []
  {
    hide Unread, Clean, FirstFailure, Settles, Misled;
    var open, get := OpenBlob(tx, id), GetSegment(INVALID_OBJECT);
    ghost var own := wc.server.AnswerAll([open, get]);
    TwoRequests(wc.server, open, get);
    UnreadCount(wc.inbox, own);
    wc.SendBoth(open, get);
    var openResp := wc.ReadResponse();
    TwoReads(old(wc.inbox), own);
    SecondRead(old(wc.inbox), own);
    if openResp.Err? {
      var _ := wc.ReadNext();
      return Err(openResp.error);
    }
    var getResp := wc.ReadNext();
    ReadFromScript(old(wc.server), wc.server, |old(wc.server.log)| + 1, []);
    GetsScript(old(wc.server), wc.server, |old(wc.server.log)| + 1);
    r := ContinueRead(wc, openResp.value.handle, getResp);
  }

  /** After one successful read the responses owed are out of the way. */
  lemma SecondRead(owed: seq<Message>, own: seq<Message>)
    requires |own| == 2
    ensures Taken(owed, own).Ok? ==> Clean(owed)
    ensures Clean(owed) ==> Taken(owed, own) == Reading(own[0]) && Unread(owed, own, 1) == own[1..]
    ensures !Clean(owed) ==> Misled<Bytes>(if Taken(owed, own).Err? then Err(Taken(owed, own).error) else Ok([]), owed)
  {
  }

  /**
   * The requests reading a blob makes: an open, get-segments until the end or a refusal, and a close of the handle
   * the open brought back. With lazy send the first get-segment goes out with the open, before the handle is known.
   */
  function ReadRequests(s: Server, tx: int, id: int): seq<Request> {
    var n := |s.log|;
    var v := s.VerdictAt(n);
    (if s.lazy then [OpenBlob(tx, id), GetSegment(INVALID_OBJECT)] else [OpenBlob(tx, id)])
    + if v.ok then
        GetsOf(v.handle, Gets(s, n + 1) - if s.lazy then 1 else 0) + [CloseBlob(v.handle)]
      else []
  }

  method ReadBlobData(wc: WireConnection, tx: int, id: int) returns (r: Result<Bytes, Fault>)
    requires wc.InSync()
    modifies wc`outbox, wc`server, wc`inbox, wc`deferredCount
    ensures wc.InSync()
    ensures Clean(old(wc.inbox)) ==> wc.inbox == [] && r == BlobContent(old(wc.server))
    ensures Talked<()>(old(wc.server), wc.server, Ok(()))
    ensures Clean(old(wc.inbox)) ==> Talked(old(wc.server), wc.server, r)
    ensures !Clean(old(wc.inbox)) ==> Misled(r, old(wc.inbox))
    ensures Clean(old(wc.inbox)) ==> forall batches: seq<seq<Bytes>> | SendsBlob(old(wc.server), batches) ::
      var close := |old(wc.server.log)| + 1 + |batches|;
      r == if old(wc.server).VerdictAt(close).ok then Ok(Flatten(Flatten(batches))) else Err(Status(close))
    ensures Clean(old(wc.inbox)) ==> wc.server.log == old(wc.server.log) + ReadRequests(old(wc.server), tx, id)
  {
    hide ReadFrom, Gets, SendsBlob;
    BlobReadsBack(wc.server);
    if wc.lazySend {
      r := ReadBlobDataPipelined(wc, tx, id);
    } else {
      r := ReadBlobDataSequential(wc, tx, id);
    }
  }

  // ---------------------------------------------------------------------------
  // Writing
  // ---------------------------------------------------------------------------

  /** The segments a blob is written in: full ones, then what is left. */
  function Segments(data: Bytes): seq<Bytes>
    decreases |data|
  {
    if data == [] then []
    else if |data| <= MAX_SEGMENT then [data]
    else [data[..MAX_SEGMENT]] + Segments(data[MAX_SEGMENT..])
  }

  /** Nothing is lost, repeated or empty, and no segment is over the limit. */
  lemma {:induction false} SegmentsConserve(data: Bytes)
    ensures Flatten(Segments(data)) == data
    ensures forall i :: 0 <= i < |Segments(data)| ==> 1 <= |Segments(data)[i]| <= 32768
    ensures forall i :: 0 <= i < |Segments(data)| - 1 ==> |Segments(data)[i]| == 32768
    decreases |data|
  {
    if data == [] {
    } else if |data| <= MAX_SEGMENT {
      assert [data][1..] == [];
      assert Flatten([data]) == data + [];
    } else {
      SegmentsConserve(data[MAX_SEGMENT..]);
      assert Segments(data)[1..] == Segments(data[MAX_SEGMENT..]);
      assert data[..MAX_SEGMENT] + data[MAX_SEGMENT..] == data;
    }
  }

  function FirstSegment(data: Bytes): Bytes {
    if |data| > MAX_SEGMENT then data[..MAX_SEGMENT] else data
  }

  lemma NextSegment(data: Bytes)
    requires data != []
    ensures var seg := FirstSegment(data);
            Segments(data) == [seg] + Segments(data[|seg|..]) && 0 < |seg|
  {
  }

  function Puts(blob: int, segments: seq<Bytes>): (reqs: seq<Request>)
    ensures |reqs| == |segments|
  {
    seq(|segments|, i requires 0 <= i < |segments| => PutSegment(blob, segments[i]))
  }

  /** The payload of every put-segment request, in order. */
  function Written(log: seq<Request>): seq<Bytes> {
    if log == [] then []
    else (if log[0].PutSegment? then [log[0].segment] else []) + Written(log[1..])
  }

  lemma {:induction false} WrittenAppend(a: seq<Request>, b: seq<Request>)
    ensures Written(a + b) == Written(a) + Written(b)
  {
    if a == [] {
      assert a + b == b;
    } else {
      assert (a + b)[1..] == a[1..] + b;
      WrittenAppend(a[1..], b);
    }
  }

  /** The first of `count` requests from `n` on that the server refuses; past them all if it accepts each. */
  function FirstRefused(s: Server, n: nat, count: nat): (r: nat)
    ensures n <= r <= n + count
    ensures forall i :: n <= i < r ==> s.VerdictAt(i).ok
    ensures r < n + count ==> !s.VerdictAt(r).ok
    decreases count
  {
    if count == 0 || !s.VerdictAt(n).ok then n else FirstRefused(s, n + 1, count - 1)
  }

  /** What writing a blob in `count` segments returns, in terms of the server alone. */
  function WriteOutcome(s: Server, count: nat): Result<int, Fault> {
    var n := |s.log|;
    var refused := FirstRefused(s, n, count + 2);
    if refused < n + count + 2 then Err(Status(refused)) else Ok(s.VerdictAt(n).blobId)
  }

  lemma {:induction false} AnswersScripted(s: Server, reqs: seq<Request>)
    requires forall i :: 0 <= i < |reqs| ==> Scripted(reqs[i])
    ensures s.AfterAll(reqs) == s.(log := s.log + reqs)
    ensures |s.AnswerAll(reqs)| == |reqs|
    ensures forall i :: 0 <= i < |reqs| ==>
              var v := s.VerdictAt(|s.log| + i);
              s.AnswerAll(reqs)[i] == Response(|s.log| + i, v.ok, v.handle, v.blobId, v.data)
    decreases |reqs|
  {
    if reqs == [] {
      assert s.log + reqs == s.log;
    } else {
      var t := s.After(reqs[0]);
      AnswersScripted(t, reqs[1..]);
      assert t.log + reqs[1..] == s.log + reqs;
    }
  }

  lemma {:induction false} RefusedNext(s: Server, n: nat, count: nat)
    ensures FirstRefused(s, n, count + 1)
         == if FirstRefused(s, n, count) == n + count && s.VerdictAt(n + count).ok then n + count + 1
            else FirstRefused(s, n, count)
    decreases count
  {
    if count > 0 && s.VerdictAt(n).ok {
      RefusedNext(s, n + 1, count - 1);
    }
  }

  function BlobRequests(tx: int, data: Bytes): seq<Request> {
    [CreateBlob(tx)] + Puts(INVALID_OBJECT, Segments(data)) + [CloseBlob(INVALID_OBJECT)]
  }

  /** Writes all requests of a pipelined blob, none of them sent yet. */
  method QueueBlob(wc: WireConnection, tx: int, data: Bytes) returns (segCount: nat)
    requires wc.outbox == []
    modifies wc`outbox
    ensures wc.outbox == BlobRequests(tx, data) && segCount == |Segments(data)|
  {
    hide Segments, Puts;
    wc.Write(CreateBlob(tx));
    segCount := 0;
    var remaining := data;
    ghost var done: seq<Bytes> := [];
    PutsGrow(INVALID_OBJECT, [], []);
    while |remaining| > 0
      invariant done + Segments(remaining) == Segments(data) && segCount == |done|
      invariant wc.outbox == [CreateBlob(tx)] + Puts(INVALID_OBJECT, done)
      decreases |remaining|
    {
      NextSegment(remaining);
      var seg := remaining;
      if |seg| > MAX_SEGMENT {
        seg := seg[..MAX_SEGMENT];
      }
      PutsGrow(INVALID_OBJECT, done, seg);
      wc.Write(PutSegment(INVALID_OBJECT, seg));
      done := done + [seg];
      segCount := segCount + 1;
      remaining := remaining[|seg|..];
    }
    NoSegments();
    assert done == Segments(data);
    wc.Write(CloseBlob(INVALID_OBJECT));
  }

  /** What has been heard after `count` of the pipeline's responses: the first error, if any. */
  ghost predicate Heard(fault: Option<Fault>, owed: seq<Message>, s: Server, count: nat) {
    if Clean(owed) then
      var n := |s.log|;
      var refused := FirstRefused(s, n, count);
      fault == if refused < n + count then Some(Status(refused)) else None
    else fault.Some? && Misled<()>(Err(fault.value), owed)
  }

  lemma HeardNext(fault: Option<Fault>, owed: seq<Message>, s: Server, own: seq<Message>, count: nat)
    requires Heard(fault, owed, s, count) && 0 < count < |own|
    requires Clean(owed) ==>
      var v := s.VerdictAt(|s.log| + count);
      own[count] == Response(|s.log| + count, v.ok, v.handle, v.blobId, v.data)
    ensures var next := Reading(Unread(owed, own, count)[0]);
            Heard(if fault.None? && next.Err? then Some(next.error) else fault, owed, s, count + 1)
  {
    UnreadNext(owed, own, count);
    RefusedNext(s, |s.log|, count);
  }

  lemma HeardFirst(owed: seq<Message>, s: Server, own: seq<Message>)
    requires own != []
    requires var v := s.VerdictAt(|s.log|);
             own[0] == Response(|s.log|, v.ok, v.handle, v.blobId, v.data)
    ensures var first := Taken(owed, own);
            && Heard(if first.Err? then Some(first.error) else None, owed, s, 1)
            && (first.Ok? ==> first.value.Response? && first.value.blobId == s.VerdictAt(|s.log|).blobId)
  {
    RefusedNext(s, |s.log|, 0);
  }

  /** Reads the responses of the whole pipeline, remembering the first error. */
  method DrainPipeline(wc: WireConnection, segCount: nat, ghost owed: seq<Message>, ghost own: seq<Message>, ghost s: Server)
    returns (r: Result<int, Fault>)
    requires wc.outbox == [] && wc.server.Valid() && wc.server.lazy == wc.lazySend && wc.lazySend
    requires wc.deferredCount == |owed| && wc.inbox == owed + own && |own| == segCount + 2
    requires AllPlain(owed) && AllPlain(own)
    requires forall i :: 0 <= i < |own| ==>
      var v := s.VerdictAt(|s.log| + i);
      own[i] == Response(|s.log| + i, v.ok, v.handle, v.blobId, v.data)
    modifies wc`inbox, wc`deferredCount
    ensures wc.InSync()
    ensures Clean(owed) ==> wc.inbox == [] && r == WriteOutcome(s, segCount)
    ensures !Clean(owed) ==> Misled(r, owed)
  {
    hide Unread, Heard, Clean, FirstFailure, Taken, Misled;
    assert wc.inbox[..wc.deferredCount] == owed && wc.inbox[wc.deferredCount..] == own;
    assert own[0].tag == |s.log| + 0;
    HeardFirst(owed, s, own);
    var createResp := wc.ReadResponse();
    var fault := if createResp.Err? then Some(createResp.error) else None;
    for i := 0 to segCount
      invariant wc.inbox == Unread(owed, own, 1 + i) && Heard(fault, owed, s, 1 + i)
      invariant fault.None? ==> createResp.Ok?
      invariant wc.deferredCount == |owed| - FirstFailure(owed)
    {
      HeardNext(fault, owed, s, own, 1 + i);
      UnreadNext(owed, own, 1 + i);
      var put := wc.ReadNext();
      if put.Err? && fault.None? {
        fault := Some(put.error);
      }
    }
    HeardNext(fault, owed, s, own, 1 + segCount);
    UnreadNext(owed, own, 1 + segCount);
    var close := wc.ReadNext();
    UnreadCount(owed, own);
    ghost var heard := if close.Err? && fault.None? then Some(close.error) else fault;
    HeardAll(heard, owed, s, segCount);
    UnreadAll(owed, own);
    if fault.Some? {
      return Err(fault.value);
    }
    if close.Err? {
      return Err(close.error);
    }
    r := Ok(createResp.value.blobId);
  }

  lemma HeardAll(fault: Option<Fault>, owed: seq<Message>, s: Server, segCount: nat)
    requires Heard(fault, owed, s, segCount + 2)
    ensures Clean(owed) ==>
      WriteOutcome(s, segCount) == if fault.Some? then Err(fault.value) else Ok(s.VerdictAt(|s.log|).blobId)
    ensures !Clean(owed) ==> fault.Some? && Misled<int>(Err(fault.value), owed)
  {
  }

  lemma UnreadAll(owed: seq<Message>, own: seq<Message>)
    requires own != []
    ensures Clean(owed) ==> Unread(owed, own, |own|) == []
  {
  }

  lemma WriteFaults(s: Server, segCount: nat)
    ensures var r := WriteOutcome(s, segCount);
            r.Err? ==> r.error.Status? && |s.log| <= r.error.request < |s.log| + segCount + 2
  {
  }

  method WriteBlobDataPipelined(wc: WireConnection, tx: int, data: Bytes) returns (r: Result<int, Fault>)
    requires wc.InSync() && wc.lazySend
    modifies wc`outbox, wc`server, wc`inbox, wc`deferredCount
    ensures wc.InSync() && wc.server == old(wc.server).(log := old(wc.server.log) + BlobRequests(tx, data))
    ensures Clean(old(wc.inbox)) ==> wc.inbox == [] && r == WriteOutcome(old(wc.server), |Segments(data)|)
    ensures !Clean(old(wc.inbox)) ==> Misled(r, old(wc.inbox))
  {
    hide Clean, Misled, FirstRefused, FirstFailure, Segments;
    var segCount := QueueBlob(wc, tx, data);
    ghost var requests := BlobRequests(tx, data);
    ghost var own := wc.server.AnswerAll(requests);
    AnswersScripted(wc.server, requests);
    wc.Flush();
    r := DrainPipeline(wc, segCount, old(wc.inbox), own, old(wc.server));
  }

  lemma RefusedAt(s: Server, n: nat, at: nat, count: nat)
    requires n <= at <= n + count
    requires forall i :: n <= i < at ==> s.VerdictAt(i).ok
    requires at < n + count ==> !s.VerdictAt(at).ok
    ensures FirstRefused(s, n, count) == at
  {
  }

  /** `done` segments of a blob have been put and accepted, in a server that began as `s`. */
  ghost predicate PutSoFar(s: Server, t: Server, blob: int, done: seq<Bytes>) {
    t == s.(log := s.log + Puts(blob, done)) && FirstRefused(s, |s.log|, |done|) == |s.log| + |done|
  }

  /** Puts one more segment; a refusal cancels the blob. */
  method PutOne(wc: WireConnection, blob: int, seg: Bytes, ghost s: Server, ghost done: seq<Bytes>)
    returns (fault: Option<Fault>)
    requires wc.InSync() && wc.inbox == [] && PutSoFar(s, wc.server, blob, done)
    modifies wc`outbox, wc`server, wc`inbox, wc`deferredCount
    ensures wc.InSync() && wc.inbox == []
    ensures fault.None? ==> PutSoFar(s, wc.server, blob, done + [seg])
    ensures fault.Some? ==>
      var at := |s.log| + |done|;
      && fault == Some(Status(at)) && FirstRefused(s, |s.log|, |done| + 1) == at && at < |wc.server.log|
      && wc.server == s.(log := s.log + Puts(blob, done + [seg]) + [CancelBlob(blob)])
  {
    hide FirstRefused, Puts;
    PutsGrow(blob, done, seg);
    RefusedNext(s, |s.log|, |done|);
    var put := Ask(wc, PutSegment(blob, seg));
    if put.Ok? {
      return None;
    }
    var _ := Ask(wc, CancelBlob(blob));
    fault := Some(put.error);
  }

  /** Puts every segment, stopping at the first refusal. */
  method PutSegments(wc: WireConnection, blob: int, data: Bytes) returns (fault: Option<Fault>)
    requires wc.InSync() && wc.inbox == []
    modifies wc`outbox, wc`server, wc`inbox, wc`deferredCount
    ensures wc.InSync() && wc.inbox == [] && Talked<()>(old(wc.server), wc.server, Ok(()))
    ensures var n, count := |old(wc.server.log)|, |Segments(data)|;
            var refused := FirstRefused(old(wc.server), n, count);
            && (refused < n + count ==>
                  && fault == Some(Status(refused)) && refused < |wc.server.log|
                  && wc.server.log == old(wc.server.log) + Puts(blob, Segments(data)[..refused - n + 1])
                                      + [CancelBlob(blob)])
            && (refused == n + count ==> fault == None
                                         && wc.server.log == old(wc.server.log) + Puts(blob, Segments(data)))
  {
    hide FirstRefused, Segments, PutSoFar;
    ghost var s, count := wc.server, |Segments(data)|;
    var remaining := data;
    ghost var done: seq<Bytes> := [];
    NothingPut(s, blob);
    while |remaining| > 0
      invariant wc.InSync() && wc.inbox == [] && PutSoFar(s, wc.server, blob, done)
      invariant done + Segments(remaining) == Segments(data)
      decreases |remaining|
    {
      NextSegment(remaining);
      var seg := remaining;
      if |seg| > MAX_SEGMENT {
        seg := seg[..MAX_SEGMENT];
      }
      fault := PutOne(wc, blob, seg, s, done);
      if fault.Some? {
        RefusedWithin(s, |s.log|, |done| + 1, count - |done| - 1);
        assert Segments(data)[..|done| + 1] == done + [seg];
        return;
      }
      done := done + [seg];
      remaining := remaining[|seg|..];
    }
    NoSegments();
    assert done == Segments(data);
    AllPut(s, wc.server, blob, done);
    fault := None;
  }

  lemma NothingPut(s: Server, blob: int)
    ensures PutSoFar(s, s, blob, [])
  {
    assert s.log + [] == s.log;
  }

  lemma AllPut(s: Server, t: Server, blob: int, done: seq<Bytes>)
    requires PutSoFar(s, t, blob, done)
    ensures t == s.(log := s.log + Puts(blob, done)) && FirstRefused(s, |s.log|, |done|) == |s.log| + |done|
  {
  }

  lemma PutsGrow(blob: int, done: seq<Bytes>, seg: Bytes)
    ensures Puts(blob, []) == [] && Puts(blob, done + [seg]) == Puts(blob, done) + [PutSegment(blob, seg)]
  {
  }

  lemma RefusedAfter(s: Server, n: nat, first: nat, count: nat)
    requires n < first <= n + count && forall i :: n <= i < first ==> s.VerdictAt(i).ok
    ensures FirstRefused(s, n, count) == FirstRefused(s, first, n + count - first)
  {
    RefusedAt(s, n, FirstRefused(s, first, n + count - first), count);
  }

  lemma {:induction false} RefusedWithin(s: Server, n: nat, count: nat, more: nat)
    ensures FirstRefused(s, n, count) < n + count ==> FirstRefused(s, n, count + more) == FirstRefused(s, n, count)
    ensures FirstRefused(s, n, count) == n + count ==>
      FirstRefused(s, n, count + more) == FirstRefused(s, n + count, more)
    decreases count
  {
    if count > 0 && s.VerdictAt(n).ok {
      RefusedWithin(s, n + 1, count - 1, more);
    }
  }

  /**
   * The requests writing a blob makes. With lazy send all of them go out together, before the blob has a handle;
   * otherwise they name the handle the create brought back, stop at a refused segment, and then cancel the blob.
   */
  function WriteRequests(s: Server, tx: int, data: Bytes): seq<Request> {
    var n, segments := |s.log|, Segments(data);
    var h, refused := s.VerdictAt(n).handle, FirstRefused(s, n + 1, |segments|);
    if s.lazy then [CreateBlob(tx)] + Puts(INVALID_OBJECT, segments) + [CloseBlob(INVALID_OBJECT)]
    else if !s.VerdictAt(n).ok then [CreateBlob(tx)]
    else if refused == n + 1 + |segments| then [CreateBlob(tx)] + Puts(h, segments) + [CloseBlob(h)]
    else [CreateBlob(tx)] + Puts(h, segments[..refused - n]) + [CancelBlob(h)]
  }

  lemma RequestsByStages(s: Server, tx: int, data: Bytes)
    requires !s.lazy
    ensures var n, segments, log := |s.log|, Segments(data), s.log + [CreateBlob(tx)];
            var h, refused := s.VerdictAt(n).handle, FirstRefused(s, n + 1, |segments|);
            s.log + WriteRequests(s, tx, data)
              == if !s.VerdictAt(n).ok then log
                 else if refused < n + 1 + |segments| then log + Puts(h, segments[..refused - n]) + [CancelBlob(h)]
                 else log + Puts(h, segments) + [CloseBlob(h)]
  {
    hide FirstRefused, Segments, Puts;
  }

  /** One request at a time; a refused segment cancels the blob. */
  method WriteBlobDataSequential(wc: WireConnection, tx: int, data: Bytes) returns (r: Result<int, Fault>)
    requires wc.InSync() && wc.inbox == []
    modifies wc`outbox, wc`server, wc`inbox, wc`deferredCount
    ensures wc.InSync() && wc.inbox == [] && r == WriteOutcome(old(wc.server), |Segments(data)|)
    ensures Talked(old(wc.server), wc.server, r)
    ensures !wc.lazySend ==> wc.server.log == old(wc.server.log) + WriteRequests(old(wc.server), tx, data)
  {
    hide FirstRefused, Segments, Puts, WriteOutcome, WriteRequests;
    ghost var s, count := wc.server, |Segments(data)|;
    if !s.lazy {
      RequestsByStages(s, tx, data);
    }
    var create := Ask(wc, CreateBlob(tx));
    OutcomeByStages(s, wc.server, count);
    if create.Err? {
      return Err(create.error);
    }
    var blob := create.value.handle;
    var fault := PutSegments(wc, blob, data);
    if fault.Some? {
      return Err(fault.value);
    }
    var close := Ask(wc, CloseBlob(blob));
    r := if close.Err? then Err(close.error) else Ok(create.value.blobId);
  }

  /** Refused at the create, at a segment, at the close, or nowhere. */
  lemma OutcomeByStages(s: Server, t: Server, count: nat)
    requires t.script == s.script && |t.log| == |s.log| + 1
    ensures var n := |s.log|;
            var refused := FirstRefused(t, n + 1, count);
            refused == FirstRefused(s, n + 1, count) && WriteOutcome(s, count)
              == if !s.VerdictAt(n).ok then Err(Status(n))
                 else if refused < n + 1 + count then Err(Status(refused))
                 else if !s.VerdictAt(n + 1 + count).ok then Err(Status(n + 1 + count))
                 else Ok(s.VerdictAt(n).blobId)
  {
    hide FirstRefused;
    var n := |s.log|;
    RefusedScript(s, t, n + 1, count);
    if !s.VerdictAt(n).ok {
      RefusedAt(s, n, n, count + 2);
    } else {
      RefusedAfter(s, n, n + 1, count + 2);
      RefusedWithin(s, n + 1, count, 1);
      RefusedAt(s, n + 1 + count, if s.VerdictAt(n + 1 + count).ok then n + count + 2 else n + count + 1, 1);
    }
  }

  lemma {:induction false} RefusedScript(s: Server, t: Server, n: nat, count: nat)
    requires s.script == t.script
    ensures FirstRefused(s, n, count) == FirstRefused(t, n, count)
  {
    assert forall i :: s.VerdictAt(i) == t.VerdictAt(i);
    RefusedAt(s, n, FirstRefused(t, n, count), count);
  }

  lemma NoSegments()
    ensures Segments([]) == []
  {
  }

  lemma {:induction false} WrittenPuts(blob: int, segments: seq<Bytes>)
    ensures Written(Puts(blob, segments)) == segments
  {
    var log := Puts(blob, segments);
    if segments == [] {
    } else {
      assert log[1..] == Puts(blob, segments[1..]);
      WrittenPuts(blob, segments[1..]);
    }
  }

  lemma WrittenRequests(tx: int, blob: int, segments: seq<Bytes>)
    ensures Written([CreateBlob(tx)] + Puts(blob, segments) + [CloseBlob(blob)]) == segments
  {
    var create, puts, close := [CreateBlob(tx)], Puts(blob, segments), [CloseBlob(blob)];
    WrittenPuts(blob, segments);
    WrittenAppend(create + puts, close);
    WrittenAppend(create, puts);
    assert create[1..] == [] && close[1..] == [];
  }

  /** Success means that every request was accepted; an error is that of the first one refused. */
  lemma OutcomeMeans(s: Server, segCount: nat)
    ensures var n, count, r := |s.log|, segCount + 2, WriteOutcome(s, segCount);
            if forall i :: n <= i < n + count ==> s.VerdictAt(i).ok then r == Ok(s.VerdictAt(n).blobId)
            else r.Err? && r.error.Status? && n <= r.error.request < n + count && !s.VerdictAt(r.error.request).ok
                 && forall i :: n <= i < r.error.request ==> s.VerdictAt(i).ok
  {
    hide FirstRefused;
  }

  /** Without lazy send a blob written with success has had all its segments put. */
  lemma WrittenWhole(s: Server, tx: int, data: Bytes)
    requires !s.lazy && WriteOutcome(s, |Segments(data)|).Ok?
    ensures var h := s.VerdictAt(|s.log|).handle;
            WriteRequests(s, tx, data) == [CreateBlob(tx)] + Puts(h, Segments(data)) + [CloseBlob(h)]
  {
    hide Segments, Puts;
    OutcomeMeans(s, |Segments(data)|);
    RefusedAt(s, |s.log| + 1, |s.log| + 1 + |Segments(data)|, |Segments(data)|);
  }

  /** Both ways of writing have the same outcome and, when it is success, hand over exactly the data. */
  method WriteBlobData(wc: WireConnection, tx: int, data: Bytes) returns (r: Result<int, Fault>)
    requires wc.InSync()
    modifies wc`outbox, wc`server, wc`inbox, wc`deferredCount
    ensures wc.InSync()
    ensures Clean(old(wc.inbox)) ==> wc.inbox == [] && r == WriteOutcome(old(wc.server), |Segments(data)|)
    ensures Talked<()>(old(wc.server), wc.server, Ok(()))
    ensures Clean(old(wc.inbox)) ==> Talked(old(wc.server), wc.server, r)
    ensures !Clean(old(wc.inbox)) ==> Misled(r, old(wc.inbox))
    ensures r.Ok? ==>
      && old(wc.server.log) <= wc.server.log
      && Flatten(Written(wc.server.log[|old(wc.server.log)|..])) == data
    ensures Clean(old(wc.inbox)) ==> wc.server.log == old(wc.server.log) + WriteRequests(old(wc.server), tx, data)
    ensures Clean(old(wc.inbox)) ==>
      var s, n, count := old(wc.server), |old(wc.server.log)|, |Segments(data)| + 2;
      if forall i :: n <= i < n + count ==> s.VerdictAt(i).ok then r == Ok(s.VerdictAt(n).blobId)
      else r.Err? && r.error.Status? && n <= r.error.request < n + count && !s.VerdictAt(r.error.request).ok
           && forall i :: n <= i < r.error.request ==> s.VerdictAt(i).ok
  {
    hide Clean, Misled, FirstRefused, Written, Segments, WriteOutcome;
    OutcomeMeans(wc.server, |Segments(data)|);
    ghost var before := wc.server.log;
    SegmentsConserve(data);
    if wc.lazySend {
      WriteFaults(wc.server, |Segments(data)|);
      r := WriteBlobDataPipelined(wc, tx, data);
      WrittenRequests(tx, INVALID_OBJECT, Segments(data));
      assert wc.server.log[|before|..] == BlobRequests(tx, data);
      return;
    }
    NothingOwed();
    r := WriteBlobDataSequential(wc, tx, data);
    if r.Ok? {
      ghost var blob := old(wc.server).VerdictAt(|before|).handle;
      WrittenRequests(tx, blob, Segments(data));
      WrittenWhole(old(wc.server), tx, data);
      assert wc.server.log[|before|..] == [CreateBlob(tx)] + Puts(blob, Segments(data)) + [CloseBlob(blob)];
    }
  }
}
