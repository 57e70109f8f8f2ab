/**
 * readBlobs (blob.ts): many blobs read with their opens, segment reads and
 * closes overlapped on one connection.
 */
module BlobPipeline {
  import opened Results
  import opened WireTypes
  import opened Framing
  import opened Server
  import opened Wire
  import opened BlobProtocol
  import opened BlobLanes

  const FLUSH_BATCH := 8

  function HandleOf(b: BlobState): Handle { if b.handle.Some? then b.handle.value else 0 }

  /** The wire request behind a pending descriptor. */
  function RequestOf(p: Pending, tx: Handle, ids: seq<BlobId>, n: nat, blobs: seq<BlobState>): Request
    requires p.idx < |ids| == |blobs|
  {
    match p
    case Opening(i) => OpenBlob(tx, ids[i])
    case Segment(i) => GetSegment(HandleOf(blobs[i]), n)
    case Closing(i) => CloseBlob(HandleOf(blobs[i]))
  }

  function Requests(q: seq<Pending>, tx: Handle, ids: seq<BlobId>, n: nat, blobs: seq<BlobState>): (qs: seq<Request>)
    requires |ids| == |blobs| && forall p | p in q :: p.idx < |ids|
    ensures |qs| == |q|
  {
    seq(|q|, i requires 0 <= i < |q| => assert q[i] in q; RequestOf(q[i], tx, ids, n, blobs))
  }

  lemma RequestsPush(q: seq<Pending>, p: Pending, tx: Handle, ids: seq<BlobId>, n: nat, blobs: seq<BlobState>)
    requires |ids| == |blobs| && p.idx < |ids| && forall p | p in q :: p.idx < |ids|
    ensures Requests(q + [p], tx, ids, n, blobs) == Requests(q, tx, ids, n, blobs) + [RequestOf(p, tx, ids, n, blobs)]
  {
  }

  /** A handle once known does not change, and no request names it before. */
  lemma RequestsSame(q: seq<Pending>, tx: Handle, ids: seq<BlobId>, n: nat, blobs: seq<BlobState>,
        blobs': seq<BlobState>)
    requires |ids| == |blobs| == |blobs'| && forall p | p in q :: p.idx < |ids|
    requires forall p | p in q :: p.Opening? || blobs'[p.idx].handle == blobs[p.idx].handle
    ensures Requests(q, tx, ids, n, blobs') == Requests(q, tx, ids, n, blobs)
  {
    assert forall i | 0 <= i < |q| :: q[i] in q;
  }

  /** Before a blob is open, the only request it ever had is the open. */
  lemma OnlyOpening(k: Book, n: nat, asked: seq<Pending>, p: Pending)
    requires ScriptsOk(k, n, asked) && p in asked && k.blobs[p.idx].handle.None?
    ensures p.Opening?
  {
    InLane(asked, p);
    assert ScriptOk(k.blobs[p.idx], p.idx, p.idx < k.nextToOpen, Lane(asked, p.idx));
  }

  class Pipeline {
    const wire: WireConnection
    const tx: Handle
    const ids: seq<BlobId>
    const bufferLength: nat

    var blobs: seq<BlobState>
    /** Requests flushed to the server, awaiting answers. */
    var pending: seq<Pending>
    /** Requests written but not yet flushed: never awaited. */
    var unflushed: seq<Pending>
    var nextToOpen: nat
    var head: nat
    var totalInFlight: nat

    /** What the wire owed on entry, as long as nothing was read. */
    ghost var ahead: seq<Request>
    ghost var asked: seq<Pending>
    ghost const log0: seq<Request>
    ghost const start: State
    ghost const lost0: nat

    constructor (w: WireConnection, tx: Handle, ids: seq<BlobId>, bufferLength: nat)
      requires w.InSync() && |ids| > 0
      ensures wire == w && this.tx == tx && this.ids == ids && this.bufferLength == bufferLength
      ensures fresh(this) && Inv() && log0 == w.log && start == w.server && lost0 == w.lost &&
        pending == unflushed == []
      ensures ahead == w.sent + w.writer
    {
      wire, this.tx, this.ids, this.bufferLength := w, tx, ids, bufferLength;
      blobs := seq(|ids|, _ => UNTOUCHED);
      pending, unflushed, nextToOpen, head, totalInFlight := [], [], 0, 0, 0;
      ahead, asked, log0, start, lost0 := w.sent + w.writer, [], w.log, w.server, w.lost;
      new;
      SumZero(InFlights(blobs));
    }

    ghost function K(): Book
      reads this
    {
      Book(blobs, pending + unflushed, nextToOpen, head, totalInFlight)
    }

    ghost predicate Named()
      reads this
    {
      && |blobs| == |ids|
      && (forall p | p in pending + unflushed :: p.idx < |ids|)
      && forall p | p in asked :: p.idx < |ids|
    }

    /** The queue is exactly what the wire owes beyond what it owed before. */
    ghost predicate Linked()
      reads this, wire
    {
      && Named() && wire.Idle() && |ahead| == wire.deferredResponses && wire.lost == lost0
      && wire.sent + wire.writer == ahead + Requests(pending + unflushed, tx, ids, bufferLength, blobs)
      && (pending != [] ==> |wire.sent| == |ahead| + |pending|)
      && wire.log == log0 + Requests(asked, tx, ids, bufferLength, blobs)
      && (ahead != [] ==> forall i | 0 <= i < |ids| :: blobs[i].handle.None?)
      && Keeps(start, wire.server)
    }

    ghost predicate Inv()
      reads this, wire
    {
      && Linked() && BookOk(K(), |ids|) && AllData(K(), wire.server, ids) && ScriptsOk(K(), |ids|, asked)
    }

    /** Write a request and note it as not yet flushed. */
    method Ask(p: Pending)
      requires Linked() && p.idx < |ids|
      modifies this`unflushed, this`asked, wire`writer, wire`log
      ensures Linked() && unflushed == old(unflushed) + [p] && asked == old(asked) + [p]
      ensures pending + unflushed == old(pending + unflushed) + [p]
    {
      ghost var q := pending + unflushed;
      ghost var out, rs := wire.sent + wire.writer, Requests(q, tx, ids, bufferLength, blobs);
      ghost var own := [RequestOf(p, tx, ids, bufferLength, blobs)];
      RequestsPush(q, p, tx, ids, bufferLength, blobs);
      RequestsPush(asked, p, tx, ids, bufferLength, blobs);
      wire.Write(RequestOf(p, tx, ids, bufferLength, blobs));
      unflushed := unflushed + [p];
      asked := asked + [p];
      assert pending + unflushed == q + [p];
      assert wire.sent + wire.writer == out + own == ahead + (rs + own);
    }

    method FlushNow()
      requires Linked()
      modifies this`pending, this`unflushed, wire`writer, wire`sent, wire`flushCount, wire`peak
      ensures Linked() && unflushed == [] && pending == old(pending + unflushed) && K() == old(K())
      ensures pending != [] ==> wire.writer == []
    {
      if |unflushed| == 0 {
        assert pending + unflushed == pending;
        return;
      }
      wire.Flush();
      pending := pending + unflushed;
      unflushed := [];
      assert pending + unflushed == pending;
    }

    /** Ask for the next open. */
    method PushOpening()
      requires Inv() && nextToOpen < |ids| && nextToOpen < head + OPEN_AHEAD
      modifies this`unflushed, this`asked, this`nextToOpen, wire`writer, wire`log
      ensures Inv() && K() == AskOpening(old(K()))
      ensures SameWaits(old(K()), K(), wire.server.reading)
    {
      hide BookOk, AllData, ScriptsOk, Requests;
      ghost var k := K();
      Bounded(k, |ids|);
      AskOpeningOk(k, |ids|);
      OpeningScript(k, |ids|, asked);
      var p := Opening(nextToOpen);
      UnaskedIsFresh(k, |ids|);
      Ask(p);
      nextToOpen := nextToOpen + 1;
      AskData(k, K(), wire.server, ids, p.idx, p);
      AskKeepsWaits(k, K(), p.idx, p, wire.server.reading);
    }

    /** Ask for one more segment of blob `i`. */
    method PushSegment(i: nat)
      requires Inv() && i < |ids| && blobs[i].handle.Some? && !blobs[i].eof && totalInFlight < PIPELINE_DEPTH
      modifies this`unflushed, this`asked, this`blobs, this`totalInFlight, wire`writer, wire`log
      ensures Inv() && K() == AskSegment(old(K()), i)
      ensures SameWaits(old(K()), K(), wire.server.reading)
    {
      hide BookOk, AllData, ScriptsOk, Requests, SameWaits, WireConnection.Idle, RequestOf;
      ghost var k := K();
      Bounded(k, |ids|);
      AskSegmentOk(k, |ids|, i);
      OpenIsAsked(k, |ids|, i);
      SegmentScript(k, |ids|, asked, i);
      Ask(Segment(i));
      ghost var blobs' := AskSegment(k, i).blobs;
      RequestsSame(pending + unflushed, tx, ids, bufferLength, blobs, blobs');
      RequestsSame(asked, tx, ids, bufferLength, blobs, blobs');
      blobs := blobs[i := blobs[i].(inFlight := blobs[i].inFlight + 1)];
      totalInFlight := totalInFlight + 1;
      AskData(k, K(), wire.server, ids, i, Segment(i));
      AskKeepsWaits(k, K(), i, Segment(i), wire.server.reading);
    }

    /** Write the next round of requests: opens ahead, and a shared segment window. */
    method Pump()
      requires Inv()
      modifies this`unflushed, this`asked, this`nextToOpen, this`blobs, this`totalInFlight, wire`writer, wire`log
      ensures Inv() && SameWaits(old(K()), K(), wire.server.reading)
      ensures K().q == [] ==> head == |ids|
    {
      hide BookOk, AllData, ScriptsOk, Linked, Unopened, Unread, Leftover;
      Bounded(K(), |ids|);
      while nextToOpen < |ids| && nextToOpen < head + OPEN_AHEAD
        invariant Inv() && SameWaits(old(K()), K(), wire.server.reading) && nextToOpen <= |ids|
      {
        PushOpening();
      }
      Bounded(K(), |ids|);
      var i := head;
      while i < |blobs| && totalInFlight < PIPELINE_DEPTH
        invariant Inv() && SameWaits(old(K()), K(), wire.server.reading)
        invariant |blobs| == |ids| && head <= i <= |ids| && (head < |ids| ==> head < nextToOpen)
        invariant i > head ==> K().q != []
      {
        FillWindow(i);
        i := i + 1;
      }
      if K().q == [] && head < |ids| { EmptyQueue(K(), |ids|); }
    }

    /** Give blob `i` its share of the window. */
    method FillWindow(i: nat)
      requires Inv() && head <= i < |ids| && totalInFlight < PIPELINE_DEPTH && head < nextToOpen
      requires i > head ==> K().q != []
      modifies this`unflushed, this`asked, this`blobs, this`totalInFlight, wire`writer, wire`log
      ensures Inv() && SameWaits(old(K()), K(), wire.server.reading) && |blobs| == |ids|
      ensures K().q != []
    {
      hide BookOk, AllData, ScriptsOk, Linked, Unopened, Unread, Leftover;
      ghost var k := K();
      Bounded(k, |ids|);
      if k.q == [] { EmptyQueue(k, |ids|); }
      HeadIsOpen(k, |ids|, i);
      if blobs[i].eof || blobs[i].handle.None? { return; }
      var cap := Min(blobs[i].cap, blobs[i].inFlight + (PIPELINE_DEPTH - totalInFlight));
      ghost var t := totalInFlight - blobs[i].inFlight;
      while blobs[i].inFlight < cap
        invariant Inv() && SameWaits(k, K(), wire.server.reading) && |blobs| == |ids|
        invariant !blobs[i].eof && blobs[i].handle.Some? && totalInFlight == blobs[i].inFlight + t
        invariant K().q != [] || K() == k
        decreases cap - blobs[i].inFlight
      {
        PushSegment(i);
      }
    }

    /** Shift the oldest request off `pending`, then await its answer. */
    method AwaitHead() returns (p: Pending, r: Response, ghost mid: State)
      requires Linked() && pending != [] && ScriptsOk(K(), |ids|, asked)
      modifies this`pending, this`ahead, wire
      ensures p == old(pending)[0] && p.idx < |ids| && pending == old(pending)[1..]
      ensures pending + unflushed == old(pending + unflushed)[1..]
      ensures wire.Idle() && wire.lost >= lost0
      ensures wire.lost == lost0 ==>
        && Linked() && ahead == [] && (old(ahead) == [] ==> mid == old(wire.server))
        && PlainStep(mid, RequestOf(p, tx, ids, bufferLength, blobs), wire.server, r)
        && mid.Valid() && Keeps(start, mid)
      ensures (wire.lost > lost0 ==> r.Bad? && old(ahead) != []) && Owing()
    {
      hide PlainStep, Evolves, Requests, RequestOf, WireConnection.Idle, Took, ScriptsOk;
      ghost var k := K();
      ghost var q := pending + unflushed;
      ghost var rs := Requests(q, tx, ids, bufferLength, blobs);
      ghost var d, out := |ahead|, wire.sent + wire.writer;
      assert q[0] in q && q[0] == pending[0] && q[1..] == pending[1..] + unflushed;
      HeadRequest(q, tx, ids, bufferLength, blobs);
      assert wire.sent[d] == out[d] == rs[0] && out[d + 1..] == rs[1..];
      wire.IdleIsQuiet();
      p, pending := pending[0], pending[1..];
      r, mid := wire.ReadResponse();
      if wire.lost == lost0 {
        ahead := [];
        AnswersEvolves(mid, rs[0], wire.server, [Resp(r)]);
        StoreGrows(start, old(wire.server), old(wire.sent)[..d], mid, [rs[0]], wire.server);
        assert wire.sent + wire.writer == out[d + 1..];
        assert ahead + rs[1..] == rs[1..];
      }
      SameScripts(k, K(), |ids|, asked);
    }

    /** What was asked is on the wire's log, blob by blob as the records say. */
    ghost predicate Recorded()
      reads this, wire
    {
      && Named() && wire.log == log0 + Requests(asked, tx, ids, bufferLength, blobs)
      && ScriptsOk(K(), |ids|, asked)
    }

    /** After an error: what the wire owes is this pipeline's own, besides the deferred. */
    ghost predicate Owing()
      reads this, wire
    {
      && Recorded() && wire.Idle() && wire.lost >= lost0
      && |wire.writer| == |unflushed|
      && wire.Owed() == wire.deferredResponses + |pending| + |unflushed| + (wire.lost - lost0)
    }

    /** An error the server chose, or a blob that was not there when the read began. */
    ghost predicate Blameless(e: Error)
    {
      e.Refused? || (e == BadHandle && exists i | 0 <= i < |ids| :: ids[i] !in start.store)
    }

    method AwaitOpening() returns (error: Option<Error>)
      requires Inv() && pending != [] && pending[0].Opening?
      modifies this`pending, this`ahead, this`blobs, wire
      ensures error.None? ==> Inv() && Progress(old(K()), old(wire.server), K(), wire.server)
      ensures error.Some? ==> Owing() && |blobs| == |ids| && (wire.lost == lost0 ==> Blameless(error.value))
    {
      hide BookOk, AllData, ScriptsOk, PlainStep, Requests, WireConnection.Idle, Progress;
      ghost var k, s := K(), wire.server;
      HeadLane(k, |ids|);
      OpenChangesNothing(k, |ids|, asked);
      ghost var ahead0 := ahead;
      var p, r;
      ghost var mid;
      p, r, mid := AwaitHead();
      if wire.lost == lost0 {
        if ahead0 != [] { NothingKnown(k, mid, ids); }
        OpeningData(k, mid, ids, tx, wire.server, r);
      }
      if r.Bad? { return Some(r.error); }
      TakeOpeningOk(k, |ids|, r.handle);
      OpenedScript(k, |ids|, asked, r.handle);
      OpeningProgress(k, |ids|, s, r.handle, wire.server);
      NoteHandle(p.idx, r.handle);
      error := None;
    }

    /** The handle of a blob that no request has named yet. */
    method NoteHandle(i: nat, h: Handle)
      requires Linked() && i < |ids| && ahead == []
      requires forall p | p in pending + unflushed && p.idx == i :: p.Opening?
      requires forall p | p in asked && p.idx == i :: p.Opening?
      modifies this`blobs
      ensures Linked() && blobs == old(blobs)[i := old(blobs)[i].(handle := Some(h))]
    {
      hide Requests, WireConnection.Idle;
      ghost var blobs' := blobs[i := blobs[i].(handle := Some(h))];
      RequestsSame(pending + unflushed, tx, ids, bufferLength, blobs, blobs');
      RequestsSame(asked, tx, ids, bufferLength, blobs, blobs');
      blobs := blobs[i := blobs[i].(handle := Some(h))];
    }

    /** Errors of a close are dropped. */
    method AwaitClosing()
      requires Inv() && pending != [] && pending[0].Closing?
      modifies this`pending, this`ahead, wire
      ensures Inv() && Progress(old(K()), old(wire.server), K(), wire.server)
    {
      hide BookOk, AllData, ScriptsOk, PlainStep, Requests, WireConnection.Idle, Progress, Apart;
      ghost var k, s := K(), wire.server;
      HeadLane(k, |ids|);
      NothingAhead(pending[0].idx);
      var p, r;
      ghost var mid;
      p, r, mid := AwaitHead();
      ClosingData(k, s, ids, wire.server, r);
      TakeClosingOk(k, |ids|);
      ClosingProgress(k, s, ids, wire.server);
      SameScripts(k, K(), |ids|, asked);
    }

    lemma NothingAhead(i: nat)
      requires Linked() && i < |ids| && blobs[i].handle.Some?
      ensures ahead == []
    {
    }

    method AwaitSegment() returns (error: Option<Error>)
      requires Inv() && pending != [] && pending[0].Segment?
      modifies this, wire
      ensures error.None? ==> Inv() && Progress(old(K()), old(wire.server), K(), wire.server)
      ensures error.Some? ==> Owing() && |blobs| == |ids| && (wire.lost == lost0 ==> Blameless(error.value))
    {
      hide BookOk, AllData, ScriptsOk, PlainStep, Requests, WireConnection.Idle, Progress, Served, Received, NextHead;
      ghost var k, s, asked0 := K(), wire.server, asked;
      Bounded(k, |ids|);
      HeadLane(k, |ids|);
      NothingAhead(pending[0].idx);
      var p, r;
      ghost var mid;
      p, r, mid := AwaitHead();
      SegmentData(k, s, ids, bufferLength, wire.server, r);
      if r.Bad? { return Some(r.error); }
      var data := ParseSegmentFrames(r.data);
      var last := r.handle == EOF_HANDLE;
      TakeSegmentOk(k, |ids|, data, last);
      ReceivedScript(k, |ids|, asked, data, last);
      SegmentProgress(k, s, ids, wire.server, data, last);
      ghost var q1 := pending + unflushed;
      assert q1 == k.q[1..] && q1 + [] == q1 && asked0 + [] == asked0;
      Receive(p.idx, data, last);
      assert K().blobs == TakeSegment(k, data, last).blobs;
      assert K() == TakeSegment(k, data, last);
      error := None;
    }

    method AdvanceHead()
      requires head <= |blobs|
      modifies this`head
      ensures head == NextHead(blobs, old(head))
    {
      while head < |blobs| && blobs[head].eof
        invariant head <= |blobs| && NextHead(blobs, head) == NextHead(blobs, old(head))
      {
        head := head + 1;
      }
    }

    /** The blob's record after a segment response, and whether the blob ended with it. */
    static method FileSegment(record: BlobState, data: Bytes, last: bool) returns (b: BlobState, ended: bool)
      requires record.inFlight > 0
      ensures b == Received(record, data, last) && ended == (!record.eof && last)
    {
      b, ended := record.(inFlight := record.inFlight - 1), false;
      if !b.eof {
        if |data| > 0 { b := b.(parts := b.parts + [data]); }
        if last {
          b := b.(eof := true);
          ended := true;
        } else {
          b := b.(dataSegs := b.dataSegs + 1);
          if b.dataSegs >= b.cap { b := b.(cap := Min(b.cap * 2, PIPELINE_DEPTH)); }
        }
      }
    }

    /** File one segment response with its blob, closing the blob at its end. */
    method Receive(i: nat, data: Bytes, last: bool)
      requires Linked() && i < |ids| && blobs[i].inFlight > 0 && totalInFlight > 0 && head <= |ids|
      modifies this`blobs, this`totalInFlight, this`unflushed, this`asked, this`head, wire`writer, wire`log
      ensures Linked() && pending == old(pending) && nextToOpen == old(nextToOpen)
      ensures blobs == old(blobs)[i := Received(old(blobs[i]), data, last)] && totalInFlight == old(totalInFlight) - 1
      ensures var ended := !old(blobs[i]).eof && last;
        && pending + unflushed == old(pending + unflushed) + (if ended then [Closing(i)] else [])
        && asked == old(asked) + (if ended then [Closing(i)] else [])
        && head == if ended then NextHead(blobs, old(head)) else old(head)
    {
      hide Requests, WireConnection.Idle, Received;
      ReceivedCounts(blobs[i], data, last);
      totalInFlight := totalInFlight - 1;
      var b, ended := FileSegment(blobs[i], data, last);
      ghost var blobs' := blobs[i := b];
      RequestsSame(pending + unflushed, tx, ids, bufferLength, blobs, blobs');
      RequestsSame(asked, tx, ids, bufferLength, blobs, blobs');
      blobs := blobs[i := b];
      if ended {
        Ask(Closing(i));
        AdvanceHead();
      }
    }

    /** The error path: flush what is written, drain all answers, release the handles known to be open. */
    method Recover()
      requires Owing() && |blobs| == |ids|
      modifies this`pending, this`unflushed, wire
      ensures wire.Idle() && wire.lost >= old(wire.lost)
      ensures wire.Owed() == wire.deferredResponses + (wire.lost - lost0)
      ensures wire.log == old(wire.log) + Closes(blobs)
    {
      if |unflushed| > 0 {
        wire.Flush();
        pending := pending + unflushed;
        unflushed := [];
      }
      Drain(wire, |pending|, 0, 0);
      pending := [];
      CloseHandles();
    }

    /** Deferred closes for the blobs that are open and not at their end. */
    method CloseHandles()
      requires wire.Idle()
      modifies wire`writer, wire`log, wire`deferredResponses
      ensures wire.Idle() && wire.log == old(wire.log) + Closes(blobs)
      ensures wire.Owed() - wire.deferredResponses == old(wire.Owed() - wire.deferredResponses)
    {
      hide WireConnection.Idle;
      var i := 0;
      assert wire.log + [] == wire.log && blobs[..0] == [];
      while i < |blobs|
        invariant wire.Idle() && 0 <= i <= |blobs| && wire.log == old(wire.log) + Closes(blobs[..i])
        invariant wire.Owed() - wire.deferredResponses == old(wire.Owed() - wire.deferredResponses)
      {
        assert blobs[..i + 1][..i] == blobs[..i];
        if blobs[i].handle.Some? && !blobs[i].eof { CloseDeferred(wire, blobs[i].handle.value); }
        i := i + 1;
      }
      assert blobs[..i] == blobs;
    }

    /** The pipeline's loop: ask, flush a packet's worth, await the oldest request. */
    method Run() returns (error: Option<Error>)
      requires Inv()
      modifies this, wire
      ensures error.None? ==> Inv() && pending == unflushed == [] && head == |ids|
      ensures error.Some? ==> Owing() && |blobs| == |ids| && (wire.lost == lost0 ==> Blameless(error.value))
    {
      hide BookOk, AllData, ScriptsOk, Linked, Owing, Blameless, Unopened, Unread, Leftover;
      while true
        invariant Inv()
        decreases Unopened(K()), Unread(K(), wire.server.reading), Leftover(K())
      {
        ghost var k0, s0 := K(), wire.server;
        Pump();
        if |unflushed| >= FLUSH_BATCH { FlushNow(); }
        if |pending| == 0 {
          if |unflushed| == 0 {
            assert K().q == [];
            return None;
          }
          FlushNow();
        }
        ghost var k1 := K();
        Bounded(k1, |ids|);
        match pending[0]
        case Opening(_) =>
          error := AwaitOpening();
          if error.Some? { return; }
        case Closing(_) =>
          AwaitClosing();
        case Segment(_) =>
          error := AwaitSegment();
          if error.Some? { return; }
      }
    }
  }

  lemma SameScripts(k: Book, k': Book, n: nat, asked: seq<Pending>)
    requires ScriptsOk(k, n, asked) && k'.blobs == k.blobs && k'.nextToOpen == k.nextToOpen
    ensures ScriptsOk(k', n, asked)
  {
  }

  /** Nothing but opens was asked for a blob that is not open. */
  lemma OpenChangesNothing(k: Book, n: nat, asked: seq<Pending>)
    requires BookOk(k, n) && ScriptsOk(k, n, asked) && |k.q| > 0 && k.q[0].Opening?
    ensures forall p | p in k.q[1..] :: p.idx != k.q[0].idx
    ensures forall p | p in asked && p.idx == k.q[0].idx :: p.Opening?
  {
    HeadLane(k, n);
    forall p | p in k.q[1..] ensures p.idx != k.q[0].idx {
      if p.idx == k.q[0].idx {
        InLane(k.q[1..], p);
        assert false;
      }
    }
    forall p | p in asked && p.idx == k.q[0].idx ensures p.Opening? {
      OnlyOpening(k, n, asked, p);
    }
  }

  lemma HeadRequest(q: seq<Pending>, tx: Handle, ids: seq<BlobId>, n: nat, blobs: seq<BlobState>)
    requires |ids| == |blobs| && q != [] && forall p | p in q :: p.idx < |ids|
    ensures q[0] in q && Requests(q, tx, ids, n, blobs)[0] == RequestOf(q[0], tx, ids, n, blobs)
    ensures forall p | p in q[1..] :: p in q
    ensures Requests(q, tx, ids, n, blobs)[1..] == Requests(q[1..], tx, ids, n, blobs)
  {
    assert forall p | p in q[1..] :: p in q;
  }

  lemma StoreGrows(s: State, a: State, qs: seq<Request>, b: State, rs: seq<Request>, c: State)
    requires Keeps(s, a) && Evolves(a, qs, b) && Evolves(b, rs, c)
    ensures Keeps(s, b) && Keeps(s, c)
  {
  }

  /** The blob at the head is open once the queue has run dry. */
  lemma HeadIsOpen(k: Book, n: nat, i: nat)
    requires BookOk(k, n) && k.head <= i < n && k.head < k.nextToOpen && (i > k.head ==> k.q != [])
    ensures k.q == [] ==> !k.blobs[i].eof && k.blobs[i].handle.Some?
    ensures k.blobs[i].cap >= 1
    ensures k.q == [] ==> k.blobs[i].inFlight == 0
  {
    if k.q == [] { EmptyQueue(k, n); }
  }

  ghost predicate SameWaits(k: Book, k': Book, reading: map<Handle, Replies>) {
    Unopened(k') == Unopened(k) && Unread(k', reading) == Unread(k, reading) && Leftover(k') == Leftover(k)
  }

  lemma AskKeepsWaits(k: Book, k': Book, i: nat, p: Pending, reading: map<Handle, Replies>)
    requires i < |k.blobs| == |k'.blobs| && p.idx == i && k'.q == k.q + [p] && !k.blobs[i].eof
    requires k'.blobs == k.blobs[i := k.blobs[i].(inFlight := k'.blobs[i].inFlight)]
    ensures SameWaits(k, k', reading)
  {
    AskProgress(k, k', i, p, reading);
  }

  lemma Bounded(k: Book, n: nat)
    requires BookOk(k, n)
    ensures |k.blobs| == n && k.head <= k.nextToOpen <= n && forall p | p in k.q :: p.idx < n
  {
  }

  lemma UnaskedIsFresh(k: Book, n: nat)
    requires BookOk(k, n) && k.nextToOpen < n
    ensures |k.blobs| == n && k.blobs[k.nextToOpen] == UNTOUCHED
  {
    assert LaneOk(k.blobs[k.nextToOpen], k.nextToOpen, false, Lane(k.q, k.nextToOpen));
  }

  lemma OpenIsAsked(k: Book, n: nat, i: nat)
    requires BookOk(k, n) && i < n && k.blobs[i].handle.Some?
    ensures i < k.nextToOpen
  {
    assert LaneOk(k.blobs[i], i, i < k.nextToOpen, Lane(k.q, i));
  }

  /** The whole conversation about blob `i`: one open, segment requests, one close. */
  predicate FullScript(asked: seq<Pending>, i: nat) {
    var script := Lane(asked, i);
    |script| >= 2 && script == [Opening(i)] + Segs(i, |script| - 2) + [Closing(i)]
  }

  lemma AllRead(k: Book, ids: seq<BlobId>, s: State, asked: seq<Pending>)
    requires BookOk(k, |ids|) && AllData(k, s, ids) && ScriptsOk(k, |ids|, asked) && k.head == |ids|
    ensures forall i | 0 <= i < |ids| :: ids[i] in s.store && Flatten(k.blobs[i].parts) == s.store[ids[i]]
    ensures forall i | 0 <= i < |ids| :: FullScript(asked, i)
  {
    forall i | 0 <= i < |ids|
      ensures ids[i] in s.store && Flatten(k.blobs[i].parts) == s.store[ids[i]] && FullScript(asked, i)
    {
      assert LaneOk(k.blobs[i], i, i < k.nextToOpen, Lane(k.q, i));
      assert DataOk(k.blobs[i], Lane(k.q, i), s, ids[i]);
      assert ScriptOk(k.blobs[i], i, i < k.nextToOpen, Lane(asked, i));
    }
  }

  /**
   * After an error: the blob's handle is closed by the last request about it, or by
   * the closes at the end, and by one of the two only; unless the open was not
   * answered yet, and then by none, so a handle that the open still brings stays open.
   */
  ghost predicate GivenBack(blobs: seq<BlobState>, asked: seq<Pending>, i: nat)
    requires i < |blobs|
  {
    var b := blobs[i];
    if b.handle.None? then Lane(asked, i) == [] || Lane(asked, i) == [Opening(i)]
    else (Closing(i) in Lane(asked, i) <==> b.eof) && (!b.eof ==> CloseBlob(b.handle.value) in Closes(blobs))
  }

  /**
   * Read many blobs, duplicates included. Each result is the whole content of its
   * blob, as a read of that blob alone would give it.
   */
  method ReadBlobs(w: WireConnection, tx: Handle, ids: seq<BlobId>, chunkSize: int)
    returns (res: Outcome<seq<Bytes>>, ghost asked: seq<Pending>, ghost blobs: seq<BlobState>)
    requires w.InSync()
    modifies w
    ensures w.Idle() && w.lost >= old(w.lost)
    ensures w.Owed() == w.deferredResponses + (w.lost - old(w.lost))
    ensures res.Returned? ==>
      && w.lost == old(w.lost) && |res.value| == |ids| && Keeps(old(w.server), w.server)
      && forall i | 0 <= i < |ids| :: ids[i] in w.server.store && res.value[i] == w.server.store[ids[i]]
    ensures res.Returned? && |ids| >= 2 ==>
      && (forall i | 0 <= i < |ids| :: FullScript(asked, i))
      && |blobs| == |ids| && (forall p | p in asked :: p.idx < |ids|)
      && w.log == old(w.log) + Requests(asked, tx, ids, BufferLength(chunkSize), blobs)
    ensures res.Thrown? && w.lost == old(w.lost) ==>
      res.error.Refused? || (res.error == BadHandle && exists i | 0 <= i < |ids| :: ids[i] !in old(w.server).store)
    ensures res.Thrown? && |ids| >= 2 ==>
      && |blobs| == |ids| && (forall p | p in asked :: p.idx < |ids|)
      && w.log == old(w.log) + Requests(asked, tx, ids, BufferLength(chunkSize), blobs) + Closes(blobs)
      && forall i | 0 <= i < |ids| :: GivenBack(blobs, asked, i)
  {
    hide BookOk, Closes, Requests, Content, Flatten;
    asked, blobs := [], [];
    if |ids| == 0 { return Returned([]), asked, blobs; }
    if |ids| == 1 {
      var one;
      ghost var h;
      one, h := ReadBlob(w, tx, ids[0], chunkSize);
      if one.Thrown? { return Thrown(one.error), asked, blobs; }
      return Returned([one.value]), asked, blobs;
    }
    var p := new Pipeline(w, tx, ids, BufferLength(chunkSize));
    var error := p.Run();
    if error.Some? {
      forall i | 0 <= i < |ids| ensures GivenBack(p.blobs, p.asked, i) { ClosedOnce(p.K(), |ids|, p.asked, i); }
      p.Recover();
      return Thrown(error.value), p.asked, p.blobs;
    }
    AllRead(p.K(), ids, w.server, p.asked);
    asked, blobs := p.asked, p.blobs;
    res := Returned(seq(|p.blobs|, i requires 0 <= i < |p.blobs| reads p => Flatten(p.blobs[i].parts)));
  }
}
