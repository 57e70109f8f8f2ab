/**
 * Blob operations over one connection (blob.ts): whole reads and windows with
 * segment requests in flight, and uploads re-framed into full segments.
 *
 * Every operation here starts in sync and keeps one law on every exit: what the
 * server still owes is what the deferred counter says, plus one for each
 * deferred error that was thrown at a reader meanwhile.
 */
module BlobProtocol {
  import opened Results
  import opened WireTypes
  import opened Framing
  import opened Server
  import opened Wire

  const PIPELINE_DEPTH := 32

  function BufferLength(chunkSize: int): nat
  {
    Min(Max(chunkSize, 1) + 2, MAX_SEGMENT_SIZE)
  }

  /** The bytes that `qs` add to a blob under construction. */
  function Payload(qs: seq<Request>): Bytes
  {
    if qs == [] then []
    else (if qs[0].BatchSegments? then Unframe(qs[0].framed) else []) + Payload(qs[1..])
  }

  lemma {:induction false} PayloadPush(qs: seq<Request>, q: Request)
    ensures Payload(qs + [q]) == Payload(qs) + (if q.BatchSegments? then Unframe(q.framed) else [])
  {
    hide Unframe;
    if qs == [] {
      assert qs + [q] == [q];
    } else {
      PayloadPush(qs[1..], q);
      var first := if qs[0].BatchSegments? then Unframe(qs[0].framed) else [];
      var last := if q.BatchSegments? then Unframe(q.framed) else [];
      var all := qs + [q];
      assert all[0] == qs[0] && all[1..] == qs[1..] + [q];
      Assoc(first, Payload(qs[1..]), last);
    }
  }

  /** `h` names neither an open blob that `owed` leaves alone nor an upload. */
  ghost predicate Foreign(s: State, owed: seq<Request>, h: Handle) {
    (h in s.reading || h in s.writing) ==> exists q :: q in owed && Targets(q, h)
  }

  /** The server's state while `h` is worked on, given what was owed when the operation began. */
  ghost predicate Undisturbed(s0: State, owed: seq<Request>, s: State, h: Handle) {
    Evolves(s0, owed, s) && Foreign(s0, owed, h)
  }

  /** Answering a request about a foreign handle disturbs nothing that `owed` leaves alone. */
  lemma StillUndisturbed(s0: State, owed: seq<Request>, s: State, q: Request, s': State, h: Handle)
    requires Undisturbed(s0, owed, s, h) && Evolves(s, [q], s')
    requires forall g :: Targets(q, g) ==> g == h
    ensures Undisturbed(s0, owed, s', h)
  {
  }

  method Open(w: WireConnection, tx: Handle, id: BlobId) returns (r: Response)
    requires w.InSync()
    modifies w
    ensures w.Idle() && w.writer == []
    ensures |w.sent| == w.deferredResponses + (w.lost - old(w.lost))
    ensures w.lost >= old(w.lost) && (w.lost > old(w.lost) ==> r.Bad?)
    ensures w.peak <= Max(old(w.peak), old(w.deferredResponses) + 1)
    ensures w.log == old(w.log) + [OpenBlob(tx, id)]
    ensures w.lost == old(w.lost) ==>
      && w.deferredResponses == 0
      && Evolves(old(w.server), old(w.sent + w.writer), w.server)
    ensures r.Good? ==>
      && Undisturbed(old(w.server), old(w.sent + w.writer), w.server, r.handle)
      && id in w.server.store && r.handle in w.server.reading
      && Content(w.server.reading[r.handle]) == w.server.store[id]
    ensures r.Bad? && w.lost == old(w.lost) ==> r.error.Refused? || (r.error == BadHandle && id !in old(w.server).store)
  {
    hide Evolves, PlainStep, Took, Undisturbed;
    ghost var owed := w.sent + w.writer;
    ghost var s0 := w.server;
    w.Write(OpenBlob(tx, id));
    w.Flush();
    assert w.sent == owed + [OpenBlob(tx, id)];
    ghost var mid;
    r, mid := w.ReadResponse();
    if w.lost == old(w.lost) {
      assert w.sent == [];
      assert (owed + [OpenBlob(tx, id)])[..|owed|] == owed;
      Opened(s0, owed, mid, tx, id, w.server, r);
    }
  }

  /** What the answer to an open tells, with `owed` answered ahead of it. */
  lemma Opened(s0: State, owed: seq<Request>, mid: State, tx: Handle, id: BlobId, s: State, r: Response)
    requires Evolves(s0, owed, mid) && mid.Valid() && PlainStep(mid, OpenBlob(tx, id), s, r)
    ensures Evolves(s0, owed, s)
    ensures r.Good? ==>
      && Undisturbed(s0, owed, s, r.handle)
      && id in s.store && r.handle in s.reading && Content(s.reading[r.handle]) == s.store[id]
    ensures r.Bad? ==> r.error.Refused? || (r.error == BadHandle && id !in s0.store)
  {
    AnswersEvolves(mid, OpenBlob(tx, id), s, [Resp(r)]);
  }

  /** op_close_blob, riding with the next packet; its answer is left to the deferred drain. */
  method CloseDeferred(w: WireConnection, h: Handle)
    requires w.Idle()
    modifies w`writer, w`log, w`deferredResponses
    ensures w.Idle() && w.writer == old(w.writer) + [CloseBlob(h)]
    ensures w.log == old(w.log) + [CloseBlob(h)] && w.deferredResponses == old(w.deferredResponses) + 1
  {
    w.Write(CloseBlob(h));
    w.MarkDeferred();
  }

  /** The bytes that one exchange brought of the blob open as `h`. */
  function Brings(x: Exchange, h: Handle): Bytes
  {
    if x.request.GetSegment? && x.request.blob == h && |x.packets| == 1 && x.packets[0].Resp? &&
      x.packets[0].response.Good? then Unframe(x.packets[0].response.data) else []
  }

  /** The bytes that the answers brought of the blob open as `h`, wanted or not. */
  function Carried(xs: seq<Exchange>, h: Handle): Bytes
  {
    if xs == [] then [] else Brings(xs[0], h) + Carried(xs[1..], h)
  }

  lemma {:induction false} CarriedAppend(xs: seq<Exchange>, ys: seq<Exchange>, h: Handle)
    ensures Carried(xs + ys, h) == Carried(xs, h) + Carried(ys, h)
  {
    hide Brings;
    if xs == [] {
      assert xs + ys == ys;
    } else {
      CarriedAppend(xs[1..], ys, h);
      assert (xs + ys)[0] == xs[0] && (xs + ys)[1..] == xs[1..] + ys;
      Assoc(Brings(xs[0], h), Carried(xs[1..], h), Carried(ys, h));
    }
  }

  lemma {:induction false} NothingCarried(xs: seq<Exchange>, h: Handle)
    requires forall x | x in xs :: !Targets(x.request, h)
    ensures Carried(xs, h) == []
  {
    if xs != [] {
      assert xs[0] in xs;
      NothingCarried(xs[1..], h);
    }
  }

  lemma OneCarried(x: Exchange, h: Handle)
    ensures Carried([x], h) == Brings(x, h)
  {
    assert Carried([x][1..], h) == [];
  }

  /** Over the exchanges `xs` the open blob `h` has moved by exactly the bytes that they brought of it. */
  ghost predicate Walked(s: State, s': State, h: Handle, xs: seq<Exchange>) {
    h in s.reading && h in s'.reading && Content(s.reading[h]) == Carried(xs, h) + Content(s'.reading[h])
  }

  lemma WalkedNone(s: State, h: Handle)
    requires h in s.reading
    ensures Walked(s, s, h, [])
  {
  }

  /** `before`, `mid` and `now` are what had come in at three times. */
  lemma WalkedOn(s0: State, s: State, s': State, h: Handle, before: seq<Exchange>, mid: seq<Exchange>,
        now: seq<Exchange>)
    requires before <= mid <= now
    requires Walked(s0, s, h, mid[|before|..]) && Walked(s, s', h, now[|mid|..])
    ensures Walked(s0, s', h, now[|before|..])
  {
    hide Content, Carried;
    var (xs, ys) := (mid[|before|..], now[|mid|..]);
    assert now[|before|..] == xs + ys;
    CarriedAppend(xs, ys, h);
    Assoc(Carried(xs, h), Carried(ys, h), Content(s'.reading[h]));
  }

  lemma AnswerWalked(s: State, h: Handle, n: nat, s': State, r: Response)
    requires h in s.reading && PlainStep(s, GetSegment(h, n), s', r)
    ensures h in s'.reading && s'.store == s.store
    ensures Walked(s, s', h, [Exchange(GetSegment(h, n), [Resp(r)])])
  {
    OneCarried(Exchange(GetSegment(h, n), [Resp(r)]), h);
    if r.Good? && s.reading[h] == [] { assert Unframe(r.data) == []; }
  }

  /** An answer behind drained ones that are not about `h`. */
  lemma TookWalked(s0: State, mid: State, s': State, h: Handle, before: seq<Exchange>, now: seq<Exchange>,
        sent: seq<Request>, n: nat)
    requires Took(before, now, sent, n) && forall i | 0 <= i < n - 1 :: !Targets(sent[i], h)
    requires h in s0.reading && h in mid.reading && mid.reading[h] == s0.reading[h]
    requires Walked(mid, s', h, [Last(now)])
    ensures before <= now && Walked(s0, s', h, now[|before|..])
  {
    hide Content, Carried;
    var drained := now[|before|..|now| - 1];
    assert now[..|now| - 1] == now[..Max(|now| - 1, 0)];
    assert before == now[..|before|] by { assert before == now[..|now| - 1][..|before|]; }
    forall x | x in drained
      ensures !Targets(x.request, h)
    {
      var i :| 0 <= i < n - 1 && drained[i] == x;
      assert x == now[..|now| - 1][|before| + i] && !Targets(sent[i], h);
    }
    NothingCarried(drained, h);
    assert now[|before|..] == drained + [Last(now)];
    CarriedAppend(drained, [Last(now)], h);
    assert [] + Carried([Last(now)], h) == Carried([Last(now)], h);
  }

  /**
   * The error paths' drain: discard `count` responses, whatever they are. Segment
   * responses of an open blob `h` that are dropped here are missed by a later read.
   */
  method Drain(w: WireConnection, count: nat, ghost h: Handle, ghost n: nat)
    requires w.Idle() && w.deferredResponses + count <= |w.sent|
    modifies w`server, w`sent, w`inbound, w`deferredResponses, w`inlined, w`history, w`lost
    ensures w.Idle() && w.lost >= old(w.lost) && w.deferredResponses <= old(w.deferredResponses)
    ensures old(w.deferredResponses) == 0 ==> w.lost == old(w.lost)
    ensures |w.sent| - w.deferredResponses == old(|w.sent| - w.deferredResponses) - count + (w.lost - old(w.lost))
    ensures old(InWindow(w, h, n, count)) ==>
      && InWindow(w, h, n, 0) && w.server.store == old(w.server).store
      && old(w.history) <= w.history && Walked(old(w.server), w.server, h, w.history[|old(w.history)|..])
    ensures old(w.deferredResponses) == 0 ==> Keeps(old(w.server), w.server)
  {
    hide WireConnection.Idle, PlainStep, OnlySegments, Walked;
    ghost var window, before := InWindow(w, h, n, count), w.history;
    if window { WalkedNone(w.server, h); }
    assert w.history[|before|..] == [];
    var inFlight := count;
    while inFlight > 0
      invariant w.Idle() && 0 <= inFlight <= count && w.lost >= old(w.lost)
      invariant w.deferredResponses <= old(w.deferredResponses)
      invariant old(w.deferredResponses) == 0 ==> w.lost == old(w.lost)
      invariant |w.sent| - w.deferredResponses ==
        old(|w.sent| - w.deferredResponses) - (count - inFlight) + (w.lost - old(w.lost))
      invariant w.writer == old(w.writer)
      invariant old(w.deferredResponses) == 0 ==> Keeps(old(w.server), w.server)
      invariant window ==>
        && InWindow(w, h, n, inFlight) && w.server.store == old(w.server).store
        && before <= w.history && Walked(old(w.server), w.server, h, w.history[|before|..])
    {
      inFlight := inFlight - 1;
      ghost var s, mid, q := w.server, w.history, w.sent[0];
      if window { FirstSegment(h, n, inFlight + 1); }
      w.IdleIsQuiet();
      w.Discard();
      if old(w.deferredResponses) == 0 {
        ghost var r: Response :| PlainStep(s, q, w.server, r) && w.history == mid + [Exchange(q, [Resp(r)])];
        PlainKeeps(s, q, w.server, r);
        if window {
          AnswerWalked(s, h, n, w.server, r);
          WalkedOn(old(w.server), s, w.server, h, before, mid, w.history);
        }
      }
    }
  }

  /** Nothing but `count` segment requests of `h` is on the wire. */
  ghost predicate InWindow(w: WireConnection, h: Handle, n: nat, count: nat)
    reads w
  {
    w.deferredResponses == 0 && w.sent == OnlySegments(h, n, count) && h in w.server.reading
  }

  lemma InWindowNow(w: WireConnection, h: Handle, n: nat, count: nat)
    requires w.deferredResponses == 0 && w.sent == OnlySegments(h, n, count) && h in w.server.reading
    ensures InWindow(w, h, n, count)
  {
  }

  lemma FirstSegment(h: Handle, n: nat, count: nat)
    requires count > 0
    ensures var qs := OnlySegments(h, n, count);
      qs != [] && qs[0] == GetSegment(h, n) && qs[1..] == OnlySegments(h, n, count - 1)
  {
  }

  /** What segment responses still to come will yield, once `parts` are in. */
  ghost predicate ReadingOn(s: State, h: Handle, parts: seq<Bytes>, eof: bool, content: Bytes) {
    && h in s.reading
    && Flatten(parts) + Content(s.reading[h]) == content
    && (eof ==> s.reading[h] == [])
  }

  function OnlySegments(h: Handle, bufferLength: nat, count: nat): (qs: seq<Request>)
    ensures |qs| == count && forall q | q in qs :: q == GetSegment(h, bufferLength)
  {
    seq(count, _ => GetSegment(h, bufferLength))
  }

  lemma SegmentStep(s: State, h: Handle, n: nat, s': State, r: Response, parts: seq<Bytes>, eof: bool, content: Bytes)
    requires ReadingOn(s, h, parts, eof, content) && PlainStep(s, GetSegment(h, n), s', r)
    ensures s'.store == s.store
    ensures r.Bad? ==> r.error.Refused? && s'.reading == s.reading
    ensures r.Good? ==>
      && ReadingOn(s', h, parts + [Unframe(r.data)], r.handle == EOF_HANDLE, content)
      && (eof ==> Unframe(r.data) == [] && r.handle == EOF_HANDLE)
      && (Unframe(r.data) == [] ==> Flatten(parts + [Unframe(r.data)]) == Flatten(parts))
      && (r.handle != EOF_HANDLE ==> |s'.reading[h]| < |s.reading[h]|)
  {
    if r.Good? {
      var data := Unframe(r.data);
      FlattenPush(parts, data);
      var left := s.reading[h];
      if left == [] {
        assert data == [];
      } else {
        assert Flatten(parts) + data + Content(left[1..]) == Flatten(parts) + (data + Content(left[1..]));
      }
    }
  }

  /** A segment response is filed, unless the blob had ended before. */
  lemma Filed(s: State, h: Handle, parts: seq<Bytes>, eof: bool, content: Bytes, data: Bytes, last: bool)
    requires ReadingOn(s, h, parts + [data], last, content) && (eof ==> data == [] && last)
    requires data == [] ==> Flatten(parts + [data]) == Flatten(parts)
    ensures ReadingOn(s, h, if eof || data == [] then parts else parts + [data], eof || last, content)
  {
  }

  lemma AtTheEnd(s: State, h: Handle, parts: seq<Bytes>, eof: bool, content: Bytes)
    requires ReadingOn(s, h, parts, eof, content)
    ensures h in s.reading && Flatten(parts) + Content(s.reading[h]) == content
    ensures eof ==> s.reading[h] == [] && Flatten(parts) == content
  {
    if eof { assert Flatten(parts) + [] == Flatten(parts); }
  }

  lemma NothingRead(s: State, h: Handle)
    requires h in s.reading
    ensures ReadingOn(s, h, [], false, Content(s.reading[h]))
  {
    assert [] + Content(s.reading[h]) == Content(s.reading[h]);
  }

  lemma StoreKept(s: State, qs: seq<Request>, s': State)
    requires Evolves(s, qs, s')
    ensures Keeps(s, s')
  {
  }

  /** What the answer to a segment request does, with those to the requests `ahead` before it. */
  lemma SegmentMoves(s0: State, ahead: seq<Request>, mid: State, h: Handle, n: nat, s': State, r: Response,
        parts: seq<Bytes>, eof: bool, content: Bytes)
    requires ReadingOn(s0, h, parts, eof, content) && mid.Valid() && PlainStep(mid, GetSegment(h, n), s', r)
    requires Evolves(s0, ahead, mid) && forall q | q in ahead :: !Targets(q, h)
    ensures h in mid.reading && mid.reading[h] == s0.reading[h]
    ensures s'.store == mid.store && Keeps(s0, s') && Evolves(s0, ahead + [GetSegment(h, n)], s')
    ensures Walked(mid, s', h, [Exchange(GetSegment(h, n), [Resp(r)])])
    ensures r.Bad? ==> r.error.Refused? && s'.reading == mid.reading
    ensures r.Good? ==>
      && ReadingOn(s', h, parts + [Unframe(r.data)], r.handle == EOF_HANDLE, content)
      && (eof ==> Unframe(r.data) == [] && r.handle == EOF_HANDLE)
      && (Unframe(r.data) == [] ==> Flatten(parts + [Unframe(r.data)]) == Flatten(parts))
      && (r.handle != EOF_HANDLE ==> |s'.reading[h]| < |s0.reading[h]|)
  {
    var own := GetSegment(h, n);
    hide PlainStep, Evolves, Walked, Targets, Content, Flatten, Unframe;
    EvolvesKeeps(s0, ahead, mid, h);
    SegmentStep(mid, h, n, s', r, parts, eof, content);
    AnswersEvolves(mid, own, s', [Resp(r)]);
    EvolvesTrans(s0, ahead, mid, [own], s');
    StoreKept(s0, ahead + [own], s');
    AnswerWalked(mid, h, n, s', r);
  }

  lemma LastIs(before: seq<Exchange>, now: seq<Exchange>, sent: seq<Request>, n: nat)
    requires Took(before, now, sent, n)
    ensures now != [] && Last(now).request == sent[n - 1]
  {
  }

  /** One segment response: the bytes it adds to `parts`, and whether the blob ended. */
  method ReadSegment(w: WireConnection, h: Handle, bufferLength: nat, count: nat,
      ghost parts: seq<Bytes>, ghost eof: bool, ghost content: Bytes)
    returns (seg: Outcome<(Bytes, bool)>)
    requires w.Idle() && count > 0 && |w.sent| == w.deferredResponses + count
    requires w.sent[w.deferredResponses..] == OnlySegments(h, bufferLength, count)
    requires forall q | q in w.sent[..w.deferredResponses] :: !Targets(q, h)
    requires ReadingOn(w.server, h, parts, eof, content)
    modifies w`server, w`sent, w`inbound, w`deferredResponses, w`inlined, w`history, w`lost
    ensures w.Idle() && w.lost >= old(w.lost)
    ensures old(w.deferredResponses) == 0 ==> w.lost == old(w.lost) && w.server.store == old(w.server).store
    ensures w.lost == old(w.lost) ==>
      && w.deferredResponses == 0 && w.sent == OnlySegments(h, bufferLength, count - 1)
      && Evolves(old(w.server), old(w.sent[..w.deferredResponses]) + [GetSegment(h, bufferLength)], w.server)
    ensures w.lost > old(w.lost) ==> seg.Thrown? && |w.sent| == w.deferredResponses + count - 1 + (w.lost - old(w.lost))
    ensures seg.Thrown? && w.lost == old(w.lost) ==> seg.error.Refused?
    ensures seg.Thrown? && w.lost == old(w.lost) ==>
      h in w.server.reading && w.server.reading[h] == old(w.server).reading[h]
    ensures w.lost == old(w.lost) ==>
      && Keeps(old(w.server), w.server) && old(w.history) <= w.history
      && Walked(old(w.server), w.server, h, w.history[|old(w.history)|..])
    ensures seg.Returned? ==>
      var (data, last) := seg.value;
      && ReadingOn(w.server, h, parts + [data], last, content)
      && (eof ==> data == [] && last)
      && (data == [] ==> Flatten(parts + [data]) == Flatten(parts))
      && (!last ==> |w.server.reading[h]| < |old(w.server).reading[h]|)
  {
    hide Evolves, PlainStep, Took, Walked;
    ghost var all, ahead := w.sent, w.sent[..w.deferredResponses];
    ghost var s0, before := w.server, w.history;
    ghost var own := GetSegment(h, bufferLength);
    assert w.sent == ahead + OnlySegments(h, bufferLength, count);
    assert forall i | 0 <= i < |w.sent| :: w.sent[i] in w.sent;
    var r;
    ghost var mid;
    r, mid := w.ReadResponse();
    if w.lost == old(w.lost) {
      SegmentMoves(s0, ahead, mid, h, bufferLength, w.server, r, parts, eof, content);
      LastIs(before, w.history, all, |ahead| + 1);
      TookWalked(s0, mid, w.server, h, before, w.history, all, |ahead| + 1);
    }
    if r.Bad? { return Thrown(r.error); }
    var data := ParseSegmentFrames(r.data);
    seg := Returned((data, r.handle == EOF_HANDLE));
  }

  /**
   * Read a whole blob, PIPELINE_DEPTH segment requests in flight. Requests past
   * the end are answered by clean empty responses, which are drained.
   */
  method ReadBlob(w: WireConnection, tx: Handle, id: BlobId, chunkSize: int)
    returns (res: Outcome<Bytes>, ghost h: Handle)
    requires w.InSync()
    modifies w
    ensures w.Idle() && w.lost >= old(w.lost)
    ensures w.Owed() == w.deferredResponses + (w.lost - old(w.lost))
    ensures w.peak <= Max(old(w.peak), Max(old(w.deferredResponses) + 1, PIPELINE_DEPTH))
    ensures res.Returned? ==>
      && Evolves(old(w.server), old(w.sent + w.writer), w.server)
      && w.lost == old(w.lost) && id in w.server.store && res.value == w.server.store[id]
      && w.sent == [] && w.writer == [CloseBlob(h)] && h in w.server.reading
    ensures res.Thrown? && w.lost == old(w.lost) ==>
      && (res.error.Refused? || (res.error == BadHandle && id !in old(w.server).store))
      && Keeps(old(w.server), w.server)
  {
    hide Evolves, Foreign, PlainStep, WireConnection.Idle, ReadingOn, Flatten, Content, Took, Walked;
    ghost var owed := w.sent + w.writer;
    ghost var s0 := w.server;
    h := 0;
    var open := Open(w, tx, id);
    if w.lost == old(w.lost) { StoreKept(s0, owed, w.server); }
    if open.Bad? { return Thrown(open.error), h; }
    var blob := open.handle;
    h := blob;
    var bufferLength := BufferLength(chunkSize);
    ghost var content := w.server.store[id];
    var parts: seq<Bytes>, inFlight, eof := [], 0, false;
    NothingRead(w.server, h);
    RequestSegments(w, blob, bufferLength, PIPELINE_DEPTH);
    assert [] + w.writer == w.writer;
    inFlight := PIPELINE_DEPTH;
    w.Flush();
    while inFlight > 0
      invariant 0 <= inFlight <= PIPELINE_DEPTH && w.Idle() && w.writer == []
      invariant (eof || inFlight == PIPELINE_DEPTH) && h == blob
      invariant w.sent == OnlySegments(h, bufferLength, inFlight)
      invariant w.deferredResponses == 0 && w.lost == old(w.lost)
      invariant w.peak <= Max(old(w.peak), Max(old(w.deferredResponses) + 1, PIPELINE_DEPTH))
      invariant ReadingOn(w.server, h, parts, eof, content)
      invariant id in w.server.store && w.server.store[id] == content
      invariant Undisturbed(s0, owed, w.server, h) && Keeps(s0, w.server)
      invariant h in w.server.reading
      decreases if eof then 0 else 1 + |w.server.reading[h]|, inFlight
    {
      inFlight := inFlight - 1;
      ghost var s := w.server;
      ghost var own := [GetSegment(h, bufferLength)];
      ghost var ahead := w.sent[..w.deferredResponses];
      assert ahead + own == own;
      var seg := ReadSegment(w, blob, bufferLength, inFlight + 1, parts, eof, content);
      StillUndisturbed(s0, owed, s, GetSegment(h, bufferLength), w.server, h);
      if seg.Thrown? {
        Abort(w, blob, inFlight, bufferLength);
        return Thrown(seg.error), h;
      }
      var (data, last) := seg.value;
      Filed(w.server, h, parts, eof, content, data, last);
      if !eof {
        if data != [] { parts := parts + [data]; }
        if last {
          eof := true;
        } else {
          w.Write(GetSegment(blob, bufferLength));
          inFlight := inFlight + 1;
          w.Flush();
        }
      }
    }
    AtTheEnd(w.server, h, parts, eof, content);
    CloseDeferred(w, blob);
    res := Returned(Flatten(parts));
  }

  /** A read given up: what is in flight is drained, the handle released. */
  method Abort(w: WireConnection, h: Handle, inFlight: nat, ghost bufferLength: nat)
    requires w.Idle() && w.writer == [] && InWindow(w, h, bufferLength, inFlight)
    modifies w
    ensures w.Idle() && w.lost == old(w.lost) && w.Owed() == w.deferredResponses && w.peak == old(w.peak)
    ensures w.server.store == old(w.server).store
  {
    hide OnlySegments, WireConnection.Idle, Walked;
    Drain(w, inFlight, h, bufferLength);
    CloseDeferred(w, h);
  }

  /** Write `count` segment requests. */
  method RequestSegments(w: WireConnection, h: Handle, bufferLength: nat, count: nat)
    requires w.Idle()
    modifies w`writer, w`log
    ensures w.Idle() && w.writer == old(w.writer) + OnlySegments(h, bufferLength, count)
  {
    var k := 0;
    while k < count
      invariant 0 <= k <= count && w.Idle()
      invariant w.writer == old(w.writer) + OnlySegments(h, bufferLength, k)
    {
      w.Write(GetSegment(h, bufferLength));
      k := k + 1;
    }
  }

  /**
   * One window on an open blob: `count` segment requests in a single flush, then
   * their responses. What comes back continues the blob exactly where it stood.
   */
  method ReadBlobWindow(w: WireConnection, h: Handle, chunkSize: int, count: nat)
    returns (res: Outcome<(seq<Bytes>, bool)>)
    requires w.InSync() && h in w.server.reading
    requires forall q | q in w.sent + w.writer :: !Targets(q, h)
    modifies w
    ensures w.Idle() && w.lost >= old(w.lost) && w.writer == []
    ensures w.Owed() == w.deferredResponses + (w.lost - old(w.lost))
    ensures res.Returned? ==>
      var (chunks, eof) := res.value;
      && w.lost == old(w.lost) && (count > 0 ==> w.sent == []) && h in w.server.reading &&
        Keeps(old(w.server), w.server)
      && Flatten(chunks) + Content(w.server.reading[h]) == Content(old(w.server).reading[h])
      && (eof ==> w.server.reading[h] == [])
      && (count > 0 && !eof ==> |w.server.reading[h]| < |old(w.server).reading[h]|)
    ensures res.Thrown? && w.lost == old(w.lost) ==>
      res.error.Refused? && w.sent == [] && Keeps(old(w.server), w.server)
    ensures w.lost == old(w.lost) ==>
      old(w.history) <= w.history && Walked(old(w.server), w.server, h, w.history[|old(w.history)|..])
  {
    hide Evolves, PlainStep, Walked, WireConnection.Idle, BufferLength, OnlySegments, ReadingOn, Flatten, Content;
    ghost var owed := w.sent + w.writer;
    var bufferLength := BufferLength(chunkSize);
    RequestSegments(w, h, bufferLength, count);
    w.Flush();
    assert w.sent == owed + OnlySegments(h, bufferLength, count);
    var chunks: seq<Bytes>, eof, remaining := [], false, count;
    ghost var content, before := Content(w.server.reading[h]), w.history;
    NothingRead(w.server, h);
    WalkedNone(w.server, h);
    assert w.history[|before|..] == [];
    while remaining > 0
      invariant before <= w.history && Walked(old(w.server), w.server, h, w.history[|before|..])
      invariant 0 <= remaining <= count && w.Idle() && w.writer == [] && w.lost == old(w.lost)
      invariant |w.sent| == w.deferredResponses + remaining
      invariant remaining == count ==>
        w.sent == owed + OnlySegments(h, bufferLength, count) && w.server == old(w.server)
      invariant remaining < count ==> w.sent == OnlySegments(h, bufferLength, remaining) && w.deferredResponses == 0
      invariant ReadingOn(w.server, h, chunks, eof, content) && Keeps(old(w.server), w.server)
      invariant h in w.server.reading
      invariant !eof && remaining < count ==> |w.server.reading[h]| < |old(w.server).reading[h]|
    {
      remaining := remaining - 1;
      AtTheEnd(w.server, h, chunks, eof, content);
      assert w.sent[w.deferredResponses..] == OnlySegments(h, bufferLength, remaining + 1);
      ghost var s, mid := w.server, w.history;
      var seg := ReadSegment(w, h, bufferLength, remaining + 1, chunks, eof, content);
      if w.lost == old(w.lost) { WalkedOn(old(w.server), s, w.server, h, before, mid, w.history); }
      if seg.Thrown? {
        s, mid := w.server, w.history;
        if w.lost == old(w.lost) { InWindowNow(w, h, bufferLength, remaining); }
        Drain(w, remaining, h, bufferLength);
        if w.lost == old(w.lost) { WalkedOn(old(w.server), s, w.server, h, before, mid, w.history); }
        return Thrown(seg.error);
      }
      var (data, last) := seg.value;
      Filed(w.server, h, chunks, eof, content, data, last);
      if !eof {
        if data != [] { chunks := chunks + [data]; }
        eof := last;
      }
    }
    AtTheEnd(w.server, h, chunks, eof, content);
    res := Returned((chunks, eof));
  }
}
