/**
 * The lazy blob handle (api/blob.ts): a forward cursor that `head` leaves open
 * and `buffer` resumes, and a cache once the whole blob has been seen.
 */
module BlobCursor {
  import opened Results
  import opened WireTypes
  import opened Framing
  import opened Server
  import opened Wire
  import opened BlobProtocol

  datatype ReadError = TransactionClosed | OnWire(error: Error) | FetchFailed(error: Error)
  datatype Read = Got(value: Bytes) | Failed(error: ReadError)

  function Prefix(b: Bytes, n: int): Bytes { if n <= 0 then [] else b[..Min(n, |b|)] }

  function CeilDiv(a: nat, b: nat): (r: nat)
    requires b > 0
    ensures r * b >= a
  {
    (a + b - 1) / b
  }

  class Blob {
    const wire: WireConnection
    const tx: Handle
    const id: BlobId
    const chunkSize: nat
    /** The inline blob cache's entry for this blob, if the server volunteered one. */
    var inlined: Option<Bytes>
    /** What the read-ahead hands over if it tracks this blob: its bytes, or the error of its fetch. */
    var ahead: Option<Outcome<Bytes>>

    var cached: Option<Bytes>
    var consumed: seq<Bytes>
    var consumedBytes: nat
    var cursorHandle: Option<Handle>
    var atEof: bool

    constructor (w: WireConnection, tx: Handle, id: BlobId, chunkSize: nat, inlined: Option<Bytes>,
        ahead: Option<Outcome<Bytes>>)
      requires w.InSync() && id in w.server.store && chunkSize > 0
      requires inlined.Some? ==> inlined.value == w.server.store[id]
      requires ahead.Some? && ahead.value.Returned? ==> ahead.value.value == w.server.store[id]
      ensures wire == w && this.tx == tx && this.id == id && this.chunkSize == chunkSize
      ensures this.inlined == inlined && this.ahead == ahead
      ensures Valid() && Content() == w.server.store[id]
      ensures cursorHandle.None? && cached.None? && consumed == [] && consumedBytes == 0 && !atEof
    {
      wire, this.tx, this.id, this.chunkSize, this.inlined, this.ahead := w, tx, id, chunkSize, inlined, ahead;
      cached, consumed, consumedBytes, cursorHandle, atEof := None, [], 0, None, false;
    }

    /** What the blob holds. */
    ghost function Content(): Bytes
      requires id in wire.server.store
      reads this, wire
    {
      wire.server.store[id]
    }

    /** What others hold of the blob is the blob. */
    ghost predicate Local()
      requires id in wire.server.store
      reads this, wire
    {
      && (inlined.Some? ==> inlined.value == Content())
      && (ahead.Some? && ahead.value.Returned? ==> ahead.value.value == Content())
    }

    ghost predicate Valid()
      reads this, wire
    {
      && wire.InSync() && id in wire.server.store && chunkSize > 0
      && Local()
      && (cached.Some? ==> cached.value == Content())
      && (cached.None? ==>
        && consumedBytes == |Flatten(consumed)|
        && (atEof ==> cursorHandle.None? && Flatten(consumed) == Content())
        && (cursorHandle.None? && !atEof ==> consumed == [])
        && (cursorHandle.Some? ==> !atEof && Positioned(cursorHandle.value)))
    }

    /** The open cursor stands right behind what was consumed. */
    ghost predicate Positioned(h: Handle)
      requires id in wire.server.store
      reads this, wire
    {
      && h in wire.server.reading
      && Flatten(consumed) + Server.Content(wire.server.reading[h]) == Content()
      && forall q | q in wire.sent + wire.writer :: !Targets(q, h)
    }

    /**
     * After a read that failed on the wire: nothing was filed, and the cursor, if it is
     * open, stands `missed` further on, which the failed window brought in vain.
     */
    ghost predicate Interrupted(missed: Bytes)
      reads this, wire
    {
      && wire.InSync() && id in wire.server.store && chunkSize > 0 && cached.None? && !atEof
      && Local()
      && consumedBytes == |Flatten(consumed)| && (cursorHandle.None? ==> consumed == [] && missed == [])
      && (cursorHandle.Some? ==>
        && cursorHandle.value in wire.server.reading
        && (forall q | q in wire.sent + wire.writer :: !Targets(q, cursorHandle.value))
        && Flatten(consumed) + (missed + Server.Content(wire.server.reading[cursorHandle.value])) == Content())
    }

    /** What the answers to a window brought of the blob that the cursor is on. */
    ghost function Brought(window: seq<Exchange>): Bytes
      reads this
    {
      if cursorHandle.Some? then Carried(window, cursorHandle.value) else []
    }

    /** `window` is what came in last, and the cursor is off by what it brought. */
    ghost predicate FailedWindow(window: seq<Exchange>)
      reads this, wire
    {
      && |window| <= |wire.history| && wire.history[|wire.history| - |window|..] == window
      && Interrupted(Brought(window))
    }

    /**
     * Whether the blob can be read on after that: if and only if no answer of the window
     * carried data. Otherwise the next read leaves that out, and only `Close` helps.
     */
    lemma ReadableExactly(window: seq<Exchange>)
      requires FailedWindow(window)
      ensures Valid() <==> Brought(window) == []
    {
      if cursorHandle.Some? {
        var (missed, left) := (Brought(window), Server.Content(wire.server.reading[cursorHandle.value]));
        assert |Flatten(consumed) + (missed + left)| == |Flatten(consumed)| + |missed| + |left|;
        if missed == [] { assert missed + left == left; }
      }
    }

    method TakeInline() returns (data: Option<Bytes>)
      modifies this`inlined
      ensures data == old(inlined) && inlined == None && (old(Valid()) ==> Valid())
    {
      data := inlined;
      inlined := None;
    }

    /** The read-ahead hands a blob over once. */
    method TakeAhead() returns (data: Option<Outcome<Bytes>>)
      modifies this`ahead
      ensures data == old(ahead) && ahead == None && (old(Valid()) ==> Valid())
    {
      data := ahead;
      ahead := None;
    }

    /** End of the blob: the handle is closed with the next packet. */
    method FinishCursor()
      requires wire.Idle()
      modifies this`atEof, this`cursorHandle, wire`writer, wire`log, wire`deferredResponses
      ensures atEof && cursorHandle == None && wire.Idle()
      ensures wire.Owed() - wire.deferredResponses == old(wire.Owed() - wire.deferredResponses)
    {
      atEof := true;
      if cursorHandle.Some? {
        CloseDeferred(wire, cursorHandle.value);
        cursorHandle := None;
      }
    }

    /** Read one window behind the cursor and file what it brings. */
    method Advance(count: nat) returns (error: Option<Error>)
      requires Valid() && cached.None? && cursorHandle.Some? && count > 0
      modifies this`consumed, this`consumedBytes, this`atEof, this`cursorHandle, wire
      ensures Synced(old(wire.lost), old(wire.Owed() - wire.deferredResponses))
      ensures error.None? ==> Valid() && Content() == old(Content()) && wire.lost == old(wire.lost)
      ensures error.None? && !atEof ==>
        && cursorHandle == old(cursorHandle)
        && |wire.server.reading[cursorHandle.value]| < |old(wire.server).reading[old(cursorHandle).value]|
      ensures error.Some? && wire.lost == old(wire.lost) ==>
        && error.value.Refused? && |old(wire.history)| <= |wire.history|
        && FailedWindow(wire.history[|old(wire.history)|..])
    {
      var h := cursorHandle.value;
      ghost var content := Content();
      var res := ReadBlobWindow(wire, h, chunkSize, count);
      if res.Thrown? { return Some(res.error); }
      var (chunks, eof) := res.value;
      Resumed(consumed, chunks, Server.Content(wire.server.reading[h]), content);
      consumed := consumed + chunks;
      consumedBytes := |Flatten(consumed)|;
      if eof {
        NothingLeft(wire.server.reading[h]);
        FinishCursor();
      }
      error := None;
    }

    /** A cursor that has seen the whole blob becomes the cache. */
    method PromoteIfComplete()
      requires Valid()
      modifies this`cached, this`consumed
      ensures Valid() && Content() == old(Content())
      ensures cached == if old(atEof) && old(cached).None? then Some(Content()) else old(cached)
      ensures cached.None? ==> consumed == old(consumed)
    {
      if atEof && cached.None? {
        cached := Some(Flatten(consumed));
        consumed := [];
      }
    }

    method OpenCursor() returns (error: Option<Error>)
      requires Valid() && cached.None? && cursorHandle.None? && !atEof
      modifies this`cursorHandle, wire
      ensures Synced(old(wire.lost), old(wire.Owed() - wire.deferredResponses))
      ensures error.None? ==>
        Valid() && cursorHandle.Some? && Content() == old(Content()) && wire.lost == old(wire.lost)
      ensures error.Some? && wire.lost == old(wire.lost) ==> error.value.Refused? && FailedWindow([])
    {
      ghost var owed := wire.sent + wire.writer;
      var r := Open(wire, tx, id);
      if wire.lost == old(wire.lost) { StoreKept(old(wire.server), owed, wire.server); }
      if r.Bad? { return Some(r.error); }
      cursorHandle := Some(r.handle);
      error := None;
    }

    /**
     * The first `n` bytes, fewer when the blob is shorter. The handle stays open
     * behind what was read, so that later reads resume there.
     */
    method Head(n: int, alive: bool) returns (res: Read, ghost window: seq<Exchange>)
      requires Valid()
      modifies this, wire
      ensures Synced(old(wire.lost), old(wire.Owed() - wire.deferredResponses))
      ensures res.Got? ==>
        Valid() && Content() == old(Content()) && wire.lost == old(wire.lost) && res.value == Prefix(Content(), n)
      ensures res.Failed? && res.error.OnWire? && wire.lost == old(wire.lost) ==>
        res.error.error.Refused? && FailedWindow(window) && (Valid() <==> Brought(window) == [])
      ensures res.Failed? && res.error.TransactionClosed? ==> !alive && Valid() && Content() == old(Content())
      ensures res.Failed? && res.error.FetchFailed? ==>
        Valid() && Content() == old(Content()) && old(ahead) == Some(Result.Thrown(res.error.error))
    {
      window := [];
      if n <= 0 { return Got([]), window; }
      if cached.Some? { return Got(cached.value[..Min(n, |cached.value|)]), window; }
      if !alive { return Failed(TransactionClosed), window; }
      var local := TakeInline();
      if local.Some? {
        cached := local;
        return Got(local.value[..Min(n, |local.value|)]), window;
      }
      if ahead.Some? {
        var full;
        full, window := Buffer(alive);
        return if full.Got? then Got(full.value[..Min(n, |full.value|)]) else full, window;
      }
      if !atEof && consumedBytes < n {
        var error;
        error, window := ReadUpTo(n);
        if error.Some? {
          if wire.lost == old(wire.lost) { ReadableExactly(window); }
          return Failed(OnWire(error.value)), window;
        }
      }
      PromoteIfComplete();
      var have := if cached.Some? then cached.value else Flatten(consumed);
      res := Got(have[..Min(n, |have|)]);
    }

    /** Open the cursor if need be, and read windows until `n` bytes are in or the blob ends. */
    method ReadUpTo(n: nat) returns (error: Option<Error>, ghost window: seq<Exchange>)
      requires Valid() && cached.None? && !atEof
      modifies this`consumed, this`consumedBytes, this`atEof, this`cursorHandle, wire
      ensures Synced(old(wire.lost), old(wire.Owed() - wire.deferredResponses))
      ensures error.None? ==> Valid() && Content() == old(Content()) && wire.lost == old(wire.lost)
      ensures error.None? ==> atEof || consumedBytes >= n
      ensures error.Some? && wire.lost == old(wire.lost) ==> error.value.Refused? && FailedWindow(window)
    {
      hide Positioned, Interrupted, FailedWindow;
      window := [];
      if cursorHandle.None? {
        error := OpenCursor();
        if error.Some? { return; }
      }
      while !atEof && consumedBytes < n
        invariant Valid() && Content() == old(Content()) && wire.lost == old(wire.lost)
        invariant Synced(old(wire.lost), old(wire.Owed() - wire.deferredResponses)) && (atEof || cursorHandle.Some?)
        decreases if atEof then 0 else 1, if cursorHandle.Some? && cursorHandle.value in wire.server.reading
          then |wire.server.reading[cursorHandle.value]| else 0
      {
        var count := Max(1, CeilDiv(n - consumedBytes, chunkSize));
        OnServer();
        ghost var before := wire.history;
        error := Advance(Min(count, 32));
        if error.Some? { return error, if |before| <= |wire.history| then wire.history[|before|..] else []; }
        if !atEof { OnServer(); }
      }
      error := None;
    }

    lemma OnServer()
      requires Valid() && cached.None? && cursorHandle.Some?
      ensures cursorHandle.value in wire.server.reading
    {
    }

    /** The whole blob, resumed from an open cursor or read in one go; cached from then on. */
    method Buffer(alive: bool) returns (res: Read, ghost window: seq<Exchange>)
      requires Valid()
      modifies this, wire
      ensures Synced(old(wire.lost), old(wire.Owed() - wire.deferredResponses))
      ensures res.Got? ==>
        Valid() && Content() == old(Content()) && wire.lost == old(wire.lost) && res.value == Content()
      ensures res.Got? ==> cached == Some(Content())
      ensures res.Failed? && res.error.OnWire? && wire.lost == old(wire.lost) ==>
        res.error.error.Refused? && FailedWindow(window) && (Valid() <==> Brought(window) == [])
      ensures res.Failed? && res.error.TransactionClosed? ==> !alive && Valid() && Content() == old(Content())
      ensures res.Failed? && res.error.FetchFailed? ==>
        Valid() && Content() == old(Content()) && old(ahead) == Some(Result.Thrown(res.error.error))
    {
      hide Interrupted, FailedWindow, Positioned, Brought, WireConnection.Idle;
      window := [];
      if cached.Some? { return Got(cached.value), window; }
      if !alive { return Failed(TransactionClosed), window; }
      var local := TakeInline();
      if local.Some? {
        cached := local;
        return Got(local.value), window;
      }
      var fetched := TakeAhead();
      if fetched.Some? {
        if fetched.value.Thrown? { return Failed(FetchFailed(fetched.value.error)), window; }
        cached := Some(fetched.value.value);
        return Got(fetched.value.value), window;
      }
      var data: Bytes;
      if cursorHandle.None? && consumedBytes == 0 && !atEof {
        var whole := ReadWhole();
        if whole.Thrown? { return Failed(OnWire(whole.error)), window; }
        data := whole.value;
      } else {
        if !atEof {
          var error;
          error, window := ReadRest();
          if error.Some? {
            if wire.lost == old(wire.lost) { ReadableExactly(window); }
            return Failed(OnWire(error.value)), window;
          }
        }
        data := Flatten(consumed);
      }
      cached := Some(data);
      consumed := [];
      res := Got(data);
    }

    /** The whole blob in one go, on a handle of its own. */
    method ReadWhole() returns (whole: Outcome<Bytes>)
      requires Valid() && cached.None? && !atEof && cursorHandle.None?
      modifies wire
      ensures Synced(old(wire.lost), old(wire.Owed() - wire.deferredResponses))
      ensures whole.Returned? ==>
        Valid() && Content() == old(Content()) && wire.lost == old(wire.lost) && whole.value == Content()
      ensures whole.Thrown? && wire.lost == old(wire.lost) ==>
        whole.error.Refused? && FailedWindow([]) && Valid() && Brought([]) == []
    {
      ghost var h;
      whole, h := ReadBlob(wire, tx, id, chunkSize);
    }

    /** Read full windows behind the open cursor until the blob ends. */
    method ReadRest() returns (error: Option<Error>, ghost window: seq<Exchange>)
      requires Valid() && cached.None? && !atEof && cursorHandle.Some?
      modifies this`consumed, this`consumedBytes, this`atEof, this`cursorHandle, wire
      ensures Synced(old(wire.lost), old(wire.Owed() - wire.deferredResponses))
      ensures error.None? ==> Valid() && Content() == old(Content()) && wire.lost == old(wire.lost) && atEof
      ensures error.Some? && wire.lost == old(wire.lost) ==> error.value.Refused? && FailedWindow(window)
    {
      hide Positioned, Interrupted, FailedWindow;
      window := [];
      while !atEof
        invariant Valid() && Content() == old(Content()) && wire.lost == old(wire.lost)
        invariant Synced(old(wire.lost), old(wire.Owed() - wire.deferredResponses)) && (atEof || cursorHandle.Some?)
        decreases if atEof then 0 else 1, if cursorHandle.Some? && cursorHandle.value in wire.server.reading
          then |wire.server.reading[cursorHandle.value]| else 0
      {
        OnServer();
        ghost var before := wire.history;
        error := Advance(32);
        if error.Some? { return error, if |before| <= |wire.history| then wire.history[|before|..] else []; }
        if !atEof { OnServer(); }
      }
      error := None;
    }

    /** Give an unfinished cursor up; a later read starts again at the first byte. */
    method Close(alive: bool)
      requires Valid() || exists missed :: Interrupted(missed)
      modifies this`cursorHandle, this`consumed, this`consumedBytes, this`atEof, wire`writer, wire`log,
        wire`deferredResponses
      ensures Valid() && Content() == old(Content()) && wire.lost == old(wire.lost)
      ensures cursorHandle.None? && cached == old(cached)
      ensures wire.log == old(wire.log) + if old(cursorHandle).Some? && alive
        then [CloseBlob(old(cursorHandle).value)] else []
    {
      var h := cursorHandle;
      cursorHandle, consumed, consumedBytes, atEof := None, [], 0, false;
      if h.None? { return; }
      if alive { CloseDeferred(wire, h.value); }
    }

    /** What an operation leaves on the wire, however it ends. */
    ghost predicate Synced(lost: nat, excess: int)
      reads this, wire
    {
      wire.Idle() && wire.lost >= lost && wire.Owed() - wire.deferredResponses == excess + (wire.lost - lost)
    }
  }

  /** A blob of two bytes, open as `h`, of which these replies are still to come. */
  function Holding(id: BlobId, h: Handle, replies: Replies): State {
    State(map[id := [1, 2]], map[h := replies], map[], {})
  }

  function TwoAnswers(h: Handle, n: nat, gdsCode: int): seq<Exchange> {
    [Exchange(GetSegment(h, n), [Resp(Good(0, 0, Frame([1])))]),
     Exchange(GetSegment(h, n), [Resp(Bad(Refused(gdsCode)))])]
  }

  /** Both answers are legal, and bring one byte between them. */
  lemma LegalAnswers(id: BlobId, h: Handle, n: nat, gdsCode: int)
    ensures var (xs, left) := (TwoAnswers(h, n, gdsCode), Holding(id, h, [Frame([2])]));
      && Answers(Holding(id, h, [Frame([1]), Frame([2])]), xs[0].request, left, xs[0].packets)
      && Answers(left, xs[1].request, left, xs[1].packets)
      && Carried(xs, h) == [1]
  {
    hide Frame;
    OneByteEach();
    var (xs, two) := (TwoAnswers(h, n, gdsCode), [Frame([1]), Frame([2])]);
    assert two[1..] == [Frame([2])];
    var s := Holding(id, h, two);
    assert s.reading[h := [Frame([2])]] == map[h := [Frame([2])]];
    assert xs == [xs[0]] + [xs[1]];
    CarriedAppend([xs[0]], [xs[1]], h);
    OneCarried(xs[0], h);
    OneCarried(xs[1], h);
  }

  /**
   * A cursor that cannot be read on: of a window of two requests the first is answered
   * with the first of two bytes, the second is refused. What the server still holds
   * is the second byte, which the next read would take for the first. `LegalAnswers`
   * says that the server may answer so.
   */
  method LostByte(tx: Handle, id: BlobId, h: Handle, gdsCode: int) returns (b: Blob, ghost window: seq<Exchange>)
    ensures b.FailedWindow(window) && b.cursorHandle == Some(h) && b.wire.server == Holding(id, h, [Frame([2])])
    ensures b.id == id && window == TwoAnswers(h, BufferLength(1), gdsCode)
    ensures b.Brought(window) == [1] && !b.Valid()
  {
    hide Frame, Unframe, Carried, TwoAnswers, Server.Content, BufferLength, Holding;
    Held(id, h, [Frame([1]), Frame([2])]);
    Held(id, h, [Frame([2])]);
    var w := new WireConnection(Holding(id, h, [Frame([1]), Frame([2])]));
    b := new Blob(w, tx, id, 1, None, None);
    b.cursorHandle := Some(h);
    w.Write(GetSegment(h, BufferLength(1)));
    w.Write(GetSegment(h, BufferLength(1)));
    w.Flush();
    window := TwoAnswers(h, BufferLength(1), gdsCode);
    w.server, w.sent, w.history := Holding(id, h, [Frame([2])]), [], window;
    OneByteOff(b, h, gdsCode);
  }

  lemma Held(id: BlobId, h: Handle, replies: Replies)
    ensures var s := Holding(id, h, replies);
      s.Valid() && id in s.store && s.store[id] == [1, 2] && h in s.reading && s.reading[h] == replies
  {
  }

  lemma OneByteOff(b: Blob, h: Handle, gdsCode: int)
    requires b.wire.server == Holding(b.id, h, [Frame([2])])
    requires b.wire.history == TwoAnswers(h, BufferLength(1), gdsCode)
    requires b.wire.Owed() == 0 && b.wire.inbound == [] && b.wire.deferredResponses == 0
    requires b.cursorHandle == Some(h) && b.cached == b.inlined == None && b.ahead == None
    requires b.consumed == [] && b.consumedBytes == 0 && !b.atEof && b.chunkSize == 1
    ensures b.FailedWindow(b.wire.history) && b.Brought(b.wire.history) == [1] && !b.Valid()
  {
    hide Frame, Unframe, Carried, TwoAnswers, Server.Content, BufferLength, Holding, Answers, Blob.Valid;
    Held(b.id, h, [Frame([2])]);
    OneByteEach();
    LegalAnswers(b.id, h, BufferLength(1), gdsCode);
    var history := b.wire.history;
    assert history[|history| - |history|..] == history;
    assert [] + ([1] + [2]) == [1, 2];
    b.ReadableExactly(history);
  }

  lemma OneByteEach()
    ensures Unframe(Frame([1])) == [1] && Unframe(Frame([2])) == [2]
    ensures Server.Content([Frame([2])]) == [2] && Server.Content([Frame([1]), Frame([2])]) == [1, 2]
  {
    UnframeFrame([1], []);
    UnframeFrame([2], []);
    assert Frame([1]) + [] == Frame([1]) && Frame([2]) + [] == Frame([2]);
    assert [Frame([1]), Frame([2])][1..] == [Frame([2])] && [Frame([2])][1..] == [];
  }

  lemma Resumed(consumed: seq<Bytes>, chunks: seq<Bytes>, left: Bytes, content: Bytes)
    requires Flatten(consumed) + (Flatten(chunks) + left) == content
    ensures Flatten(consumed + chunks) + left == content
  {
    FlattenAppend(consumed, chunks);
    assert (Flatten(consumed) + Flatten(chunks)) + left == Flatten(consumed) + (Flatten(chunks) + left);
  }

  lemma NothingLeft(left: Replies)
    ensures left == [] ==> Server.Content(left) == []
  {
  }
}
