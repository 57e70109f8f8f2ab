/**
 * Blob uploads (blob.ts, writeBlob and writeBlobStream): data is re-framed into
 * segments, and at most PIPELINE_DEPTH of them await their responses.
 */
module BlobUpload {
  import opened Results
  import opened WireTypes
  import opened Framing
  import opened Server
  import opened Wire
  import opened BlobProtocol

  type Segment = b: Bytes | |b| <= MAX_SEGMENT_SIZE - 2

  /** What a caller streams in: chunks of any size, then the end or a failure. */
  datatype Source = Source(chunks: seq<Bytes>, fails: bool)

  function SegmentSize(chunkSize: int): (n: nat)
    ensures 1 <= n <= MAX_SEGMENT_SIZE - 2
  {
    Min(Max(chunkSize, 1), MAX_SEGMENT_SIZE - 2)
  }

  function Segmented(h: Handle, segs: seq<Segment>): (qs: seq<Request>)
    ensures |qs| == |segs|
  {
    seq(|segs|, i requires 0 <= i < |segs| => BatchSegments(h, Frame(segs[i])))
  }

  /** Full segments, except that the last one may be short but not empty. */
  predicate FullSegments(segs: seq<Bytes>, size: nat) {
    && (forall i | 0 <= i < |segs| - 1 :: |segs[i]| == size)
    && (|segs| > 0 ==> 0 < |segs[|segs| - 1]| <= size)
  }

  /** Blob `id` is being written through `h`; with `qs` carried out it holds `written`. */
  ghost predicate Uploading(s: State, h: Handle, id: BlobId, qs: seq<Request>, written: Bytes) {
    && h in s.writing && s.writing[h].id == id
    && s.writing[h].content + Payload(qs) == written
    && forall i | 0 <= i < |qs| :: qs[i].BatchSegments? && qs[i].blob == h
  }

  lemma UploadPush(s: State, h: Handle, id: BlobId, qs: seq<Request>, written: Bytes, chunk: Segment)
    requires Uploading(s, h, id, qs, written)
    ensures Uploading(s, h, id, qs + [BatchSegments(h, Frame(chunk))], written + chunk)
  {
    hide Payload, Unframe, Frame;
    UnframeOne(chunk);
    PayloadPush(qs, BatchSegments(h, Frame(chunk)));
    Assoc(s.writing[h].content, Payload(qs), chunk);
  }

  lemma UnframeOne(chunk: Segment)
    ensures Unframe(Frame(chunk)) == chunk
  {
    UnframeFrame(chunk, []);
    assert Frame(chunk) + [] == Frame(chunk) && chunk + [] == chunk;
  }

  lemma UploadStep(s: State, h: Handle, id: BlobId, qs: seq<Request>, written: Bytes, s': State, r: Response)
    requires Uploading(s, h, id, qs, written) && |qs| > 0 && PlainStep(s, qs[0], s', r)
    ensures r.Bad? ==> r.error.Refused?
    ensures r.Good? ==> Uploading(s', h, id, qs[1..], written)
  {
    if r.Good? {
      Assoc(s.writing[h].content, Unframe(qs[0].framed), Payload(qs[1..]));
    }
  }

  /** Between two segments of an upload. */
  ghost predicate Sending(w: WireConnection, h: Handle, id: BlobId, inFlight: nat, segs: seq<Segment>,
        log0: seq<Request>)
    reads w
  {
    && w.Idle() && w.deferredResponses == 0 && w.Owed() == inFlight < PIPELINE_DEPTH
    && Uploading(w.server, h, id, w.sent + w.writer, Flatten(segs))
    && w.log == log0 + Segmented(h, segs)
  }

  /** Frame one segment and write it; with a full window, flush and await the oldest response. */
  method SendSegment(w: WireConnection, h: Handle, chunk: Segment, inFlight: nat,
      ghost id: BlobId, ghost segs: seq<Segment>, ghost log0: seq<Request>)
    returns (inFlight': nat, error: Option<Error>)
    requires Sending(w, h, id, inFlight, segs, log0)
    modifies w
    ensures w.Idle() && w.deferredResponses == 0 && w.lost == old(w.lost)
    ensures w.Owed() == inFlight' < PIPELINE_DEPTH && w.peak <= Max(old(w.peak), PIPELINE_DEPTH)
    ensures Keeps(old(w.server), w.server)
    ensures error.None? ==> Sending(w, h, id, inFlight', segs + [chunk], log0)
    ensures error.Some? ==> error.value.Refused? && w.writer == []
  {
    hide PlainStep, Uploading, Flatten, Frame, State.Valid;
    ghost var out := w.sent + w.writer;
    ghost var q := BatchSegments(h, Frame(chunk));
    UploadPush(w.server, h, id, out, Flatten(segs), chunk);
    FlattenPush(segs, chunk);
    assert Segmented(h, segs + [chunk]) == Segmented(h, segs) + [q];
    w.Write(BatchSegments(h, Frame(chunk)));
    inFlight', error := inFlight + 1, None;
    assert w.sent + w.writer == out + [q];
    if inFlight' >= PIPELINE_DEPTH {
      w.Flush();
      inFlight' := inFlight' - 1;
      ghost var s, all := w.server, w.sent;
      assert all == out + [q] && all[0] in w.sent;
      var r;
      ghost var mid;
      r, mid := w.ReadResponse();
      UploadStep(s, h, id, all, Flatten(segs + [chunk]), w.server, r);
      PlainKeeps(s, all[0], w.server, r);
      assert w.sent + w.writer == all[1..];
      if r.Bad? { error := Some(r.error); }
    }
  }

  /**
   * Close the blob behind its segments and await everything in flight. Once the
   * close has answered, the store holds the blob.
   */
  method Finish(w: WireConnection, h: Handle, inFlight: nat, ghost id: BlobId, ghost segs: seq<Segment>,
        ghost log0: seq<Request>)
    returns (inFlight': nat, error: Option<Error>)
    requires Sending(w, h, id, inFlight, segs, log0)
    modifies w
    ensures w.Idle() && w.deferredResponses == 0 && w.lost == old(w.lost)
    ensures w.writer == [] && |w.sent| == inFlight' <= PIPELINE_DEPTH && w.peak <= Max(old(w.peak), PIPELINE_DEPTH)
    ensures w.log == log0 + Segmented(h, segs) + [CloseBlob(h)]
    ensures Keeps(old(w.server), w.server)
    ensures error.None? ==> inFlight' == 0 && id in w.server.store && w.server.store[id] == Flatten(segs)
    ensures error.Some? ==> error.value.Refused?
  {
    hide PlainStep, Uploading, Flatten, Took, Evolves, Segmented;
    ghost var written := Flatten(segs);
    w.Write(CloseBlob(h));
    inFlight', error := inFlight + 1, None;
    ghost var left := w.sent + w.writer[..|w.writer| - 1];
    assert w.sent + w.writer == left + [CloseBlob(h)];
    w.Flush();
    while inFlight' > 0
      invariant w.Idle() && w.deferredResponses == 0 && w.lost == old(w.lost) && w.writer == []
      invariant |w.sent| == inFlight' <= PIPELINE_DEPTH && w.peak <= Max(old(w.peak), PIPELINE_DEPTH)
      invariant w.log == log0 + Segmented(h, segs) + [CloseBlob(h)]
      invariant Keeps(old(w.server), w.server)
      invariant inFlight' > 0 ==> w.sent == left + [CloseBlob(h)] && Uploading(w.server, h, id, left, written)
      invariant inFlight' == 0 ==> id in w.server.store && w.server.store[id] == written
    {
      inFlight' := inFlight' - 1;
      ghost var s, all := w.server, w.sent;
      assert all[0] in w.sent;
      var r;
      ghost var mid;
      r, mid := w.ReadResponse();
      PlainKeeps(s, all[0], w.server, r);
      if left == [] {
        CloseStep(s, h, id, written, w.server, r);
      } else {
        assert all[0] == left[0] && all[1..] == left[1..] + [CloseBlob(h)];
        UploadStep(s, h, id, left, written, w.server, r);
        left := left[1..];
      }
      if r.Bad? { return inFlight', Some(r.error); }
    }
  }

  lemma CloseStep(s: State, h: Handle, id: BlobId, written: Bytes, s': State, r: Response)
    requires Uploading(s, h, id, [], written) && s.Valid() && PlainStep(s, CloseBlob(h), s', r)
    ensures r.Bad? ==> r.error.Refused?
    ensures r.Good? ==> id in s'.store && s'.store[id] == written
  {
    assert s.writing[h].content + [] == s.writing[h].content;
  }

  /** op_create_blob2, awaited: the handle to write through and the new blob's id. */
  method Create(w: WireConnection, tx: Handle) returns (r: Response)
    requires w.InSync()
    modifies w
    ensures w.Idle() && w.writer == [] && w.lost >= old(w.lost)
    ensures |w.sent| == w.deferredResponses + (w.lost - old(w.lost))
    ensures w.lost > old(w.lost) ==> r.Bad?
    ensures w.peak <= Max(old(w.peak), old(w.deferredResponses) + 1)
    ensures w.log == old(w.log) + [CreateBlob(tx)]
    ensures r.Good? ==> Sending(w, r.handle, r.oid, 0, [], w.log) && r.oid !in old(w.server).store
    ensures r.Bad? && w.lost == old(w.lost) ==> r.error.Refused?
    ensures w.lost == old(w.lost) ==> Keeps(old(w.server), w.server)
  {
    ghost var owed := w.sent + w.writer;
    w.Write(CreateBlob(tx));
    w.Flush();
    assert w.sent == owed + [CreateBlob(tx)];
    ghost var mid;
    r, mid := w.ReadResponse();
    if w.lost == old(w.lost) { PlainKeeps(mid, CreateBlob(tx), w.server, r); }
  }

  /** An upload given up: what is in flight is drained, the handle released. */
  method Abandon(w: WireConnection, h: Handle, inFlight: nat, closeSent: bool)
    requires w.Idle() && w.deferredResponses == 0 && w.Owed() == inFlight <= PIPELINE_DEPTH
    modifies w
    ensures w.InSync() && w.lost == old(w.lost) && w.peak <= Max(old(w.peak), PIPELINE_DEPTH)
    ensures Keeps(old(w.server), w.server)
    ensures w.sent == [] && w.writer == if closeSent then [] else [CloseBlob(h)]
  {
    w.Flush();
    Drain(w, inFlight, 0, 0);
    if !closeSent { CloseDeferred(w, h); }
  }

  /** Bytes of `pending` and then `buf`, less the segments sent, in order. */
  ghost predicate Conserved(segs: seq<Segment>, pending: seq<Bytes>, total: Bytes, segSize: nat) {
    && Flatten(segs) + Flatten(pending) == total
    && forall i | 0 <= i < |segs| :: |segs[i]| == segSize
  }

  lemma SliceSegment(segs: seq<Segment>, pending: seq<Bytes>, total: Bytes, segSize: nat, all: Bytes, seg: Segment,
        rest: seq<Bytes>)
    requires Conserved(segs, pending, total, segSize)
    requires all == Flatten(pending) && segSize <= |all| && seg == all[..segSize]
    requires rest == if segSize < |all| then [all[segSize..]] else []
    ensures Conserved(segs + [seg], rest, total, segSize)
    ensures Flatten(rest) == all[segSize..]
  {
    hide Flatten;
    var tail := all[segSize..];
    FlattenPush(segs, seg);
    FlattenOne(tail);
    assert all == seg + tail;
    Assoc(Flatten(segs), seg, tail);
  }

  lemma FlattenOne(b: Bytes)
    ensures Flatten([b]) == b && Flatten([]) == []
  {
    FlattenPush([], b);
    assert [] + [b] == [b];
  }

  lemma AppendPending(segs: seq<Segment>, pending: seq<Bytes>, total: Bytes, segSize: nat, buf: Bytes)
    requires Conserved(segs, pending, total, segSize)
    ensures Conserved(segs, pending + [buf], total + buf, segSize)
    ensures |Flatten(pending + [buf])| == |Flatten(pending)| + |buf|
  {
    FlattenPush(pending, buf);
    Assoc(Flatten(segs), Flatten(pending), buf);
  }

  /** Merge one source chunk into the accumulator and send the full segments it completes. */
  method AddChunk(w: WireConnection, h: Handle, segSize: nat, pending: seq<Bytes>, buf: Bytes, inFlight: nat,
      ghost id: BlobId, ghost segs: seq<Segment>, ghost log0: seq<Request>, ghost total: Bytes)
    returns (pending': seq<Bytes>, inFlight': nat, error: Option<Error>, ghost segs': seq<Segment>)
    requires Sending(w, h, id, inFlight, segs, log0) && Conserved(segs, pending, total, segSize)
    requires 0 < segSize <= MAX_SEGMENT_SIZE - 2
    modifies w
    ensures w.Idle() && w.deferredResponses == 0 && w.lost == old(w.lost)
    ensures w.Owed() == inFlight' < PIPELINE_DEPTH && w.peak <= Max(old(w.peak), PIPELINE_DEPTH)
    ensures Keeps(old(w.server), w.server)
    ensures error.None? ==>
      && Sending(w, h, id, inFlight', segs', log0) && Conserved(segs', pending', total + buf, segSize)
      && (|Flatten(pending)| < segSize ==> |Flatten(pending')| < segSize)
    ensures error.Some? ==> error.value.Refused?
  {
    hide Flatten, Uploading, Conserved;
    pending', inFlight', error, segs' := pending, inFlight, None, segs;
    if |buf| == 0 {
      assert total + buf == total;
      return;
    }
    AppendPending(segs, pending, total, segSize, buf);
    pending' := pending + [buf];
    var pendingBytes := |Flatten(pending')|;
    while pendingBytes >= segSize
      invariant w.lost == old(w.lost) && w.peak <= Max(old(w.peak), PIPELINE_DEPTH)
      invariant Keeps(old(w.server), w.server)
      invariant Sending(w, h, id, inFlight', segs', log0) && error.None?
      invariant Conserved(segs', pending', total + buf, segSize) && pendingBytes == |Flatten(pending')|
      decreases pendingBytes
    {
      var all := Flatten(pending');
      inFlight', error := SendSegment(w, h, all[..segSize], inFlight', id, segs', log0);
      if error.Some? { return; }
      var rest := all[segSize..];
      SliceSegment(segs', pending', total + buf, segSize, all, all[..segSize], if |rest| > 0 then [rest] else []);
      segs' := segs' + [all[..segSize]];
      pending' := if |rest| > 0 then [rest] else [];
      pendingBytes := |rest|;
    }
  }

  /**
   * Stream `source` into a new blob. Chunks are merged and sliced into full
   * segments; the source may fail between two chunks.
   */
  method WriteBlobStream(w: WireConnection, tx: Handle, source: Source, chunkSize: int)
    returns (res: Outcome<BlobId>, ghost segs: seq<Segment>, ghost h: Handle)
    requires w.InSync()
    modifies w
    ensures w.Idle() && w.lost >= old(w.lost)
    ensures w.Owed() == w.deferredResponses + (w.lost - old(w.lost))
    ensures w.peak <= Max(old(w.peak), Max(old(w.deferredResponses) + 1, PIPELINE_DEPTH))
    ensures w.lost == old(w.lost) ==> Keeps(old(w.server), w.server)
    ensures res.Returned? ==>
      && !source.fails && w.lost == old(w.lost) && w.Owed() == 0
      && res.value !in old(w.server).store && res.value in w.server.store
      && w.server.store[res.value] == Flatten(source.chunks) == Flatten(segs)
      && FullSegments(segs, SegmentSize(chunkSize))
      && w.log == old(w.log) + [CreateBlob(tx)] + Segmented(h, segs) + [CloseBlob(h)]
    ensures res.Thrown? && w.lost == old(w.lost) ==> res.error.Refused? || (source.fails && res.error == SourceFailed)
  {
    hide Uploading, WireConnection.Idle, Took, Evolves, Segmented;
    segs, h := [], 0;
    var created := Create(w, tx);
    if created.Bad? { return Thrown(created.error), segs, h; }
    var blob, segSize := created.handle, SegmentSize(chunkSize);
    h := blob;
    ghost var log0 := w.log;
    var inFlight, error := 0, None;
    var pending: seq<Bytes>, i := [], 0;
    while i < |source.chunks|
      invariant 0 <= i <= |source.chunks| && h == blob
      invariant w.lost == old(w.lost) && w.peak <= Max(old(w.peak), Max(old(w.deferredResponses) + 1, PIPELINE_DEPTH))
      invariant Keeps(old(w.server), w.server)
      invariant Sending(w, h, created.oid, inFlight, segs, log0) && |Flatten(pending)| < segSize
      invariant Conserved(segs, pending, Flatten(source.chunks[..i]), segSize)
    {
      FlattenPush(source.chunks[..i], source.chunks[i]);
      assert source.chunks[..i] + [source.chunks[i]] == source.chunks[..i + 1];
      pending, inFlight, error, segs := AddChunk(w, blob, segSize, pending, source.chunks[i], inFlight,
        created.oid, segs, log0, Flatten(source.chunks[..i]));
      if error.Some? {
        Abandon(w, blob, inFlight, false);
        return Thrown(error.value), segs, h;
      }
      i := i + 1;
    }
    assert source.chunks[..i] == source.chunks;
    if source.fails {
      Abandon(w, blob, inFlight, false);
      return Thrown(SourceFailed), segs, h;
    }
    if |Flatten(pending)| > 0 {
      var lastSegment := Flatten(pending);
      inFlight, error := SendSegment(w, blob, lastSegment, inFlight, created.oid, segs, log0);
      if error.Some? {
        Abandon(w, blob, inFlight, false);
        return Thrown(error.value), segs, h;
      }
      FlattenPush(segs, lastSegment);
      segs := segs + [lastSegment];
    }
    inFlight, error := Finish(w, blob, inFlight, created.oid, segs, log0);
    if error.Some? {
      Abandon(w, blob, inFlight, true);
      return Thrown(error.value), segs, h;
    }
    res := Returned(created.oid);
  }

  /** Write `data` as a new blob; an empty blob is written as one empty segment. */
  method WriteBlob(w: WireConnection, tx: Handle, data: Bytes, chunkSize: int)
    returns (res: Outcome<BlobId>, ghost segs: seq<Segment>, ghost h: Handle)
    requires w.InSync()
    modifies w
    ensures w.Idle() && w.lost >= old(w.lost)
    ensures w.Owed() == w.deferredResponses + (w.lost - old(w.lost))
    ensures w.peak <= Max(old(w.peak), Max(old(w.deferredResponses) + 1, PIPELINE_DEPTH))
    ensures w.lost == old(w.lost) ==> Keeps(old(w.server), w.server)
    ensures res.Returned? ==>
      && w.lost == old(w.lost) && w.Owed() == 0
      && res.value !in old(w.server).store && res.value in w.server.store &&
        w.server.store[res.value] == data == Flatten(segs)
      && (if data == [] then segs == [[]] else FullSegments(segs, SegmentSize(chunkSize)))
      && w.log == old(w.log) + [CreateBlob(tx)] + Segmented(h, segs) + [CloseBlob(h)]
    ensures res.Thrown? && w.lost == old(w.lost) ==> res.error.Refused?
  {
    hide Uploading, WireConnection.Idle, Segmented, Took, Evolves;
    segs, h := [], 0;
    var created := Create(w, tx);
    if created.Bad? { return Thrown(created.error), segs, h; }
    var blob, segSize := created.handle, SegmentSize(chunkSize);
    h := blob;
    ghost var log0 := w.log;
    var inFlight, error := 0, None;
    var off := 0;
    while off < |data| || off == 0
      invariant h == blob && off >= 0 && (off == 0 ==> segs == []) && (data == [] ==> off == 0)
      invariant w.lost == old(w.lost) && w.peak <= Max(old(w.peak), Max(old(w.deferredResponses) + 1, PIPELINE_DEPTH))
      invariant Keeps(old(w.server), w.server)
      invariant Sending(w, h, created.oid, inFlight, segs, log0) && Flatten(segs) == data[..Min(off, |data|)]
      invariant SlicedTo(segs, segSize, off, |data|)
      decreases |data| - off, off == 0
    {
      var chunk := data[off..Min(off + segSize, |data|)];
      inFlight, error := SendSegment(w, blob, chunk, inFlight, created.oid, segs, log0);
      if error.Some? {
        Drain(w, inFlight, 0, 0);
        CloseDeferred(w, blob);
        return Thrown(error.value), segs, h;
      }
      FlattenPush(segs, chunk);
      segs := segs + [chunk];
      off := off + segSize;
      if |data| == 0 { break; }
    }
    inFlight, error := Finish(w, blob, inFlight, created.oid, segs, log0);
    if error.Some? {
      Drain(w, inFlight, 0, 0);
      return Thrown(error.value), segs, h;
    }
    res := Returned(created.oid);
  }

  /** Slicing has reached `off` of `len`: full segments, the last one cut at the end of the data. */
  predicate SlicedTo(segs: seq<Bytes>, size: nat, off: nat, len: nat) {
    if off <= len then forall i | 0 <= i < |segs| :: |segs[i]| == size
    else FullSegments(segs, size)
  }
}
