/**
 * The bookkeeping of cross-blob pipelining (blob.ts, readBlobs), as values: the
 * per-blob records, the queue of unanswered requests, and what one step does.
 *
 * The queue is read lane by lane: the requests of one blob, in order. A blob's
 * record determines its lane, so a step about one blob leaves the others alone.
 */
module BlobLanes {
  import opened WireTypes
  import opened Framing
  import opened Server
  import opened BlobProtocol

  const OPEN_AHEAD := 10
  const RAMP_START := 4

  datatype BlobState = BlobState(
    handle: Option<Handle>, parts: seq<Bytes>, eof: bool, inFlight: nat, cap: nat, dataSegs: nat)

  const UNTOUCHED := BlobState(None, [], false, 0, RAMP_START, 0)

  datatype Pending = Opening(idx: nat) | Segment(idx: nat) | Closing(idx: nat)

  /** Everything the closures of readBlobs share; `q` is `pending` and then `unflushed`. */
  datatype Book = Book(blobs: seq<BlobState>, q: seq<Pending>, nextToOpen: nat, head: nat, totalInFlight: nat)

  function Lane(q: seq<Pending>, i: nat): seq<Pending>
  {
    if q == [] then []
    else if q[0].idx == i then [q[0]] + Lane(q[1..], i)
    else Lane(q[1..], i)
  }

  lemma {:induction false} LanePush(q: seq<Pending>, p: Pending, i: nat)
    ensures Lane(q + [p], i) == Lane(q, i) + (if p.idx == i then [p] else [])
  {
    if q == [] {
      assert q + [p] == [p];
    } else {
      LanePush(q[1..], p, i);
      assert (q + [p])[1..] == q[1..] + [p];
    }
  }

  lemma {:induction false} InLane(q: seq<Pending>, p: Pending)
    requires p in q
    ensures p in Lane(q, p.idx)
  {
    if q[0] != p { InLane(q[1..], p); }
  }

  function Segs(i: nat, count: nat): seq<Pending>
  {
    seq(count, _ => Segment(i))
  }

  function Sum(ns: seq<nat>): nat
  {
    if ns == [] then 0 else ns[0] + Sum(ns[1..])
  }

  lemma {:induction false} SumUpdate(ns: seq<nat>, i: nat, n: nat)
    requires i < |ns|
    ensures Sum(ns[i := n]) == Sum(ns) - ns[i] + n
  {
    if i > 0 {
      SumUpdate(ns[1..], i - 1, n);
      assert ns[i := n][1..] == ns[1..][i - 1 := n];
    } else {
      assert ns[0 := n][1..] == ns[1..];
    }
  }

  lemma {:induction false} SumZero(ns: seq<nat>)
    requires forall i | 0 <= i < |ns| :: ns[i] == 0
    ensures Sum(ns) == 0
  {
    if ns != [] { SumZero(ns[1..]); }
  }

  lemma {:induction false} SumAtMost(ns: seq<nat>, ms: seq<nat>)
    requires |ns| == |ms| && forall i | 0 <= i < |ns| :: ns[i] <= ms[i]
    ensures Sum(ns) <= Sum(ms)
  {
    if ns != [] { SumAtMost(ns[1..], ms[1..]); }
  }

  lemma {:induction false} SumLess(ns: seq<nat>, ms: seq<nat>, i: nat)
    requires |ns| == |ms| && forall j | 0 <= j < |ns| :: ns[j] <= ms[j]
    requires i < |ns| && ns[i] < ms[i]
    ensures Sum(ns) < Sum(ms)
  {
    if i == 0 { SumAtMost(ns[1..], ms[1..]); } else { SumLess(ns[1..], ms[1..], i - 1); }
  }

  function InFlights(blobs: seq<BlobState>): (ns: seq<nat>)
    ensures |ns| == |blobs|
  {
    seq(|blobs|, i requires 0 <= i < |blobs| => blobs[i].inFlight)
  }

  /** The requests of blob `i` that await answers are what its record says. */
  predicate LaneOk(b: BlobState, i: nat, asked: bool, lane: seq<Pending>) {
    if !asked then b == UNTOUCHED && lane == []
    else if b.handle.None? then b == UNTOUCHED && lane == [Opening(i)]
    else if !b.eof then lane == Segs(i, b.inFlight)
    else lane == Segs(i, b.inFlight) + [Closing(i)] || (lane == [] && b.inFlight == 0)
  }

  /** All requests ever made for blob `i`: opened once, closed once, after its last segment request. */
  predicate ScriptOk(b: BlobState, i: nat, asked: bool, script: seq<Pending>) {
    if !asked then script == [] && b.handle.None?
    else if b.handle.None? then script == [Opening(i)]
    else if !b.eof then |script| >= 1 && script == [Opening(i)] + Segs(i, |script| - 1)
    else |script| >= 2 && script == [Opening(i)] + Segs(i, |script| - 2) + [Closing(i)]
  }

  predicate BookOk(k: Book, n: nat) {
    && |k.blobs| == n && k.head <= k.nextToOpen <= n && k.nextToOpen <= k.head + OPEN_AHEAD
    && (forall i | 0 <= i < k.head :: k.blobs[i].eof)
    && (k.head < n ==> !k.blobs[k.head].eof)
    && (forall i | 0 <= i < n :: k.blobs[i].cap >= 1 && LaneOk(k.blobs[i], i, i < k.nextToOpen, Lane(k.q, i)))
    && (forall p | p in k.q :: p.idx < n)
    && k.totalInFlight == Sum(InFlights(k.blobs)) <= PIPELINE_DEPTH
  }

  // ---- what the server holds for each blob -------------------------------

  /** The server still has the handle of `b` open. */
  predicate Live(b: BlobState, lane: seq<Pending>) { b.handle.Some? && (!b.eof || lane != []) }

  ghost predicate DataOk(b: BlobState, lane: seq<Pending>, s: State, id: BlobId) {
    b.handle.Some? ==>
      && id in s.store
      && (Live(b, lane) ==> b.handle.value in s.reading)
      && (!b.eof ==> Flatten(b.parts) + Content(s.reading[b.handle.value]) == s.store[id])
      && (b.eof ==> Flatten(b.parts) == s.store[id])
      && (b.eof && lane != [] ==> s.reading[b.handle.value] == [])
  }

  ghost predicate AllData(k: Book, s: State, ids: seq<BlobId>) {
    && |ids| == |k.blobs|
    && (forall i | 0 <= i < |ids| :: DataOk(k.blobs[i], Lane(k.q, i), s, ids[i]))
    && (forall i, j | 0 <= i < j < |ids| && Live(k.blobs[i], Lane(k.q, i)) && Live(k.blobs[j], Lane(k.q, j)) ::
          k.blobs[i].handle != k.blobs[j].handle)
  }

  // ---- asking --------------------------------------------------------------

  function AskOpening(k: Book): Book
  {
    k.(q := k.q + [Opening(k.nextToOpen)], nextToOpen := k.nextToOpen + 1)
  }

  function AskSegment(k: Book, i: nat): Book
    requires i < |k.blobs|
  {
    var b := k.blobs[i];
    k.(q := k.q + [Segment(i)], blobs := k.blobs[i := b.(inFlight := b.inFlight + 1)],
      totalInFlight := k.totalInFlight + 1)
  }

  lemma AskOpeningOk(k: Book, n: nat)
    requires BookOk(k, n) && k.nextToOpen < n && k.nextToOpen < k.head + OPEN_AHEAD
    ensures BookOk(AskOpening(k), n)
  {
    var k' := AskOpening(k);
    forall i | 0 <= i < n ensures LaneOk(k'.blobs[i], i, i < k'.nextToOpen, Lane(k'.q, i)) {
      LanePush(k.q, Opening(k.nextToOpen), i);
    }
  }

  lemma AskSegmentOk(k: Book, n: nat, i: nat)
    requires BookOk(k, n) && i < n && k.blobs[i].handle.Some? && !k.blobs[i].eof && k.totalInFlight < PIPELINE_DEPTH
    ensures BookOk(AskSegment(k, i), n)
  {
    var k' := AskSegment(k, i);
    forall j | 0 <= j < n ensures LaneOk(k'.blobs[j], j, j < k'.nextToOpen, Lane(k'.q, j)) {
      LanePush(k.q, Segment(i), j);
    }
    SumUpdate(InFlights(k.blobs), i, k.blobs[i].inFlight + 1);
    assert InFlights(k'.blobs) == InFlights(k.blobs)[i := k.blobs[i].inFlight + 1];
  }

  /** Asking changes nothing the server has done so far. */
  lemma AskData(k: Book, k': Book, s: State, ids: seq<BlobId>, i: nat, p: Pending)
    requires AllData(k, s, ids) && i < |ids| && p.idx == i
    requires k'.q == k.q + [p] && |k'.blobs| == |k.blobs|
    requires forall j | 0 <= j < |ids| && j != i :: k'.blobs[j] == k.blobs[j]
    requires k'.blobs[i] == k.blobs[i].(inFlight := k'.blobs[i].inFlight) && !k.blobs[i].eof
    ensures AllData(k', s, ids)
  {
    forall j | 0 <= j < |ids| ensures Lane(k'.q, j) == Lane(k.q, j) || j == i {
      LanePush(k.q, p, j);
    }
  }

  // ---- being answered --------------------------------------------------------

  /** The first blob from `head` on that is not at its end. */
  function NextHead(blobs: seq<BlobState>, head: nat): (r: nat)
    requires head <= |blobs|
    ensures head <= r <= |blobs|
    ensures forall i | head <= i < r :: blobs[i].eof
    ensures r < |blobs| ==> !blobs[r].eof
    decreases |blobs| - head
  {
    if head < |blobs| && blobs[head].eof then NextHead(blobs, head + 1) else head
  }

  function TakeOpening(k: Book, h: Handle): Book
    requires |k.q| > 0 && k.q[0].idx < |k.blobs|
  {
    var i := k.q[0].idx;
    k.(q := k.q[1..], blobs := k.blobs[i := k.blobs[i].(handle := Some(h))])
  }

  function TakeClosing(k: Book): Book
    requires |k.q| > 0
  {
    k.(q := k.q[1..])
  }

  /** A blob's record after one segment response. */
  function Received(b: BlobState, data: Bytes, last: bool): BlobState
    requires b.inFlight > 0
  {
    var less := b.(inFlight := b.inFlight - 1);
    if b.eof then less
    else
      var more := less.(parts := if data == [] then b.parts else b.parts + [data]);
      if last then more.(eof := true)
      else more.(dataSegs := b.dataSegs + 1,
                 cap := if b.dataSegs + 1 >= b.cap then Min(b.cap * 2, PIPELINE_DEPTH) else b.cap)
  }

  function TakeSegment(k: Book, data: Bytes, last: bool): Book
    requires |k.q| > 0 && k.q[0].idx < |k.blobs| && k.blobs[k.q[0].idx].inFlight > 0 && k.totalInFlight > 0
    requires k.head <= |k.blobs|
  {
    var i := k.q[0].idx;
    var b := k.blobs[i];
    var blobs := k.blobs[i := Received(b, data, last)];
    var ended := !b.eof && last;
    k.(blobs := blobs, totalInFlight := k.totalInFlight - 1,
       q := if ended then k.q[1..] + [Closing(i)] else k.q[1..],
       head := if ended then NextHead(blobs, k.head) else k.head)
  }

  /** What the lane of the oldest request tells about it. */
  lemma HeadLane(k: Book, n: nat)
    requires BookOk(k, n) && |k.q| > 0
    ensures var p := k.q[0]; var i := p.idx;
      && i < n && i < k.nextToOpen && Lane(k.q, i) == [p] + Lane(k.q[1..], i)
      && (p.Opening? ==> k.blobs[i] == UNTOUCHED && Lane(k.q[1..], i) == [])
      && (p.Closing? ==>
            k.blobs[i].eof && k.blobs[i].handle.Some? && k.blobs[i].inFlight == 0 && Lane(k.q[1..], i) == [])
      && (p.Segment? ==> k.blobs[i].handle.Some? && k.blobs[i].inFlight > 0 && k.totalInFlight > 0)
  {
    var p := k.q[0];
    var i := p.idx;
    assert p in k.q;
    var b := k.blobs[i];
    assert LaneOk(b, i, i < k.nextToOpen, Lane(k.q, i));
    assert Lane(k.q, i)[0] == p;
    if p.Segment? {
      assert b.inFlight > 0;
      SumUpdate(InFlights(k.blobs), i, 0);
    }
  }

  lemma OtherLanes(k: Book, j: nat)
    requires |k.q| > 0 && j != k.q[0].idx
    ensures Lane(k.q[1..], j) == Lane(k.q, j)
  {
  }

  lemma TakeOpeningOk(k: Book, n: nat, h: Handle)
    requires BookOk(k, n) && |k.q| > 0 && k.q[0].Opening?
    ensures k.q[0].idx < n && BookOk(TakeOpening(k, h), n)
  {
    HeadLane(k, n);
    var k' := TakeOpening(k, h);
    var i := k.q[0].idx;
    assert k.q[0] in k.q;
    forall j | 0 <= j < n ensures LaneOk(k'.blobs[j], j, j < k'.nextToOpen, Lane(k'.q, j)) {
      if j != i { OtherLanes(k, j); } else { assert Segs(i, 0) == []; }
    }
    assert InFlights(k'.blobs) == InFlights(k.blobs);
  }

  lemma TakeClosingOk(k: Book, n: nat)
    requires BookOk(k, n) && |k.q| > 0 && k.q[0].Closing?
    ensures BookOk(TakeClosing(k), n)
  {
    HeadLane(k, n);
    forall j | 0 <= j < n ensures LaneOk(k.blobs[j], j, j < k.nextToOpen, Lane(k.q[1..], j)) {
      if j != k.q[0].idx { OtherLanes(k, j); }
    }
  }

  /** A lane that starts with a segment request holds one fewer behind it. */
  lemma SegmentLane(b: BlobState, i: nat, rest: seq<Pending>)
    requires b.handle.Some? && LaneOk(b, i, true, [Segment(i)] + rest)
    ensures b.inFlight > 0
    ensures rest == if b.eof then Segs(i, b.inFlight - 1) + [Closing(i)] else Segs(i, b.inFlight - 1)
  {
    var lane := [Segment(i)] + rest;
    assert lane[0] == Segment(i) && lane[1..] == rest;
    assert b.inFlight > 0;
    assert Segs(i, b.inFlight) == [Segment(i)] + Segs(i, b.inFlight - 1);
    if b.eof {
      assert lane == Segs(i, b.inFlight) + [Closing(i)];
      assert lane[1..] == Segs(i, b.inFlight - 1) + [Closing(i)];
    }
  }

  lemma ReceivedLane(b: BlobState, i: nat, rest: seq<Pending>, data: Bytes, last: bool)
    requires b.handle.Some? && b.cap >= 1 && LaneOk(b, i, true, [Segment(i)] + rest)
    ensures b.inFlight > 0 && Received(b, data, last).cap >= 1
    ensures LaneOk(Received(b, data, last), i, true, if !b.eof && last then rest + [Closing(i)] else rest)
  {
    SegmentLane(b, i, rest);
  }

  lemma TakeSegmentOk(k: Book, n: nat, data: Bytes, last: bool)
    requires BookOk(k, n) && |k.q| > 0 && k.q[0].Segment?
    ensures k.q[0].idx < n && k.blobs[k.q[0].idx].inFlight > 0 && k.totalInFlight > 0
    ensures BookOk(TakeSegment(k, data, last), n)
  {
    hide LaneOk, Received, Lane;
    HeadLane(k, n);
    var k' := TakeSegment(k, data, last);
    forall j | 0 <= j < n ensures k'.blobs[j].cap >= 1 && LaneOk(k'.blobs[j], j, j < k'.nextToOpen, Lane(k'.q, j)) {
      TakeSegmentLane(k, n, data, last, j);
    }
    TakeSegmentSum(k, n, data, last);
    TakeSegmentHead(k, n, data, last);
  }

  /** The lane of each blob after a segment response. */
  lemma TakeSegmentLane(k: Book, n: nat, data: Bytes, last: bool, j: nat)
    requires BookOk(k, n) && |k.q| > 0 && k.q[0].Segment? && j < n
    requires k.q[0].idx < n && k.blobs[k.q[0].idx].inFlight > 0 && k.totalInFlight > 0
    ensures var k' := TakeSegment(k, data, last);
      k'.blobs[j].cap >= 1 && LaneOk(k'.blobs[j], j, j < k'.nextToOpen, Lane(k'.q, j))
  {
    hide LaneOk, Received, Lane;
    HeadLane(k, n);
    var i := k.q[0].idx;
    LanePush(k.q[1..], Closing(i), j);
    assert LaneOk(k.blobs[j], j, j < k.nextToOpen, Lane(k.q, j));
    if j == i { ReceivedLane(k.blobs[i], i, Lane(k.q[1..], i), data, last); } else { OtherLanes(k, j); }
    assert Lane(k.q[1..], j) + [] == Lane(k.q[1..], j);
  }

  lemma TakeSegmentSum(k: Book, n: nat, data: Bytes, last: bool)
    requires |k.blobs| == n && |k.q| > 0 && k.q[0].idx < n && k.head <= n
    requires k.blobs[k.q[0].idx].inFlight > 0 && k.totalInFlight == Sum(InFlights(k.blobs)) > 0
    ensures TakeSegment(k, data, last).totalInFlight == Sum(InFlights(TakeSegment(k, data, last).blobs))
  {
    hide Received, Sum;
    var (k', i) := (TakeSegment(k, data, last), k.q[0].idx);
    ReceivedCounts(k.blobs[i], data, last);
    SumUpdate(InFlights(k.blobs), i, k.blobs[i].inFlight - 1);
    assert InFlights(k'.blobs) == InFlights(k.blobs)[i := k.blobs[i].inFlight - 1];
  }

  /** The head moves over the blobs at their end, and not past what was asked for. */
  lemma TakeSegmentHead(k: Book, n: nat, data: Bytes, last: bool)
    requires BookOk(k, n) && |k.q| > 0 && k.q[0].Segment?
    requires k.q[0].idx < n && k.blobs[k.q[0].idx].inFlight > 0 && k.totalInFlight > 0
    ensures var k' := TakeSegment(k, data, last);
      && k'.head <= k'.nextToOpen <= k'.head + OPEN_AHEAD
      && (forall j | 0 <= j < k'.head :: k'.blobs[j].eof) && (k'.head < n ==> !k'.blobs[k'.head].eof)
  {
    hide LaneOk, Received, Lane;
    var (k', i) := (TakeSegment(k, data, last), k.q[0].idx);
    ReceivedCounts(k.blobs[i], data, last);
    forall j | 0 <= j < n ensures LaneOk(k'.blobs[j], j, j < k'.nextToOpen, Lane(k'.q, j)) {
      TakeSegmentLane(k, n, data, last, j);
    }
    HeadBounded(k', k.head, n);
  }

  lemma ReceivedCounts(b: BlobState, data: Bytes, last: bool)
    requires b.inFlight > 0
    ensures Received(b, data, last).inFlight == b.inFlight - 1
    ensures Received(b, data, last).handle == b.handle
    ensures Received(b, data, last).eof == (b.eof || last)
  {
  }

  /** Every blob before the head was asked for. */
  lemma HeadBounded(k: Book, head: nat, n: nat)
    requires |k.blobs| == n && head <= k.head <= n
    requires forall i | 0 <= i < n :: LaneOk(k.blobs[i], i, i < k.nextToOpen, Lane(k.q, i))
    requires forall i | 0 <= i < k.head :: k.blobs[i].eof
    ensures k.head <= k.nextToOpen || k.head == 0
  {
    if k.head > 0 { assert LaneOk(k.blobs[k.head - 1], k.head - 1, k.head - 1 < k.nextToOpen, Lane(k.q, k.head - 1)); }
  }

  // ---- the server's side of an answer --------------------------------------

  /** `s'` differs from `s` at most in the blob open as `h`. */
  ghost predicate Apart(s: State, s': State, h: Handle) {
    && s'.store == s.store
    && forall g | g in s.reading && g != h :: g in s'.reading && s'.reading[g] == s.reading[g]
  }

  lemma OtherData(b: BlobState, lane: seq<Pending>, s: State, s': State, id: BlobId, h: Handle)
    requires DataOk(b, lane, s, id) && Apart(s, s', h)
    requires Live(b, lane) ==> b.handle != Some(h)
    ensures DataOk(b, lane, s', id)
  {
    if Live(b, lane) { assert b.handle.value != h; }
  }

  /** Blobs that do not live behind `h` keep what they know when only `h` changes. */
  lemma OthersData(k: Book, k': Book, s: State, s': State, ids: seq<BlobId>, i: nat, h: Handle)
    requires AllData(k, s, ids) && i < |ids| && |k'.blobs| == |ids| && Apart(s, s', h)
    requires forall j | 0 <= j < |ids| && j != i :: k'.blobs[j] == k.blobs[j]
    requires forall j | 0 <= j < |ids| && j != i :: Lane(k'.q, j) == Lane(k.q, j)
    requires forall j | 0 <= j < |ids| && j != i && Live(k.blobs[j], Lane(k.q, j)) :: k.blobs[j].handle != Some(h)
    requires DataOk(k'.blobs[i], Lane(k'.q, i), s', ids[i])
    requires Live(k'.blobs[i], Lane(k'.q, i)) ==> k'.blobs[i].handle == Some(h)
    ensures AllData(k', s', ids)
  {
    hide DataOk, Apart;
    forall j | 0 <= j < |ids| ensures DataOk(k'.blobs[j], Lane(k'.q, j), s', ids[j]) {
      if j != i { OtherData(k.blobs[j], Lane(k.q, j), s, s', ids[j], h); }
    }
    forall a, b | 0 <= a < b < |ids| && Live(k'.blobs[a], Lane(k'.q, a)) && Live(k'.blobs[b], Lane(k'.q, b))
      ensures k'.blobs[a].handle != k'.blobs[b].handle
    {
      assert Lane(k'.q, a) == Lane(k.q, a) || a == i;
      assert Lane(k'.q, b) == Lane(k.q, b) || b == i;
    }
  }

  lemma OpeningData(k: Book, s: State, ids: seq<BlobId>, tx: Handle, s': State, r: Response)
    requires BookOk(k, |ids|) && AllData(k, s, ids) && |k.q| > 0 && k.q[0].Opening? && k.q[0].idx < |ids|
    requires PlainStep(s, OpenBlob(tx, ids[k.q[0].idx]), s', r)
    ensures r.Good? ==> AllData(TakeOpening(k, r.handle), s', ids) && s'.store == s.store
    ensures r.Bad? ==> r.error.Refused? || (r.error == BadHandle && ids[k.q[0].idx] !in s.store)
  {
    if r.Good? {
      HeadLane(k, |ids|);
      var i := k.q[0].idx;
      var k' := TakeOpening(k, r.handle);
      forall j | 0 <= j < |ids| && j != i
        ensures k'.blobs[j] == k.blobs[j] && Lane(k'.q, j) == Lane(k.q, j)
        ensures Live(k.blobs[j], Lane(k.q, j)) ==> k.blobs[j].handle != Some(r.handle)
      {
        OtherLanes(k, j);
        assert DataOk(k.blobs[j], Lane(k.q, j), s, ids[j]);
      }
      assert Flatten([]) == [];
      OthersData(k, k', s, s', ids, i, r.handle);
    }
  }

  lemma ClosingData(k: Book, s: State, ids: seq<BlobId>, s': State, r: Response)
    requires BookOk(k, |ids|) && AllData(k, s, ids) && |k.q| > 0 && k.q[0].Closing? && k.q[0].idx < |ids|
    requires k.blobs[k.q[0].idx].handle.Some? && PlainStep(s, CloseBlob(k.blobs[k.q[0].idx].handle.value), s', r)
    ensures AllData(TakeClosing(k), s', ids) && Apart(s, s', k.blobs[k.q[0].idx].handle.value)
    ensures r.Bad? ==> r.error.Refused?
  {
    HeadLane(k, |ids|);
    var i := k.q[0].idx;
    var h := k.blobs[i].handle.value;
    assert DataOk(k.blobs[i], Lane(k.q, i), s, ids[i]);
    var k' := TakeClosing(k);
    forall j | 0 <= j < |ids| && j != i
      ensures Lane(k'.q, j) == Lane(k.q, j)
      ensures Live(k.blobs[j], Lane(k.q, j)) ==> k.blobs[j].handle != Some(h)
    {
      OtherLanes(k, j);
      assert Live(k.blobs[i], Lane(k.q, i));
    }
    OthersData(k, k', s, s', ids, i, h);
  }

  lemma SegmentData(k: Book, s: State, ids: seq<BlobId>, n: nat, s': State, r: Response)
    requires BookOk(k, |ids|) && AllData(k, s, ids) && |k.q| > 0 && k.q[0].Segment? && k.q[0].idx < |ids|
    requires k.blobs[k.q[0].idx].inFlight > 0 && k.totalInFlight > 0
    requires k.blobs[k.q[0].idx].handle.Some? && PlainStep(s, GetSegment(k.blobs[k.q[0].idx].handle.value, n), s', r)
    ensures r.Good? ==> AllData(TakeSegment(k, Unframe(r.data), r.handle == EOF_HANDLE), s', ids)
    ensures r.Good? ==> Served(s, s', k.blobs[k.q[0].idx].handle.value, r.handle == EOF_HANDLE)
    ensures r.Bad? ==> r.error.Refused?
  {
    hide PlainStep, Received, Content, Flatten, DataOk, Apart;
    HeadLane(k, |ids|);
    var i := k.q[0].idx;
    var b := k.blobs[i];
    var h := b.handle.value;
    var rest := Lane(k.q[1..], i);
    SegmentServed(b, i, rest, s, ids[i], n, s', r);
    if r.Good? {
      var data, last := Unframe(r.data), r.handle == EOF_HANDLE;
      var k' := TakeSegment(k, data, last);
      assert k'.blobs[i] == Received(b, data, last);
      forall j | 0 <= j < |ids|
        ensures Lane(k'.q, j) == if j != i then Lane(k.q, j) else if !b.eof && last then rest + [Closing(i)] else rest
      {
        LanePush(k.q[1..], Closing(i), j);
        if j != i { OtherLanes(k, j); }
      }
      ReceivedCounts(b, data, last);
      forall j | 0 <= j < |ids| && j != i && Live(k.blobs[j], Lane(k.q, j)) ensures k.blobs[j].handle != Some(h) {
        assert Live(b, Lane(k.q, i));
      }
      OthersData(k, k', s, s', ids, i, h);
    }
  }

  /** One segment response, seen from the blob it belongs to. */
  lemma SegmentServed(b: BlobState, i: nat, rest: seq<Pending>, s: State, id: BlobId, n: nat, s': State, r: Response)
    requires b.handle.Some? && b.inFlight > 0 && DataOk(b, [Segment(i)] + rest, s, id)
    requires PlainStep(s, GetSegment(b.handle.value, n), s', r)
    ensures Apart(s, s', b.handle.value) && (r.Bad? ==> r.error.Refused?)
    ensures r.Good? ==> Served(s, s', b.handle.value, r.handle == EOF_HANDLE)
    ensures r.Good? ==>
      var data, last := Unframe(r.data), r.handle == EOF_HANDLE;
      DataOk(Received(b, data, last), if !b.eof && last then rest + [Closing(i)] else rest, s', id)
  {
    hide Content, Flatten, Unframe;
    var h := b.handle.value;
    var content := s.store[id];
    if b.eof {
      EndedIsRead(b.parts);
      SegmentStep(s, h, n, s', r, b.parts, true, content);
    } else {
      SegmentStep(s, h, n, s', r, b.parts, false, content);
    }
    if r.Good? && !b.eof {
      var data := Unframe(r.data);
      var parts := if data == [] then b.parts else b.parts + [data];
      if r.handle == EOF_HANDLE { EndedIsRead(parts); }
    }
  }

  /** A segment request on `h` was answered: fewer replies are left, unless this was the end. */
  ghost predicate Served(s: State, s': State, h: Handle, last: bool) {
    && Apart(s, s', h) && h in s.reading && h in s'.reading
    && (last || |s'.reading[h]| < |s.reading[h]|)
  }

  lemma EndedIsRead(parts: seq<Bytes>)
    ensures Flatten(parts) + Content([]) == Flatten(parts)
  {
  }

  // ---- progress ---------------------------------------------------------------

  function OpenWait(b: BlobState): nat { if b.handle.None? then 1 else 0 }

  function ReadWait(b: BlobState, reading: map<Handle, Replies>): nat
  {
    if b.handle.None? || b.eof then 0
    else 1 + if b.handle.value in reading then |reading[b.handle.value]| else 0
  }

  function EndWait(b: BlobState, lane: seq<Pending>): nat { if b.eof then |lane| else 0 }

  function OpenWaits(k: Book): (ns: seq<nat>)
    ensures |ns| == |k.blobs|
  {
    seq(|k.blobs|, i requires 0 <= i < |k.blobs| => OpenWait(k.blobs[i]))
  }

  function ReadWaits(k: Book, reading: map<Handle, Replies>): (ns: seq<nat>)
    ensures |ns| == |k.blobs|
  {
    seq(|k.blobs|, i requires 0 <= i < |k.blobs| => ReadWait(k.blobs[i], reading))
  }

  function EndWaits(k: Book): (ns: seq<nat>)
    ensures |ns| == |k.blobs|
  {
    seq(|k.blobs|, i requires 0 <= i < |k.blobs| => EndWait(k.blobs[i], Lane(k.q, i)))
  }

  /** Blobs whose open has not been answered. */
  function Unopened(k: Book): nat { Sum(OpenWaits(k)) }

  /** Replies still to come for blobs that are open and not at their end. */
  function Unread(k: Book, reading: map<Handle, Replies>): nat { Sum(ReadWaits(k, reading)) }

  /** Requests that will bring nothing: segment requests past the end, and closes. */
  function Leftover(k: Book): nat { Sum(EndWaits(k)) }

  /** Asking costs no progress. */
  lemma AskProgress(k: Book, k': Book, i: nat, p: Pending, reading: map<Handle, Replies>)
    requires i < |k.blobs| == |k'.blobs| && p.idx == i && k'.q == k.q + [p] && !k.blobs[i].eof
    requires k'.blobs == k.blobs[i := k.blobs[i].(inFlight := k'.blobs[i].inFlight)]
    ensures Unopened(k') == Unopened(k) && Unread(k', reading) == Unread(k, reading) && Leftover(k') == Leftover(k)
  {
    forall j | 0 <= j < |k.blobs| ensures j != i ==> Lane(k'.q, j) == Lane(k.q, j) {
      LanePush(k.q, p, j);
    }
    assert OpenWaits(k') == OpenWaits(k);
    assert ReadWaits(k', reading) == ReadWaits(k, reading);
    assert EndWaits(k') == EndWaits(k);
  }

  /**
   * Every answer is progress: an open answered, or else a reply taken in, or
   * else a request gone that brings nothing.
   */
  ghost predicate Progress(k: Book, s: State, k': Book, s': State) {
    || Unopened(k') < Unopened(k)
    || (Unopened(k') == Unopened(k) && Unread(k', s'.reading) < Unread(k, s.reading))
    || (Unopened(k') == Unopened(k) && Unread(k', s'.reading) == Unread(k, s.reading) && Leftover(k') < Leftover(k))
  }

  lemma OpeningProgress(k: Book, n: nat, s: State, h: Handle, s': State)
    requires BookOk(k, n) && |k.q| > 0 && k.q[0].Opening? && k.q[0].idx < n
    ensures Progress(k, s, TakeOpening(k, h), s')
  {
    HeadLane(k, n);
    SumLess(OpenWaits(TakeOpening(k, h)), OpenWaits(k), k.q[0].idx);
  }

  /** Only blob `i` is affected, and not its handle: the others wait for what they waited for. */
  lemma OthersWait(k: Book, k': Book, s: State, s': State, ids: seq<BlobId>, i: nat, h: Handle)
    requires |k.blobs| == |k'.blobs| == |ids| && i < |ids| && AllData(k, s, ids) && Apart(s, s', h)
    requires forall j | 0 <= j < |ids| && j != i :: k'.blobs[j] == k.blobs[j]
    requires forall j | 0 <= j < |ids| && j != i :: Lane(k'.q, j) == Lane(k.q, j)
    requires k'.blobs[i].handle == k.blobs[i].handle == Some(h) && Live(k.blobs[i], Lane(k.q, i))
    ensures Unopened(k') == Unopened(k)
    ensures forall j | 0 <= j < |ids| && j != i :: ReadWaits(k', s'.reading)[j] == ReadWaits(k, s.reading)[j]
    ensures forall j | 0 <= j < |ids| && j != i :: EndWaits(k')[j] == EndWaits(k)[j]
  {
    assert OpenWaits(k') == OpenWaits(k);
    forall j | 0 <= j < |ids| && j != i ensures ReadWait(k'.blobs[j], s'.reading) == ReadWait(k.blobs[j], s.reading) {
      assert DataOk(k.blobs[j], Lane(k.q, j), s, ids[j]);
      assert k'.blobs[j] == k.blobs[j];
      if Live(k.blobs[j], Lane(k.q, j)) {
        assert k.blobs[j].handle != Some(h);
        assert k.blobs[j].handle.value != h;
      }
    }
  }

  lemma ClosingProgress(k: Book, s: State, ids: seq<BlobId>, s': State)
    requires BookOk(k, |ids|) && AllData(k, s, ids) && |k.q| > 0 && k.q[0].Closing? && k.q[0].idx < |ids|
    requires k.blobs[k.q[0].idx].handle.Some? && Apart(s, s', k.blobs[k.q[0].idx].handle.value)
    ensures Progress(k, s, TakeClosing(k), s')
  {
    hide DataOk, Apart;
    HeadLane(k, |ids|);
    var i := k.q[0].idx;
    var k' := TakeClosing(k);
    forall j | 0 <= j < |ids| && j != i ensures Lane(k'.q, j) == Lane(k.q, j) { OtherLanes(k, j); }
    OthersWait(k, k', s, s', ids, i, k.blobs[i].handle.value);
    assert ReadWaits(k', s'.reading) == ReadWaits(k, s.reading);
    SumLess(EndWaits(k'), EndWaits(k), i);
  }

  lemma SegmentProgress(k: Book, s: State, ids: seq<BlobId>, s': State, data: Bytes, last: bool)
    requires BookOk(k, |ids|) && AllData(k, s, ids) && |k.q| > 0 && k.q[0].Segment? && k.q[0].idx < |ids|
    requires k.blobs[k.q[0].idx].inFlight > 0 && k.totalInFlight > 0
    requires k.blobs[k.q[0].idx].handle.Some? && Served(s, s', k.blobs[k.q[0].idx].handle.value, last)
    ensures Progress(k, s, TakeSegment(k, data, last), s')
  {
    hide DataOk, Apart;
    HeadLane(k, |ids|);
    var i := k.q[0].idx;
    var b := k.blobs[i];
    var k' := TakeSegment(k, data, last);
    forall j | 0 <= j < |ids| && j != i ensures Lane(k'.q, j) == Lane(k.q, j) {
      LanePush(k.q[1..], Closing(i), j);
      OtherLanes(k, j);
    }
    OthersWait(k, k', s, s', ids, i, b.handle.value);
    if b.eof {
      assert ReadWaits(k', s'.reading) == ReadWaits(k, s.reading);
      SumLess(EndWaits(k'), EndWaits(k), i);
    } else {
      SumLess(ReadWaits(k', s'.reading), ReadWaits(k, s.reading), i);
    }
  }

  /** With nothing outstanding nothing is in flight. */
  lemma EmptyQueue(k: Book, n: nat)
    requires BookOk(k, n) && k.q == []
    ensures k.totalInFlight == 0
    ensures forall i | 0 <= i < n :: k.blobs[i].inFlight == 0
    ensures k.head < k.nextToOpen ==> k.blobs[k.head].handle.Some?
  {
    forall i | 0 <= i < n ensures k.blobs[i].inFlight == 0 && (i < k.nextToOpen ==> k.blobs[i].handle.Some?) {
      var b := k.blobs[i];
      assert LaneOk(b, i, i < k.nextToOpen, []);
      assert |Segs(i, b.inFlight)| == b.inFlight;
    }
    SumZero(InFlights(k.blobs));
  }

  // ---- the requests ever made ---------------------------------------------------

  predicate ScriptsOk(k: Book, n: nat, asked: seq<Pending>) {
    && |k.blobs| == n
    && (forall p | p in asked :: p.idx < n)
    && forall i | 0 <= i < n :: ScriptOk(k.blobs[i], i, i < k.nextToOpen, Lane(asked, i))
  }

  lemma OpeningScript(k: Book, n: nat, asked: seq<Pending>)
    requires BookOk(k, n) && ScriptsOk(k, n, asked) && k.nextToOpen < n
    ensures ScriptsOk(AskOpening(k), n, asked + [Opening(k.nextToOpen)])
  {
    hide Lane, LaneOk, ScriptOk;
    var (k', asked') := (AskOpening(k), asked + [Opening(k.nextToOpen)]);
    forall i | 0 <= i < n ensures ScriptOk(k'.blobs[i], i, i < k'.nextToOpen, Lane(asked', i)) {
      LanePush(asked, Opening(k.nextToOpen), i);
      assert LaneOk(k.blobs[i], i, i < k.nextToOpen, Lane(k.q, i));
      assert ScriptOk(k.blobs[i], i, i < k.nextToOpen, Lane(asked, i));
      if i == k.nextToOpen { ScriptOpens(k.blobs[i], i, Lane(asked, i), Lane(k.q, i)); }
      assert Lane(asked, i) + [] == Lane(asked, i);
    }
  }

  lemma ScriptOpens(b: BlobState, i: nat, script: seq<Pending>, lane: seq<Pending>)
    requires ScriptOk(b, i, false, script) && LaneOk(b, i, false, lane)
    ensures ScriptOk(b, i, true, script + [Opening(i)])
  {
  }

  lemma SegmentScript(k: Book, n: nat, asked: seq<Pending>, i: nat)
    requires ScriptsOk(k, n, asked) && i < k.nextToOpen && i < n && k.blobs[i].handle.Some? && !k.blobs[i].eof
    ensures ScriptsOk(AskSegment(k, i), n, asked + [Segment(i)])
  {
    hide Lane, ScriptOk;
    var (k', asked') := (AskSegment(k, i), asked + [Segment(i)]);
    forall j | 0 <= j < n ensures ScriptOk(k'.blobs[j], j, j < k'.nextToOpen, Lane(asked', j)) {
      LanePush(asked, Segment(i), j);
      assert ScriptOk(k.blobs[j], j, j < k.nextToOpen, Lane(asked, j));
      if j == i { ScriptReadsOn(k.blobs[i], i, Lane(asked, i), k'.blobs[i]); }
      assert Lane(asked, j) + [] == Lane(asked, j);
    }
  }

  lemma ScriptReadsOn(b: BlobState, i: nat, script: seq<Pending>, b': BlobState)
    requires ScriptOk(b, i, true, script) && b.handle.Some? && !b.eof && b'.handle == b.handle && !b'.eof
    ensures ScriptOk(b', i, true, script + [Segment(i)])
  {
    assert script + [Segment(i)] == [Opening(i)] + Segs(i, |script|);
  }

  lemma OpenedScript(k: Book, n: nat, asked: seq<Pending>, h: Handle)
    requires BookOk(k, n) && ScriptsOk(k, n, asked) && |k.q| > 0 && k.q[0].Opening? && k.q[0].idx < n
    ensures ScriptsOk(TakeOpening(k, h), n, asked)
  {
    HeadLane(k, n);
    var i := k.q[0].idx;
    assert [Opening(i)] == [Opening(i)] + Segs(i, 0);
    assert ScriptOk(k.blobs[i], i, true, Lane(asked, i));
  }

  lemma ReceivedScript(k: Book, n: nat, asked: seq<Pending>, data: Bytes, last: bool)
    requires BookOk(k, n) && ScriptsOk(k, n, asked) && |k.q| > 0 && k.q[0].Segment? && k.q[0].idx < n
    requires k.blobs[k.q[0].idx].inFlight > 0 && k.totalInFlight > 0
    ensures var i := k.q[0].idx;
      ScriptsOk(TakeSegment(k, data, last), n, if !k.blobs[i].eof && last then asked + [Closing(i)] else asked)
  {
    assert k.head <= |k.blobs|;
    hide Received, BookOk, Lane, ScriptOk;
    HeadLane(k, n);
    var i := k.q[0].idx;
    var ended := !k.blobs[i].eof && last;
    var (k', asked') := (TakeSegment(k, data, last), if ended then asked + [Closing(i)] else asked);
    forall j | 0 <= j < n ensures ScriptOk(k'.blobs[j], j, j < k'.nextToOpen, Lane(asked', j)) {
      LanePush(asked, Closing(i), j);
      assert ScriptOk(k.blobs[j], j, j < k.nextToOpen, Lane(asked, j));
      if j == i { ScriptReceives(k.blobs[i], i, Lane(asked, i), data, last); }
      assert Lane(asked, j) + [] == Lane(asked, j);
    }
  }

  lemma ScriptReceives(b: BlobState, i: nat, script: seq<Pending>, data: Bytes, last: bool)
    requires ScriptOk(b, i, true, script) && b.handle.Some? && b.inFlight > 0
    ensures ScriptOk(Received(b, data, last), i, true, if !b.eof && last then script + [Closing(i)] else script)
  {
    ReceivedCounts(b, data, last);
  }

  // ---- what an error leaves open ------------------------------------------------------

  /** The closes that a failed read writes: for each blob that is open and not at its end, in order. */
  function Closes(blobs: seq<BlobState>): seq<Request>
  {
    if blobs == [] then []
    else
      var b := blobs[|blobs| - 1];
      Closes(blobs[..|blobs| - 1]) + if b.handle.Some? && !b.eof then [CloseBlob(b.handle.value)] else []
  }

  /**
   * Which handles a failed read gives back: a blob whose open was answered is closed
   * by its own script, if it had come to its end, and else by the closes at the end;
   * one whose open was not answered, or never asked for, has no close at all.
   */
  lemma ClosedOnce(k: Book, n: nat, asked: seq<Pending>, i: nat)
    requires ScriptsOk(k, n, asked) && i < n
    ensures k.blobs[i].handle.None? ==> Lane(asked, i) == [] || Lane(asked, i) == [Opening(i)]
    ensures k.blobs[i].handle.Some? ==> (Closing(i) in Lane(asked, i) <==> k.blobs[i].eof)
    ensures k.blobs[i].handle.Some? && !k.blobs[i].eof ==> CloseBlob(k.blobs[i].handle.value) in Closes(k.blobs)
  {
    var (b, script) := (k.blobs[i], Lane(asked, i));
    assert ScriptOk(b, i, i < k.nextToOpen, script);
    if b.handle.Some? && !b.eof {
      InCloses(k.blobs, i);
      assert forall j | 0 <= j < |script| :: script[j] == if j == 0 then Opening(i) else Segment(i);
    } else if b.handle.Some? {
      assert script[|script| - 1] == Closing(i);
    }
  }

  lemma {:induction false} InCloses(blobs: seq<BlobState>, i: nat)
    requires i < |blobs| && blobs[i].handle.Some? && !blobs[i].eof
    ensures CloseBlob(blobs[i].handle.value) in Closes(blobs)
    decreases |blobs|
  {
    if i < |blobs| - 1 { InCloses(blobs[..|blobs| - 1], i); }
  }

  // ---- the window ------------------------------------------------------------------

  function SegmentsIn(q: seq<Pending>): nat
  {
    if q == [] then 0 else (if q[0].Segment? then 1 else 0) + SegmentsIn(q[1..])
  }

  function OpeningsIn(q: seq<Pending>): nat
  {
    if q == [] then 0 else (if q[0].Opening? then 1 else 0) + OpeningsIn(q[1..])
  }

  function SegmentsByLane(q: seq<Pending>, n: nat): (ns: seq<nat>)
    ensures |ns| == n
  {
    seq(n, i requires 0 <= i < n => SegmentsIn(Lane(q, i)))
  }

  function OpeningsByLane(q: seq<Pending>, n: nat): (ns: seq<nat>)
    ensures |ns| == n
  {
    seq(n, i requires 0 <= i < n => OpeningsIn(Lane(q, i)))
  }

  lemma LaneStep(q: seq<Pending>, i: nat)
    requires q != []
    ensures Lane(q, i) == if q[0].idx == i then [q[0]] + Lane(q[1..], i) else Lane(q[1..], i)
    ensures q[0].idx == i ==> Lane(q, i)[0] == q[0] && Lane(q, i)[1..] == Lane(q[1..], i)
  {
  }

  /** Counting lane by lane counts every request once. */
  lemma {:induction false} CountByLane(q: seq<Pending>, n: nat)
    requires forall p | p in q :: p.idx < n
    ensures Sum(SegmentsByLane(q, n)) == SegmentsIn(q)
    ensures Sum(OpeningsByLane(q, n)) == OpeningsIn(q)
  {
    if q == [] {
      SumZero(SegmentsByLane(q, n));
      SumZero(OpeningsByLane(q, n));
    } else {
      hide Lane;
      var i := q[0].idx;
      assert forall p | p in q[1..] :: p in q;
      assert q[0] in q;
      CountByLane(q[1..], n);
      forall j | 0 <= j < n
        ensures Lane(q, j) == if i == j then [q[0]] + Lane(q[1..], j) else Lane(q[1..], j)
      {
        LaneStep(q, j);
      }
      LaneStep(q, i);
      var segments, openings := SegmentsByLane(q[1..], n), OpeningsByLane(q[1..], n);
      SumUpdate(segments, i, SegmentsIn(Lane(q, i)));
      assert SegmentsByLane(q, n) == segments[i := SegmentsIn(Lane(q, i))];
      SumUpdate(openings, i, OpeningsIn(Lane(q, i)));
      assert OpeningsByLane(q, n) == openings[i := OpeningsIn(Lane(q, i))];
    }
  }

  lemma {:induction false} SegsCount(i: nat, m: nat, tail: seq<Pending>)
    ensures SegmentsIn(Segs(i, m) + tail) == m + SegmentsIn(tail)
    ensures OpeningsIn(Segs(i, m) + tail) == OpeningsIn(tail)
  {
    if m == 0 {
      assert Segs(i, m) + tail == tail;
    } else {
      SegsCount(i, m - 1, tail);
      var q := Segs(i, m) + tail;
      assert q[0] == Segment(i) && q[1..] == Segs(i, m - 1) + tail;
    }
  }

  /** One blob's share of the segment requests is what its record says; it waits for at most one open. */
  lemma LaneCounts(b: BlobState, i: nat, asked: bool, lane: seq<Pending>)
    requires LaneOk(b, i, asked, lane)
    ensures SegmentsIn(lane) == b.inFlight
    ensures OpeningsIn(lane) == if asked && b.handle.None? then 1 else 0
  {
    SegsCount(i, b.inFlight, []);
    SegsCount(i, b.inFlight, [Closing(i)]);
    assert Segs(i, b.inFlight) + [] == Segs(i, b.inFlight);
  }

  /**
   * The counter is the truth: `totalInFlight` is the number of segment requests
   * outstanding, never above PIPELINE_DEPTH, and at most OPEN_AHEAD opens are out.
   */
  lemma WindowBounded(k: Book, n: nat)
    requires BookOk(k, n)
    ensures SegmentsIn(k.q) == k.totalInFlight <= PIPELINE_DEPTH
    ensures OpeningsIn(k.q) <= k.nextToOpen - k.head <= OPEN_AHEAD
  {
    forall i | 0 <= i < n
      ensures SegmentsIn(Lane(k.q, i)) == k.blobs[i].inFlight
      ensures OpeningsIn(Lane(k.q, i)) <= if k.head <= i < k.nextToOpen then 1 else 0
    {
      LaneCounts(k.blobs[i], i, i < k.nextToOpen, Lane(k.q, i));
    }
    CountByLane(k.q, n);
    assert SegmentsByLane(k.q, n) == InFlights(k.blobs);
    SumAtMost(OpeningsByLane(k.q, n), Between(n, k.head, k.nextToOpen));
    SumBetween(n, k.head, k.nextToOpen);
  }

  function Between(n: nat, lo: nat, hi: nat): (ns: seq<nat>)
    ensures |ns| == n
  {
    seq(n, i requires 0 <= i < n => if lo <= i < hi then 1 else 0)
  }

  lemma {:induction false} SumBetween(n: nat, lo: nat, hi: nat)
    requires lo <= hi <= n
    ensures Sum(Between(n, lo, hi)) == hi - lo
  {
    if lo == hi {
      SumZero(Between(n, lo, hi));
    } else {
      SumBetween(n, lo, hi - 1);
      SumUpdate(Between(n, lo, hi - 1), hi - 1, 1);
      assert Between(n, lo, hi) == Between(n, lo, hi - 1)[hi - 1 := 1];
    }
  }

  /** Before anything was read nothing is known, so the server may have moved on. */
  lemma NothingKnown(k: Book, s: State, ids: seq<BlobId>)
    requires |ids| == |k.blobs| && forall i | 0 <= i < |ids| :: k.blobs[i].handle.None?
    ensures AllData(k, s, ids)
  {
  }
}
