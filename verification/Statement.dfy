/**
 * Statement execution with piggybacked requests (statement.ts): several requests
 * on one flush, answered in order, and what stays owed when the execute fails.
 */
module StatementProtocol {
  import opened Results
  import opened WireTypes
  import opened Server
  import opened Wire

  datatype ExecuteResult = ExecuteResult(procRow: Option<int>, pendingFetch: bool, pendingInfo: bool)

  /**
   * Allocate and prepare in one packet. Two ways to fail: a refused prepare leaves
   * the handle with nobody to free it, and a refused allocate leaves the answer to
   * the prepare on the wire, for whoever reads next, without marking it deferred.
   */
  method Prepare(w: WireConnection, tx: Handle) returns (res: Outcome<Handle>, held: Option<Handle>)
    requires w.InSync()
    modifies w
    ensures w.writer == [] && w.flushCount == old(w.flushCount) + 1 && w.lost >= old(w.lost)
    ensures res.Returned? ==> held == Some(res.value)
    ensures w.Owed() == w.deferredResponses + (w.lost - old(w.lost)) + if held.None? then 1 else 0
    ensures w.lost == old(w.lost) && held.Some? ==> w.InSync()
    ensures old(w.deferredResponses) == 0 ==> w.lost == old(w.lost)
    ensures held.None? ==> !w.InSync()
    ensures w.log == old(w.log) + [AllocateStatement, PrepareStatement(tx)] && old(w.history) < w.history
    ensures ErrorOf(Last(w.history).packets) == if res.Thrown? then Some(res.error) else None
    ensures held.Some? ==> |w.history| > 1 && GaveHandle(w.history[|w.history| - 2], held.value)
  {
    hide Took, Evolves, PlainStep, WireConnection.Idle, Quiet;
    SendPrepare(w, tx);
    var r;
    ghost var mid;
    ghost var flushed := w.sent;
    r, mid := w.ReadResponse();
    LastRequest(old(w.history), w.history, flushed, |flushed| - |w.sent|);
    if r.Bad? { return Thrown(r.error), None; }
    var handle := r.handle;
    ghost var h := w.history;
    assert w.sent == [PrepareStatement(tx)] by { TailOfTwo(flushed, old(w.deferredResponses)); }
    flushed := w.sent;
    r, mid := w.ReadResponse();
    LastRequest(h, w.history, flushed, |flushed| - |w.sent|);
    assert w.history[|w.history| - 2] == Last(h);
    if r.Bad? { return Thrown(r.error), Some(handle); }
    return Returned(handle), Some(handle);
  }

  lemma TailOfTwo(qs: seq<Request>, d: nat)
    requires |qs| == d + 2
    ensures qs[d + 1..] == qs[d..][1..]
  {
  }

  method SendPrepare(w: WireConnection, tx: Handle)
    requires w.InSync()
    modifies w`writer, w`sent, w`flushCount, w`peak, w`log
    ensures w.Idle() && w.writer == [] && w.flushCount == old(w.flushCount) + 1
    ensures w.log == old(w.log) + [AllocateStatement, PrepareStatement(tx)]
    ensures |w.sent| == w.deferredResponses + 2
    ensures w.sent[w.deferredResponses..] == [AllocateStatement, PrepareStatement(tx)]
    ensures forall i | 0 <= i < |w.sent| :: Quiet(w.server, w.sent[i])
  {
    ghost var owed := w.sent + w.writer;
    w.Write(AllocateStatement);
    w.Write(PrepareStatement(tx));
    w.Flush();
    assert w.sent == owed + [AllocateStatement, PrepareStatement(tx)];
    w.IdleIsQuiet();
  }

  predicate GaveHandle(x: Exchange, h: Handle) {
    && x.request == AllocateStatement && |x.packets| == 1
    && x.packets[0].Resp? && x.packets[0].response.Good? && x.packets[0].response.handle == h
  }

  /** The requests that ride behind an execute, in the order of their answers. */
  function Riders(stmt: Handle, useExecute2: bool, fetchSize: Option<nat>, recordCounts: bool): (qs: seq<Request>)
    ensures forall q | q in qs :: q == InfoSql(stmt) || (q.Fetch? && q.stmt == stmt)
  {
    (if !useExecute2 && fetchSize.Some? then [Fetch(stmt, fetchSize.value)] else [])
    + (if recordCounts then [InfoSql(stmt)] else [])
  }

  /** What an awaited answer leaves behind; `ahead` requests were deferred before it. */
  twostate predicate Consumed(w: WireConnection, ahead: nat, failed: bool)
    requires ahead < |old(w.sent)|
    reads w
  {
    && w.inbound == [] && w.server.Valid() && w.writer == old(w.writer) && w.flushCount == old(w.flushCount)
    && old(w.lost) <= w.lost <= old(w.lost) + 1 && w.deferredResponses <= ahead
    && |w.sent| < |old(w.sent)| && Took(old(w.history), w.history, old(w.sent), |old(w.sent)| - |w.sent|)
    && (w.lost == old(w.lost) ==> w.deferredResponses == 0 && w.sent == old(w.sent)[ahead + 1..])
    && (w.lost > old(w.lost) ==> failed && ahead > 0 && w.sent == old(w.sent)[ahead - w.deferredResponses..])
  }

  /** The error an answer ends with. */
  function ErrorOf(ps: seq<Packet>): Option<Error>
  {
    if ps != [] && ps[|ps| - 1].Resp? && ps[|ps| - 1].response.Bad? then Some(ps[|ps| - 1].response.error) else None
  }

  /** The row that comes ahead of the response to an op_execute2. */
  function ProcRowOf(ps: seq<Packet>): Option<int>
  {
    if ps != [] && ps[0].SqlResp? then ps[0].procRow else None
  }

  lemma LastRequest(before: seq<Exchange>, now: seq<Exchange>, sent: seq<Request>, n: nat)
    requires Took(before, now, sent, n)
    ensures now != [] && Last(now).request == sent[n - 1] && |now| == |before| + n && before <= now
  {
  }

  /** op_execute2 answers with op_sql_response and its row, then an op_response; or with an error. */
  method AwaitExecute2(w: WireConnection) returns (procRow: Option<int>, error: Option<Error>)
    requires w.server.Valid() && w.QuietAhead() && w.deferredResponses < |w.sent|
    requires w.sent[w.deferredResponses].Execute2?
    modifies w`server, w`sent, w`inbound, w`deferredResponses, w`inlined, w`history, w`lost
    ensures Consumed(w, old(w.deferredResponses), error.Some?)
    ensures procRow == ProcRowOf(Last(w.history).packets) && error == ErrorOf(Last(w.history).packets)
    ensures w.server.cursors <= old(w.server).cursors
  {
    hide Evolves, Took, Strip, Deliver, Answers, Inlined, Quiet;
    procRow, error := None, None;
    var op;
    ghost var mid, read;
    op, mid, read := w.ReadOp();
    LastRequest(old(w.history), w.history, old(w.sent), |old(w.sent)| - |w.sent|);
    if op.Thrown? { return None, Some(op.error); }
    ghost var all := Last(w.history).packets;
    Execute2Answer(mid, old(w.sent)[old(w.deferredResponses)], w.server, all);
    FramedStrip(w.inbound);
    assert all[0] == op.value && all[1..] == Strip(w.inbound);
    match op.value
    case SqlResp(row) =>
      procRow := row;
      op, mid, read := w.ReadOp();
      FramedStrip(w.inbound);
      assert all == [all[0], op.value];
      if op.value.response.Bad? { error := Some(op.value.response.error); }
    case Resp(r) =>
      if r.Bad? { error := Some(r.error); }
  }

  lemma Execute2Answer(s: State, q: Request, s': State, ps: seq<Packet>)
    requires q.Execute2? && Answers(s, q, s', ps)
    ensures (|ps| == 1 && ps[0].Resp?) || (|ps| == 2 && ps[0].SqlResp? && ps[1].Resp?)
    ensures s'.cursors <= s.cursors
  {
  }

  /** op_execute answers with one op_response; after an error the statement has no cursor. */
  method AwaitExecute(w: WireConnection) returns (error: Option<Error>)
    requires w.server.Valid() && w.QuietAhead() && w.deferredResponses < |w.sent|
    requires w.sent[w.deferredResponses].Execute?
    modifies w`server, w`sent, w`inbound, w`deferredResponses, w`inlined, w`history, w`lost
    ensures Consumed(w, old(w.deferredResponses), error.Some?)
    ensures error == ErrorOf(Last(w.history).packets)
    ensures error.Some? && w.lost == old(w.lost) ==> old(w.sent)[old(w.deferredResponses)].stmt !in w.server.cursors
  {
    hide Evolves;
    var r;
    ghost var mid;
    r, mid := w.ReadResponse();
    error := if r.Bad? then Some(r.error) else None;
  }

  /** Write the execute and its piggybacked requests, and flush them as one packet. */
  method SendExecute(w: WireConnection, stmt: Handle, tx: Handle, useExecute2: bool, fetchSize: Option<nat>,
        recordCounts: bool)
    returns (pendingFetch: bool, pendingInfo: bool)
    requires w.InSync()
    modifies w`writer, w`sent, w`flushCount, w`peak, w`log
    ensures w.writer == [] && w.flushCount == old(w.flushCount) + 1
    ensures pendingFetch == (!useExecute2 && fetchSize.Some?) && pendingInfo == recordCounts
    ensures w.server.Valid() && w.QuietAhead() && w.deferredResponses < |w.sent|
    ensures w.sent[w.deferredResponses] == if useExecute2 then Execute2(stmt, tx) else Execute(stmt, tx)
    ensures w.sent[w.deferredResponses + 1..] == Riders(stmt, useExecute2, fetchSize, recordCounts)
  {
    hide Quiet, WireConnection.Idle;
    ghost var owed := w.sent + w.writer;
    QuietNow(w);
    w.Write(if useExecute2 then Execute2(stmt, tx) else Execute(stmt, tx));
    ghost var own := [w.writer[|w.writer| - 1]];
    pendingFetch := !useExecute2 && fetchSize.Some?;
    if pendingFetch { w.Write(Fetch(stmt, fetchSize.value)); }
    pendingInfo := recordCounts;
    if pendingInfo { w.Write(InfoSql(stmt)); }
    w.Flush();
    InThree(w.sent, owed, own, Riders(stmt, useExecute2, fetchSize, recordCounts));
  }

  lemma InThree(all: seq<Request>, a: seq<Request>, own: seq<Request>, b: seq<Request>)
    requires all == a + own + b && |own| == 1
    ensures |all| > |a| && all[|a|] == own[0] && all[|a| + 1..] == b && forall i | 0 <= i < |a| :: all[i] == a[i]
  {
  }

  /**
   * Execute with an op_fetch and an op_info_sql in the same packet. When the
   * execute fails their answers are left to the deferred drain.
   */
  method ExecuteStatement(w: WireConnection, stmt: Handle, tx: Handle, useExecute2: bool, fetchSize: Option<nat>,
        recordCounts: bool)
    returns (res: Outcome<ExecuteResult>)
    requires w.InSync()
    modifies w
    ensures w.lost >= old(w.lost) && w.writer == [] && w.flushCount == old(w.flushCount) + 1 &&
      old(w.history) < w.history
    ensures old(w.deferredResponses) == 0 ==> w.lost == old(w.lost)
    ensures w.Owed() == w.deferredResponses + (w.lost - old(w.lost)) +
      if res.Returned? then |Riders(stmt, useExecute2, fetchSize, recordCounts)| else 0
    ensures w.lost == old(w.lost) ==> w.Idle() || (res.Returned? && !useExecute2 && fetchSize.Some?)
    ensures w.lost == old(w.lost) ==> w.sent == Riders(stmt, useExecute2, fetchSize, recordCounts)
    ensures res.Returned? ==>
      && w.lost == old(w.lost) && w.inbound == [] && w.server.Valid() && w.deferredResponses == 0
      && res.value.pendingFetch == (!useExecute2 && fetchSize.Some?) && res.value.pendingInfo == recordCounts
      && Last(w.history).request == (if useExecute2 then Execute2(stmt, tx) else Execute(stmt, tx))
      && ErrorOf(Last(w.history).packets) == None
      && res.value.procRow == if useExecute2 then ProcRowOf(Last(w.history).packets) else None
    ensures res.Thrown? ==> ErrorOf(Last(w.history).packets) == Some(res.error)
  {
    hide WireConnection.Idle, Riders, Took, ErrorOf, ProcRowOf;
    var pendingFetch, pendingInfo := SendExecute(w, stmt, tx, useExecute2, fetchSize, recordCounts);
    RidersCount(stmt, useExecute2, fetchSize, recordCounts);
    ghost var flushed := w.sent;
    var procRow: Option<int>, error := None, None;
    if useExecute2 {
      procRow, error := AwaitExecute2(w);
    } else {
      error := AwaitExecute(w);
    }
    LastRequest(old(w.history), w.history, flushed, |flushed| - |w.sent|);
    if error.Some? {
      if pendingFetch { w.MarkDeferred(); }
      if pendingInfo { w.MarkDeferred(); }
      RidersQuiet(w);
      return Thrown(error.value);
    }
    RidersQuiet(w);
    res := Returned(ExecuteResult(procRow, pendingFetch, pendingInfo));
  }

  lemma RidersCount(stmt: Handle, useExecute2: bool, fetchSize: Option<nat>, recordCounts: bool)
    ensures |Riders(stmt, useExecute2, fetchSize, recordCounts)| ==
      (if !useExecute2 && fetchSize.Some? then 1 else 0) + (if recordCounts then 1 else 0)
    ensures useExecute2 || fetchSize.None? ==> forall q | q in Riders(stmt, useExecute2, fetchSize, recordCounts) ::
      q == InfoSql(stmt)
  {
  }

  lemma QuietNow(w: WireConnection)
    requires w.InSync()
    ensures w.server.Valid() && w.inbound == [] && w.Owed() == w.deferredResponses
    ensures forall i | 0 <= i < w.Owed() :: Quiet(w.server, (w.sent + w.writer)[i])
  {
    var owed := w.sent + w.writer;
    forall i | 0 <= i < |owed| ensures Quiet(w.server, owed[i]) {
      assert owed[i] in w.sent || owed[i] in w.writer;
    }
  }

  lemma RidersQuiet(w: WireConnection)
    ensures (w.server.Valid() && w.inbound == [] && w.writer == []
      && (forall q | q in w.sent :: Quiet(w.server, q))) ==> w.Idle()
  {
  }

  /**
   * Where the drain falls short of its comment: the fetch that rode behind a
   * failed execute is answered by an error, and whoever reads next, whatever the
   * request, is thrown that error while the own answer stays on the wire.
   */
  method AfterFailedExecute(w: WireConnection, stmt: Handle, tx: Handle, rows: nat, recordCounts: bool, next: Request)
    returns (failed: bool, op: Outcome<Packet>)
    requires w.InSync() && w.Owed() == 0
    modifies w
    ensures failed ==> op.Thrown? && w.Owed() == w.deferredResponses + 1 && !w.InSync()
  {
    var res := ExecuteStatement(w, stmt, tx, false, Some(rows), recordCounts);
    failed, op := res.Thrown?, Thrown(UnexpectedOp);
    if failed {
      assert w.sent[0].Fetch?;
      QuietNow(w);
      ghost var owed := w.sent;
      w.Write(next);
      w.Flush();
      assert forall i | 0 <= i < |owed| :: w.sent[i] == owed[i];
      ghost var mid, read;
      op, mid, read := w.ReadOp();
    }
  }

  /** The rows of a fetch stream, in order. */
  function RowsOf(ps: seq<Packet>): seq<int>
  {
    if ps == [] then [] else (if ps[0].FetchRow? then [ps[0].row] else []) + RowsOf(ps[1..])
  }

  lemma {:induction false} RowsPush(ps: seq<Packet>, p: Packet)
    ensures RowsOf(ps + [p]) == RowsOf(ps) + (if p.FetchRow? then [p.row] else [])
  {
    if ps == [] {
      assert ps + [p] == [p];
    } else {
      RowsPush(ps[1..], p);
      assert (ps + [p])[1..] == ps[1..] + [p];
    }
  }

  /**
   * Consume one fetch stream up to its terminator. On every exit the answer is
   * fully read, and nothing behind it is touched.
   */
  method ReadFetchBatch(w: WireConnection) returns (res: Outcome<(seq<int>, bool)>, ghost stream: seq<Packet>)
    requires w.server.Valid() && w.QuietAhead() && w.deferredResponses < |w.sent|
    requires w.sent[w.deferredResponses].Fetch?
    modifies w`server, w`sent, w`inbound, w`deferredResponses, w`inlined, w`history, w`lost
    ensures Consumed(w, old(w.deferredResponses), res.Thrown?)
    ensures w.server.cursors <= old(w.server).cursors
    ensures w.history != [] && stream == Last(w.history).packets && stream != []
    ensures w.lost == old(w.lost) ==>
      FetchStream(stream) && Last(w.history).request == old(w.sent)[old(w.deferredResponses)]
    ensures res.Returned? ==> var (rows, eof) := res.value;
      rows == RowsOf(stream) && stream[|stream| - 1] == FetchEnd(eof)
    ensures res.Thrown? ==> stream[|stream| - 1] == Resp(Bad(res.error))
  {
    hide Evolves, Took, Answers, FetchStream, Strip, Deliver, RowsOf, Inlined;
    var op;
    ghost var mid, read;
    op, mid, read := w.ReadOp();
    LastRequest(old(w.history), w.history, old(w.sent), |old(w.sent)| - |w.sent|);
    stream := Last(w.history).packets;
    if op.Thrown? { return Thrown(op.error), stream; }
    FetchAnswer(mid, old(w.sent)[old(w.deferredResponses)], w.server, stream);
    EndOfStream(stream);
    var rows, end := ReadRows(w, op.value, stream);
    match end
    case FetchEnd(eof) => res := Returned((rows, eof));
    case Resp(r) => res := Thrown(r.error);
  }

  /** The rest of a fetch stream behind its first packet. */
  method ReadRows(w: WireConnection, first: Packet, ghost all: seq<Packet>) returns (rows: seq<int>, end: Packet)
    requires w.server.Valid() && Framed(w.inbound) && w.deferredResponses == 0
    requires FetchStream(all) && all == [first] + Strip(w.inbound)
    modifies w`server, w`sent, w`inbound, w`deferredResponses, w`inlined, w`history, w`lost
    ensures w.server == old(w.server) && w.sent == old(w.sent) && w.inbound == [] && w.deferredResponses == 0
    ensures w.history == old(w.history) && w.lost == old(w.lost)
    ensures rows == RowsOf(all) && end == all[|all| - 1]
  {
    hide Evolves, Took, Strip, FetchStream, Framed;
    rows, end := [], first;
    ghost var stream: seq<Packet> := [];
    assert stream + [end] + Strip(w.inbound) == all;
    while end.FetchRow?
      invariant w.server == old(w.server) && w.sent == old(w.sent) && w.deferredResponses == 0
      invariant w.history == old(w.history) && w.lost == old(w.lost) && Framed(w.inbound)
      invariant all == stream + [end] + Strip(w.inbound) && rows == RowsOf(stream)
      decreases |Strip(w.inbound)|
    {
      InStream(all, stream, end, Strip(w.inbound));
      RowsPush(stream, end);
      rows := rows + [end.row];
      stream := stream + [end];
      FramedStrip(w.inbound);
      var op;
      ghost var mid, read;
      op, mid, read := w.ReadOp();
      end := op.value;
      Assoc(stream, [end], Strip(w.inbound));
    }
    InStream(all, stream, end, Strip(w.inbound));
    RowsPush(stream, end);
    FramedStrip(w.inbound);
  }

  lemma EndOfStream(all: seq<Packet>)
    requires FetchStream(all)
    ensures all != [] && var end := all[|all| - 1]; end.FetchEnd? || (end.Resp? && end.response.Bad?)
  {
  }

  /** A packet of the stream, with others behind it exactly when it is a row. */
  lemma InStream(all: seq<Packet>, before: seq<Packet>, p: Packet, rest: seq<Packet>)
    requires FetchStream(all) && all == before + [p] + rest
    ensures p.FetchRow? <==> rest != []
    ensures rest == [] ==> all == before + [p]
    ensures rest == [] ==> p.FetchEnd? || (p.Resp? && p.response.Bad?)
  {
    assert all[|before|] == p;
  }

  lemma FetchAnswer(s: State, q: Request, s': State, ps: seq<Packet>)
    requires q.Fetch? && Answers(s, q, s', ps)
    ensures FetchStream(ps) && s'.cursors <= s.cursors
  {
  }
}
