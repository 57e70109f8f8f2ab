/**
 * Bulk execution (api/batch.ts): rows are sent in cycles bounded by bytes, and
 * the cycles' completions are combined into one result.
 */
module Batch {
  import opened Results
  import opened WireTypes
  import opened Server
  import opened Wire
  import opened StatementProtocol

  /** One encoded row, with the blob ids among its values. */
  datatype Row = Row(buf: Bytes, blobs: seq<BlobId>)

  datatype BatchResult = BatchResult(rowCount: nat, rowsAffected: int, updateCounts: seq<int>, errors: seq<nat>)

  const NOTHING := BatchResult(0, 0, [], [])

  function Bufs(rows: seq<Row>): (r: seq<Bytes>)
    ensures |r| == |rows|
  {
    seq(|rows|, i requires 0 <= i < |rows| => rows[i].buf)
  }

  /** `ids` with `more` added, first occurrences only. */
  function AddNew(ids: seq<BlobId>, more: seq<BlobId>): seq<BlobId>
    decreases more
  {
    if more == [] then ids
    else AddNew(if more[0] in ids then ids else ids + [more[0]], more[1..])
  }

  /** The blob ids a cycle registers. */
  function Registered(rows: seq<Row>): seq<BlobId>
  {
    if rows == [] then [] else AddNew(Registered(rows[..|rows| - 1]), rows[|rows| - 1].blobs)
  }

  predicate Distinct(ids: seq<BlobId>) { forall i, j | 0 <= i < j < |ids| :: ids[i] != ids[j] }

  lemma {:induction false} AddNewOk(ids: seq<BlobId>, more: seq<BlobId>)
    requires Distinct(ids)
    ensures Distinct(AddNew(ids, more))
    ensures forall id :: id in AddNew(ids, more) <==> id in ids || id in more
    decreases more
  {
    if more != [] {
      AddNewOk(if more[0] in ids then ids else ids + [more[0]], more[1..]);
      assert forall id :: id in more <==> id == more[0] || id in more[1..];
    }
  }

  /** Each blob id in the rows of a cycle is registered exactly once, and no other is. */
  lemma {:induction false} RegisteredOnce(rows: seq<Row>)
    ensures Distinct(Registered(rows))
    ensures forall id :: id in Registered(rows) <==> exists k | 0 <= k < |rows| :: id in rows[k].blobs
  {
    if rows != [] {
      var front := rows[..|rows| - 1];
      RegisteredOnce(front);
      AddNewOk(Registered(front), rows[|rows| - 1].blobs);
      forall id ensures id in Registered(rows) <==> exists k | 0 <= k < |rows| :: id in rows[k].blobs {
        if id in Registered(front) {
          var k :| 0 <= k < |front| && id in front[k].blobs;
          assert rows[k] == front[k];
        }
        if k :| 0 <= k < |rows| && id in rows[k].blobs {
          if k < |front| { assert id in front[k].blobs; }
        }
      }
    }
  }

  function Registrations(stmt: Handle, ids: seq<BlobId>): (qs: seq<Request>)
    ensures |qs| == |ids|
  {
    seq(|ids|, i requires 0 <= i < |ids| => BatchRegblob(stmt, ids[i]))
  }

  /** The requests of one cycle whose answers are plain responses. */
  function CyclePlain(stmt: Handle, create: bool, rows: seq<Row>): seq<Request>
  {
    (if create then [BatchCreate(stmt)] else []) + Registrations(stmt, Registered(rows)) + [BatchMsg(stmt, Bufs(rows))]
  }

  function CycleRequests(stmt: Handle, tx: Handle, create: bool, rows: seq<Row>): seq<Request>
  {
    CyclePlain(stmt, create, rows) + [BatchExec(stmt, tx)]
  }

  /** Everything a batch sends: the create goes out with the first cycle only. */
  function BatchRequests(stmt: Handle, tx: Handle, cycles: seq<seq<Row>>): seq<Request>
  {
    if cycles == [] then []
    else BatchRequests(stmt, tx, cycles[..|cycles| - 1]) + CycleRequests(stmt, tx, |cycles| == 1, cycles[|cycles| - 1])
  }

  /** The completions that the server sent, oldest first. */
  function Completions(history: seq<Exchange>): seq<Completion>
  {
    if history == [] then []
    else Completions(history[..|history| - 1]) + CompletionsOf(Last(history).packets)
  }

  function CompletionsOf(ps: seq<Packet>): seq<Completion>
  {
    if ps != [] && ps[0].BatchState? then [ps[0].completion] else []
  }

  /** Drained answers are no completions. */
  lemma {:induction false} NoneDrainedCompletes(before: seq<Exchange>, now: seq<Exchange>, sent: seq<Request>, n: nat)
    requires Drained(before, now, sent, n)
    ensures Completions(now) == Completions(before)
    decreases n
  {
    if n == 0 {
      assert now == before;
    } else {
      var i := n - 1;
      var x := now[|before| + i];
      assert x == Last(now) && x.request == sent[i];
      assert Completions(now) == Completions(now[..|now| - 1]) + [];
      NoneDrainedCompletes(before, now[..|now| - 1], sent, n - 1);
    }
  }

  lemma TookCompletes(before: seq<Exchange>, now: seq<Exchange>, sent: seq<Request>, n: nat)
    requires Took(before, now, sent, n)
    ensures now != [] && Completions(now) == Completions(before) + CompletionsOf(Last(now).packets)
  {
    NoneDrainedCompletes(before, now[..|now| - 1], sent, n - 1);
  }

  lemma CyclePlainQuiet(stmt: Handle, create: bool, rows: seq<Row>)
    ensures |CyclePlain(stmt, create, rows)| > 0
    ensures forall s: State, i | 0 <= i < |CyclePlain(stmt, create, rows)| ::
      Quiet(s, CyclePlain(stmt, create, rows)[i])
  {
  }

  /** Await the plain responses of a cycle, in order, up to the first error. */
  method AwaitPlain(w: WireConnection, expected: nat, ghost owed: seq<Request>, ghost plain: seq<Request>,
        ghost exec: Request)
    returns (consumed: nat, error: Option<Error>)
    requires w.server.Valid() && w.inbound == [] && w.deferredResponses == |owed| && expected == |plain| > 0
    requires w.sent == owed + plain + [exec]
    requires forall i | 0 <= i < |owed| :: Quiet(w.server, owed[i])
    requires forall s: State, i | 0 <= i < |plain| :: Quiet(s, plain[i])
    modifies w`server, w`sent, w`inbound, w`deferredResponses, w`inlined, w`history, w`lost
    ensures w.server.Valid() && w.inbound == [] && w.lost >= old(w.lost)
    ensures error.None? ==>
      w.lost == old(w.lost) && w.deferredResponses == 0 && w.sent == [exec] && consumed == expected
    ensures Completions(w.history) == old(Completions(w.history))
    ensures error.Some? ==>
      && w.history != [] && ErrorOf(Last(w.history).packets) == error
      && consumed < expected
      && |w.sent| == w.deferredResponses + (expected - consumed) + (w.lost - old(w.lost))
      && (w.lost == old(w.lost) ==> w.deferredResponses == 0 && w.sent == (plain + [exec])[consumed + 1..])
  {
    hide Quiet, Evolves, PlainStep, Took, Completions;
    consumed, error := 0, None;
    while consumed < expected
      invariant 0 <= consumed <= expected == |plain|
      invariant w.server.Valid() && w.inbound == [] && w.lost == old(w.lost)
      invariant w.deferredResponses == if consumed == 0 then |owed| else 0
      invariant w.sent == (if consumed == 0 then owed else []) + (plain + [exec])[consumed..]
      invariant consumed == 0 ==> w.server == old(w.server)
      invariant Completions(w.history) == old(Completions(w.history))
    {
      ghost var (h, before) := (w.history, w.sent);
      ghost var d := w.deferredResponses;
      assert w.sent[d] == plain[consumed];
      assert w.sent[d + 1..] == (plain + [exec])[consumed + 1..];
      assert forall i | 0 <= i < d :: w.sent[i] == owed[i];
      assert Plain(w.server, plain[consumed]) by { QuietIsPlain(w.server, plain[consumed]); }
      var r;
      ghost var mid;
      r, mid := w.ReadResponse();
      TookCompletes(h, w.history, before, |before| - |w.sent|);
      if r.Bad? { return consumed, Some(r.error); }
      consumed := consumed + 1;
    }
  }

  lemma QuietIsPlain(s: State, q: Request)
    requires Quiet(s, q)
    ensures Plain(s, q)
  {
  }

  /** The reply to the exec: the completion or the error that the server sent, and no other. */
  method AwaitCompletion(w: WireConnection) returns (res: Outcome<Completion>)
    requires w.server.Valid() && w.inbound == [] && w.deferredResponses == 0 && |w.sent| == 1 && w.sent[0].BatchExec?
    modifies w`server, w`sent, w`inbound, w`deferredResponses, w`inlined, w`history, w`lost
    ensures w.server.Valid() && w.inbound == [] && w.sent == [] && w.deferredResponses == 0 && w.lost == old(w.lost)
    ensures w.history != []
    ensures w.history == old(w.history) + [Exchange(old(w.sent)[0], Last(w.history).packets)]
    ensures Last(w.history).packets == if res.Returned? then [BatchState(res.value)] else [Resp(Bad(res.error))]
  {
    hide Evolves, Deliver, Strip, Inlined;
    var op;
    ghost var mid, read;
    op, mid, read := w.ReadOp();
    ghost var all := Last(w.history).packets;
    ExecNeverDrains(mid, old(w.sent)[0], w.server, all);
    FramedStrip(w.inbound);
    assert all[0] == op.value && |all| == 1;
    assert w.history == old(w.history) + [Last(w.history)];
    match op.value
    case Resp(r) => res := Thrown(if r.Bad? then r.error else UnexpectedOp);
    case BatchState(completion) => res := Returned(completion);
  }

  /**
   * One cycle on a clean wire: everything in one flush, then every response in
   * order. When one fails, the answers behind it are counted as deferred.
   */
  method ExecCycle(w: WireConnection, stmt: Handle, tx: Handle, create: bool, ids: seq<BlobId>, rows: seq<Row>)
    returns (res: Outcome<Completion>)
    requires w.InSync() && ids == Registered(rows)
    modifies w
    ensures w.log == old(w.log) + CycleRequests(stmt, tx, create, rows) && w.flushCount == old(w.flushCount) + 1
    ensures w.server.Valid() && w.inbound == [] && w.lost >= old(w.lost) && w.writer == []
    ensures w.Owed() == w.deferredResponses + (w.lost - old(w.lost))
    ensures res.Returned? ==> w.InSync() && w.Owed() == 0 && w.lost == old(w.lost)
    ensures res.Thrown? && w.lost == old(w.lost) && w.Owed() > 0 ==> w.sent[w.Owed() - 1] == BatchExec(stmt, tx)
    ensures Completions(w.history) == old(Completions(w.history)) + if res.Returned? then [res.value] else []
    ensures w.history != [] &&
      (res.Returned? ==> Last(w.history) == Exchange(BatchExec(stmt, tx), [BatchState(res.value)]))
    ensures res.Thrown? ==> ErrorOf(Last(w.history).packets) == Some(res.error)
  {
    hide CyclePlain, Quiet, Completions;
    ghost var owed, plain := w.sent + w.writer, CyclePlain(stmt, create, rows);
    QuietNow(w);
    CyclePlainQuiet(stmt, create, rows);
    var expected := SendCycle(w, stmt, tx, create, ids, rows);
    assert w.sent == owed + plain + [BatchExec(stmt, tx)];
    var consumed, error := AwaitPlain(w, expected, owed, plain, BatchExec(stmt, tx));
    if error.Some? {
      MarkInbound(w, expected - consumed);
      return Thrown(error.value);
    }
    ghost var h := w.history;
    res := AwaitCompletion(w);
    OneMoreAnswer(h, Last(w.history));
  }

  lemma OneMoreAnswer(history: seq<Exchange>, x: Exchange)
    ensures Completions(history + [x]) == Completions(history) + CompletionsOf(x.packets)
  {
    assert (history + [x])[..|history|] == history;
  }

  /** The reply to an exec is a completion or an error, never an answer the drain gets past. */
  lemma ExecNeverDrains(s: State, q: Request, s': State, ps: seq<Packet>)
    requires q.BatchExec? && Answers(s, q, s', ps)
    ensures |ps| == 1 && (ps[0].BatchState? || (ps[0].Resp? && ps[0].response.Bad?))
  {
  }

  /**
   * A cycle that fails before its exec leaves the exec's reply to the drain. No
   * legal reply drains, so the next reader is never handed its own answer.
   */
  lemma AfterFailedCycle(s: State, exec: Request, s': State, reply: seq<Packet>,
      ps: seq<Packet>, answers: seq<Packet>, own: Packet)
    requires exec.BatchExec? && Answers(s, exec, s', reply)
    requires Strip(ps) == answers + reply + [own] && !Noise(own)
    ensures Deliver(ps, |answers| + 1) != Handed(own, 0)
  {
    ExecNeverDrains(s, exec, s', reply);
    DeliveredExactly(ps, answers + reply, own);
    assert reply[0] in answers + reply;
  }

  method MarkInbound(w: WireConnection, count: nat)
    modifies w`deferredResponses
    ensures w.deferredResponses == old(w.deferredResponses) + count
  {
    for i := 0 to count
      invariant w.deferredResponses == old(w.deferredResponses) + i
    {
      w.MarkDeferred();
    }
  }

  /** Write one cycle and flush it. */
  method SendCycle(w: WireConnection, stmt: Handle, tx: Handle, create: bool, ids: seq<BlobId>, rows: seq<Row>)
    returns (expected: nat)
    requires ids == Registered(rows)
    modifies w`writer, w`sent, w`flushCount, w`peak, w`log
    ensures w.writer == [] && w.flushCount == old(w.flushCount) + 1
    ensures w.log == old(w.log) + CycleRequests(stmt, tx, create, rows)
    ensures w.sent == old(w.sent + w.writer) + CycleRequests(stmt, tx, create, rows)
    ensures expected == |CyclePlain(stmt, create, rows)|
  {
    hide CyclePlain, Registered, Bufs;
    expected := 0;
    ghost var before, log0 := w.writer, w.log;
    ghost var part: seq<Request> := [];
    if create {
      w.Write(BatchCreate(stmt));
      part := [BatchCreate(stmt)];
      expected := expected + 1;
    }
    ghost var head := part;
    assert Registrations(stmt, ids[..0]) == [] && head + [] == head;
    for i := 0 to |ids|
      invariant expected == |head| + i
      invariant part == head + Registrations(stmt, ids[..i]) && w.writer == before + part && w.log == log0 + part
      modifies w`writer, w`log
    {
      RegistrationsPush(stmt, ids, i);
      Grow(before, log0, part, BatchRegblob(stmt, ids[i]));
      Grow(head, head, Registrations(stmt, ids[..i]), BatchRegblob(stmt, ids[i]));
      w.Write(BatchRegblob(stmt, ids[i]));
      part := part + [BatchRegblob(stmt, ids[i])];
      expected := expected + 1;
    }
    assert ids[..|ids|] == ids;
    w.Write(BatchMsg(stmt, Bufs(rows)));
    expected := expected + 1;
    Grow(before, log0, part, BatchMsg(stmt, Bufs(rows)));
    part := part + [BatchMsg(stmt, Bufs(rows))];
    PlainIs(stmt, create, rows, part);
    w.Write(BatchExec(stmt, tx));
    Grow(before, log0, part, BatchExec(stmt, tx));
    w.Flush();
  }

  lemma PlainIs(stmt: Handle, create: bool, rows: seq<Row>, part: seq<Request>)
    requires var head := if create then [BatchCreate(stmt)] else [];
      part == head + Registrations(stmt, Registered(rows)) + [BatchMsg(stmt, Bufs(rows))]
    ensures part == CyclePlain(stmt, create, rows)
  {
  }

  lemma Grow(a: seq<Request>, b: seq<Request>, part: seq<Request>, q: Request)
    ensures a + part + [q] == a + (part + [q]) && b + part + [q] == b + (part + [q])
  {
  }

  lemma RegistrationsPush(stmt: Handle, ids: seq<BlobId>, i: nat)
    requires i < |ids|
    ensures Registrations(stmt, ids[..i + 1]) == Registrations(stmt, ids[..i]) + [BatchRegblob(stmt, ids[i])]
  {
  }

  // ---- the whole batch ---------------------------------------------------------

  /** Rows that failed, by position. */
  function FailedAt(counts: seq<int>): seq<nat>
  {
    if counts == [] then []
    else FailedAt(counts[..|counts| - 1]) + (if counts[|counts| - 1] == -1 then [|counts| - 1 as nat] else [])
  }

  /** Affected records, failures and rows without a count left out. */
  function Affected(counts: seq<int>): int
  {
    if counts == [] then 0
    else Affected(counts[..|counts| - 1]) + Max(counts[|counts| - 1], 0)
  }

  function Shifted(ns: seq<nat>, offset: nat): (r: seq<nat>)
    ensures |r| == |ns|
  {
    seq(|ns|, i requires 0 <= i < |ns| => offset + ns[i])
  }

  /** One cycle's completion added to what came before. */
  function Add(sum: BatchResult, rows: nat, c: Completion): BatchResult
  {
    BatchResult(sum.rowCount + rows, sum.rowsAffected + Affected(c.updateCounts),
      sum.updateCounts + c.updateCounts, sum.errors + Shifted(c.failed, sum.rowCount))
  }

  function Combined(cycles: seq<seq<Row>>, completions: seq<Completion>): BatchResult
    requires |cycles| == |completions|
  {
    if cycles == [] then NOTHING
    else
      var n := |cycles| - 1;
      Add(Combined(cycles[..n], completions[..n]), |cycles[n]|, completions[n])
  }

  function Concat(cycles: seq<seq<Row>>): seq<Row>
  {
    if cycles == [] then [] else Concat(cycles[..|cycles| - 1]) + cycles[|cycles| - 1]
  }

  // ---- a server that takes the rows in order ---------------------------------------

  /** What a row does: the next database, and its update count, -1 for a failure. */
  type Engine = (int, Row) -> (int, int)

  function Counts(e: Engine, db: int, rows: seq<Row>): (r: (int, seq<int>))
    ensures |r.1| == |rows|
  {
    if rows == [] then (db, [])
    else
      var (before, counts) := Counts(e, db, rows[..|rows| - 1]);
      var (after, n) := e(before, rows[|rows| - 1]);
      (after, counts + [n])
  }

  /** With MULTIERROR the server reports a count for each row, and the positions that failed. */
  function Report(counts: seq<int>): Completion { Completion(counts, FailedAt(counts)) }

  /** The completions of `cycles`, run one after the other. */
  predicate InOrder(e: Engine, db: int, cycles: seq<seq<Row>>, completions: seq<Completion>)
    requires |cycles| == |completions|
  {
    if cycles == [] then true
    else
      var n := |cycles| - 1;
      && InOrder(e, db, cycles[..n], completions[..n])
      && completions[n] == Report(Counts(e, Counts(e, db, Concat(cycles[..n])).0, cycles[n]).1)
  }

  lemma {:induction false} CountsAppend(e: Engine, db: int, a: seq<Row>, b: seq<Row>)
    ensures var (mid, ca) := Counts(e, db, a);
      var (after, cb) := Counts(e, mid, b);
      Counts(e, db, a + b) == (after, ca + cb)
  {
    var ca := Counts(e, db, a).1;
    if b == [] {
      assert a + b == a && ca + [] == ca;
    } else {
      var front := b[..|b| - 1];
      CountsAppend(e, db, a, front);
      var (before, cf) := Counts(e, Counts(e, db, a).0, front);
      var n := e(before, b[|b| - 1]).1;
      assert (ca + cf) + [n] == ca + (cf + [n]);
      assert (a + b)[..|a + b| - 1] == a + front && (a + b)[|a + b| - 1] == b[|b| - 1];
    }
  }

  lemma {:induction false} FailedAppend(a: seq<int>, b: seq<int>)
    ensures FailedAt(a + b) == FailedAt(a) + Shifted(FailedAt(b), |a|)
  {
    if b == [] {
      assert a + b == a && Shifted(FailedAt(b), |a|) == [];
    } else {
      var front := b[..|b| - 1];
      FailedAppend(a, front);
      assert (a + b)[..|a + b| - 1] == a + front && (a + b)[|a + b| - 1] == b[|b| - 1];
    }
  }

  lemma {:induction false} AffectedAppend(a: seq<int>, b: seq<int>)
    ensures Affected(a + b) == Affected(a) + Affected(b)
  {
    if b == [] {
      assert a + b == a;
    } else {
      var front := b[..|b| - 1];
      AffectedAppend(a, front);
      assert (a + b)[..|a + b| - 1] == a + front && (a + b)[|a + b| - 1] == b[|b| - 1];
    }
  }

  /** What one execute of all the rows would report. */
  function Whole(e: Engine, db: int, rows: seq<Row>): BatchResult
  {
    var counts := Counts(e, db, rows).1;
    BatchResult(|rows|, Affected(counts), counts, FailedAt(counts))
  }

  /**
   * Chunking is invisible: however the rows were cut into cycles, the combined
   * result is that of a single execute, counts and global error positions alike.
   */
  lemma {:induction false} ChunkingInvisible(e: Engine, db: int, cycles: seq<seq<Row>>, completions: seq<Completion>)
    requires |cycles| == |completions| && InOrder(e, db, cycles, completions)
    ensures Combined(cycles, completions) == Whole(e, db, Concat(cycles))
  {
    if cycles != [] {
      hide Counts, Affected, FailedAt, Shifted;
      var n := |cycles| - 1;
      var before := Concat(cycles[..n]);
      ChunkingInvisible(e, db, cycles[..n], completions[..n]);
      CountsAppend(e, db, before, cycles[n]);
      var (mid, a) := Counts(e, db, before);
      var b := Counts(e, mid, cycles[n]).1;
      FailedAppend(a, b);
      AffectedAppend(a, b);
    }
  }

  // ---- the loop over the rows ----------------------------------------------------------

  lemma CombinedPush(cycles: seq<seq<Row>>, completions: seq<Completion>, cycle: seq<Row>, c: Completion)
    requires |cycles| == |completions|
    ensures Combined(cycles + [cycle], completions + [c]) == Add(Combined(cycles, completions), |cycle|, c)
  {
    assert (cycles + [cycle])[..|cycles|] == cycles && (completions + [c])[..|completions|] == completions;
  }

  lemma CyclesPush(stmt: Handle, tx: Handle, cycles: seq<seq<Row>>, cycle: seq<Row>)
    ensures Concat(cycles + [cycle]) == Concat(cycles) + cycle
    ensures BatchRequests(stmt, tx, cycles + [cycle]) == BatchRequests(stmt, tx, cycles) +
      CycleRequests(stmt, tx, cycles == [], cycle)
  {
    assert (cycles + [cycle])[..|cycles|] == cycles;
  }

  lemma RegisteredPush(rows: seq<Row>, row: Row)
    ensures Registered(rows + [row]) == AddNew(Registered(rows), row.blobs)
  {
    assert (rows + [row])[..|rows|] == rows;
  }

  /** Note the blob ids of one row that the cycle has not seen. */
  method NoteBlobs(row: Row, ids: seq<BlobId>, seen: set<BlobId>) returns (ids': seq<BlobId>, seen': set<BlobId>)
    requires forall id :: id in seen <==> id in ids
    ensures ids' == AddNew(ids, row.blobs) && forall id :: id in seen' <==> id in ids'
  {
    ids', seen' := ids, seen;
    var k := 0;
    while k < |row.blobs|
      invariant 0 <= k <= |row.blobs| && forall id :: id in seen' <==> id in ids'
      invariant AddNew(ids', row.blobs[k..]) == AddNew(ids, row.blobs)
    {
      var id := row.blobs[k];
      assert row.blobs[k..][0] == id && row.blobs[k..][1..] == row.blobs[k + 1..];
      if id !in seen' {
        seen' := seen' + {id};
        ids' := ids' + [id];
      }
      k := k + 1;
    }
  }

  /** `n` rows leave room in the chunk. */
  predicate Fits(n: nat, stride: nat, chunk: nat) { n * stride < chunk }

  /** A cycle is sent as soon as it fills a chunk. */
  ghost predicate Chunked(cycles: seq<seq<Row>>, stride: nat, chunk: nat) {
    forall i | 0 <= i < |cycles| :: |cycles[i]| > 0 && Fits(|cycles[i]| - 1, stride, chunk)
  }

  /** The variables that a batch run keeps between its rows and cycles. */
  class BatchRun {
    const wire: WireConnection
    const stmt: Handle
    const tx: Handle
    const stride: nat
    const chunk: nat
    const continueOnError: bool

    var combined: BatchResult
    var created: bool
    var rowBufs: seq<Row>
    var cycleBlobIds: seq<BlobId>
    var seenBlobIds: set<BlobId>

    /** The cycles sent so far, and the completions of those that came back. */
    ghost var cycles: seq<seq<Row>>
    ghost var completions: seq<Completion>
    ghost const log0: seq<Request>
    ghost const lost0: nat
    ghost const served0: seq<Completion>

    constructor (w: WireConnection, stmt: Handle, tx: Handle, stride: nat, chunkBytes: nat, continueOnError: bool)
      requires w.InSync()
      ensures wire == w && this.stmt == stmt && this.tx == tx && this.stride == stride
      ensures chunk == Max(stride, chunkBytes) && this.continueOnError == continueOnError
      ensures Valid() && rowBufs == [] && cycles == [] && log0 == w.log && lost0 == w.lost
      ensures served0 == Completions(w.history)
    {
      wire, this.stmt, this.tx, this.stride := w, stmt, tx, stride;
      chunk, this.continueOnError := Max(stride, chunkBytes), continueOnError;
      combined, created, rowBufs, cycleBlobIds, seenBlobIds := NOTHING, false, [], [], {};
      cycles, completions, log0, lost0, served0 := [], [], w.log, w.lost, Completions(w.history);
    }

    /** Nothing is in flight, and `combined` sums up the cycles that were run. */
    ghost predicate Valid()
      reads this, wire
    {
      && wire.InSync() && wire.lost == lost0 && wire.log == log0 + BatchRequests(stmt, tx, cycles)
      && |completions| == |cycles| && created == (cycles != []) && combined == Combined(cycles, completions)
      && (!continueOnError ==> combined.errors == [])
      && cycleBlobIds == Registered(rowBufs) && (forall id :: id in seenBlobIds <==> id in cycleBlobIds)
      && Chunked(cycles, stride, chunk) && Served()
    }

    /** The completions that were combined are those that the server sent, in order. */
    ghost predicate Served()
      reads this, wire
    {
      Completions(wire.history) == served0 + completions
    }

    /** The batch has failed, for a reason that the server gave. */
    ghost predicate Failed(e: Error)
      reads this, wire
    {
      Served() && Sent() && WhyFailed(cycles, completions, continueOnError, wire.history, e)
    }

    /** The log tells what was sent, and what is owed is deferred. */
    ghost predicate Sent()
      reads this, wire
    {
      && wire.lost >= lost0 && wire.Owed() == wire.deferredResponses + (wire.lost - lost0)
      && wire.log == log0 + BatchRequests(stmt, tx, cycles)
      && created == (cycles != []) && Chunked(cycles, stride, chunk)
    }

    /** Send the collected rows as one cycle. */
    method Send() returns (completion: Outcome<Completion>)
      requires Valid() && |rowBufs| > 0 && Fits(|rowBufs| - 1, stride, chunk)
      modifies this`created, this`cycles, wire
      ensures cycles == old(cycles) + [rowBufs] && completions == old(completions) && Sent()
      ensures completion.Returned? ==>
        wire.InSync() && wire.lost == lost0 && Completions(wire.history) == served0 + completions + [completion.value]
      ensures completion.Thrown? ==> Failed(completion.error)
    {
      hide CycleRequests, BatchRequests, Combined, Registered, Chunked, Fits, Concat, WireConnection.InSync;
      LogPush(log0, stmt, tx, cycles, rowBufs);
      ChunkedPush(cycles, rowBufs, stride, chunk);
      var create := !created;
      created := true;
      cycles := cycles + [rowBufs];
      completion := ExecCycle(wire, stmt, tx, create, cycleBlobIds, rowBufs);
      assert completion.Thrown? ==> served0 + completions + [] == served0 + completions;
    }

    method Cycle() returns (error: Option<Error>)
      requires Valid() && |rowBufs| > 0 && Fits(|rowBufs| - 1, stride, chunk)
      modifies this, wire
      ensures cycles == old(cycles) + [old(rowBufs)]
      ensures error.None? ==> Valid() && rowBufs == []
      ensures error.Some? ==> Failed(error.value)
    {
      hide BatchRequests, Combined, Add, Registered, Chunked, Fits, WireConnection.InSync, Completions;
      ghost var before, taken := cycles, completions;
      var completion := Send();
      if completion.Thrown? { return Some(completion.error); }
      CombinedPush(before, taken, rowBufs, completion.value);
      Assoc(served0, taken, [completion.value]);
      File(completion.value);
      error := if !continueOnError && |combined.errors| > 0 then Some(RowFailed(combined.errors[0])) else None;
    }

    /** Add one completion to the result, and start a new cycle. */
    method File(completion: Completion)
      modifies this`combined, this`completions, this`rowBufs, this`cycleBlobIds, this`seenBlobIds
      ensures completions == old(completions) + [completion]
      ensures combined == Add(old(combined), |old(rowBufs)|, completion)
      ensures rowBufs == [] && cycleBlobIds == Registered([]) && seenBlobIds == {}
      ensures forall id :: id !in cycleBlobIds
    {
      completions := completions + [completion];
      combined := Add(combined, |rowBufs|, completion);
      rowBufs, cycleBlobIds, seenBlobIds := [], [], {};
    }

    method AddRow(row: Row) returns (error: Option<Error>)
      requires Valid() && chunk > 0 && (rowBufs == [] || Fits(|rowBufs|, stride, chunk))
      modifies this, wire
      ensures Concat(cycles) + (if error.None? then rowBufs else []) == old(Concat(cycles) + rowBufs) + [row]
      ensures error.None? ==> Valid() && (rowBufs == [] || Fits(|rowBufs|, stride, chunk))
      ensures error.Some? ==> Failed(error.value)
    {
      hide Chunked, WireConnection.InSync, Combined, BatchRequests, Registered, AddNew, Concat, Fits;
      RegisteredPush(rowBufs, row);
      cycleBlobIds, seenBlobIds := NoteBlobs(row, cycleBlobIds, seenBlobIds);
      CyclesPush(stmt, tx, cycles, rowBufs + [row]);
      assert Concat(cycles) + (rowBufs + [row]) == (Concat(cycles) + rowBufs) + [row];
      rowBufs := rowBufs + [row];
      assert |rowBufs| - 1 == |old(rowBufs)|;
      NoneFits(stride, chunk);
      error := None;
      if !Fits(|rowBufs|, stride, chunk) { error := Cycle(); }
    }

    /** All rows, and the last, short cycle. */
    method AddRows(rows: seq<Row>) returns (error: Option<Error>)
      requires Valid() && chunk > 0 && rowBufs == [] && cycles == []
      modifies this, wire
      ensures Concat(cycles) <= rows
      ensures error.None? ==> Valid() && Concat(cycles) == rows
      ensures error.Some? ==> Failed(error.value)
    {
      hide WireConnection.InSync, Combined, BatchRequests, Registered, Chunked, Fits, Concat;
      var index := 0;
      error := None;
      ConcatNone();
      while index < |rows| && error.None?
        invariant 0 <= index <= |rows|
        invariant error.None? ==> Valid() && (rowBufs == [] || Fits(|rowBufs|, stride, chunk))
        invariant error.Some? ==> Failed(error.value)
        invariant Concat(cycles) + (if error.None? then rowBufs else []) == rows[..index]
      {
        assert rows[..index] + [rows[index]] == rows[..index + 1];
        error := AddRow(rows[index]);
        index := index + 1;
      }
      if error.None? && |rowBufs| > 0 {
        CyclesPush(stmt, tx, cycles, rowBufs);
        Below(|rowBufs|, stride, chunk);
        error := Cycle();
      }
      assert Concat(cycles) + [] == Concat(cycles);
      assert index == |rows| ==> rows[..index] == rows;
    }
  }

  /**
   * Why a batch fails with `e`: the last cycle was answered by that error, or its
   * completion was, and rows failed, of which the error names the first.
   */
  ghost predicate WhyFailed(cycles: seq<seq<Row>>, completions: seq<Completion>, continueOnError: bool,
      history: seq<Exchange>, e: Error)
  {
    || (|cycles| == |completions| + 1 && history != [] && ErrorOf(Last(history).packets) == Some(e))
    || (&& |cycles| == |completions| && !continueOnError
        && var errors := Combined(cycles, completions).errors; errors != [] && e == RowFailed(errors[0]))
  }

  lemma ConcatNone()
    ensures Concat([]) == []
  {
  }

  lemma NoneFits(stride: nat, chunk: nat)
    requires chunk > 0
    ensures Fits(0, stride, chunk)
  {
  }

  lemma Below(n: nat, stride: nat, chunk: nat)
    requires n > 0 && Fits(n, stride, chunk)
    ensures Fits(n - 1, stride, chunk)
  {
    assert (n - 1) * stride == n * stride - stride;
  }

  lemma LogPush(log: seq<Request>, stmt: Handle, tx: Handle, cycles: seq<seq<Row>>, cycle: seq<Row>)
    ensures log + BatchRequests(stmt, tx, cycles) + CycleRequests(stmt, tx, cycles == [], cycle) ==
            log + BatchRequests(stmt, tx, cycles + [cycle])
  {
    CyclesPush(stmt, tx, cycles, cycle);
    Assoc(log, BatchRequests(stmt, tx, cycles), CycleRequests(stmt, tx, cycles == [], cycle));
  }

  lemma ChunkedPush(cycles: seq<seq<Row>>, cycle: seq<Row>, stride: nat, chunk: nat)
    requires Chunked(cycles, stride, chunk) && |cycle| > 0 && Fits(|cycle| - 1, stride, chunk)
    ensures Chunked(cycles + [cycle], stride, chunk)
  {
  }

  /**
   * Send all rows in cycles. `cycles` are those that were sent, `completions`
   * those that the server answered, in order; the result combines them, and the
   * release follows exactly when the create was sent.
   */
  method RunBatch(w: WireConnection, stmt: Handle, tx: Handle, rows: seq<Row>, stride: nat, chunkBytes: nat,
        continueOnError: bool)
    returns (res: Outcome<BatchResult>, ghost cycles: seq<seq<Row>>, ghost completions: seq<Completion>)
    requires w.InSync() && stride > 0
    modifies w
    ensures w.lost >= old(w.lost) && w.Owed() == w.deferredResponses + (w.lost - old(w.lost))
    ensures w.log == old(w.log) + BatchRequests(stmt, tx, cycles) + if cycles == [] then [] else [BatchRelease(stmt)]
    ensures Chunked(cycles, stride, Max(stride, chunkBytes)) && Concat(cycles) <= rows
    ensures Completions(w.history) == old(Completions(w.history)) + completions
    ensures res.Thrown? ==> WhyFailed(cycles, completions, continueOnError, w.history, res.error)
    ensures res.Returned? ==>
      && w.InSync() && w.lost == old(w.lost) && Concat(cycles) == rows && |completions| == |cycles|
      && res.value == Combined(cycles, completions) && (!continueOnError ==> res.value.errors == [])
  {
    hide BatchRequests, Combined, Chunked, Fits, Concat, Registered;
    var run := new BatchRun(w, stmt, tx, stride, chunkBytes, continueOnError);
    var error := run.AddRows(rows);
    cycles, completions := run.cycles, run.completions;
    if run.created {
      w.Write(BatchRelease(stmt));
      w.MarkDeferred();
    }
    res := if error.Some? then Thrown(error.value) else Returned(run.combined);
  }

  /**
   * The same rows in chunks of two sizes: whatever the two servers, as long as each
   * takes its rows in order and with the same effect, both callers see one result.
   */
  method SameInAnyChunks(w1: WireConnection, w2: WireConnection, stmt: Handle, tx: Handle, rows: seq<Row>,
      stride: nat, chunk1: nat, chunk2: nat, continueOnError: bool, e: Engine, db: int)
    returns (a: Outcome<BatchResult>, b: Outcome<BatchResult>,
      ghost cycles1: seq<seq<Row>>, ghost cycles2: seq<seq<Row>>, ghost served1: seq<Completion>,
        ghost served2: seq<Completion>)
    requires w1 != w2 && w1.InSync() && w2.InSync() && stride > 0
    modifies w1, w2
    ensures Completions(w1.history) == old(Completions(w1.history)) + served1
    ensures Completions(w2.history) == old(Completions(w2.history)) + served2
    ensures a.Returned? && b.Returned? ==>
      && |cycles1| == |served1| && |cycles2| == |served2| && Concat(cycles1) == Concat(cycles2) == rows
      && (InOrder(e, db, cycles1, served1) && InOrder(e, db, cycles2, served2) ==>
        a == b == Returned(Whole(e, db, rows)))
  {
    hide Combined, Chunked, BatchRequests, Concat, InOrder, Whole, Completions, WireConnection.InSync;
    a, cycles1, served1 := RunBatch(w1, stmt, tx, rows, stride, chunk1, continueOnError);
    b, cycles2, served2 := RunBatch(w2, stmt, tx, rows, stride, chunk2, continueOnError);
    if a.Returned? && b.Returned? && InOrder(e, db, cycles1, served1) && InOrder(e, db, cycles2, served2) {
      ChunkingInvisible(e, db, cycles1, served1);
      ChunkingInvisible(e, db, cycles2, served2);
    }
  }
}
