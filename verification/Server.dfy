/**
 * The server as the driver sees it: a store of blobs, the blobs it holds open,
 * and one answer per request. It may refuse any request, hand out any handle it
 * is not using, and split a blob into replies in any way.
 */
module Server {
  import opened WireTypes
  import opened Framing

  /** Replies still to be sent for an open blob, each a framed buffer. */
  type Replies = seq<Bytes>

  datatype Upload = Upload(id: BlobId, content: Bytes)

  datatype State = State(
    store: map<BlobId, Bytes>,
    reading: map<Handle, Replies>,
    writing: map<Handle, Upload>,
    cursors: set<Handle>)
  {
    predicate InUse(h: Handle) { h in reading || h in writing }

    /** Blobs being written are not in the store yet, and no two writers share one. */
    ghost predicate Valid() {
      && reading.Keys !! writing.Keys
      && (forall h | h in writing :: writing[h].id !in store)
      && (forall h, k | h in writing && k in writing && h != k :: writing[h].id != writing[k].id)
    }
  }

  /** What a client that reads `replies` to the end receives. */
  function Content(replies: Replies): Bytes
  {
    if replies == [] then [] else Unframe(replies[0]) + Content(replies[1..])
  }

  /** The code that marks the end of a blob in the handle of a segment response. */
  const EOF_HANDLE := 2

  predicate Targets(q: Request, h: Handle) {
    match q
    case GetSegment(b, _) => b == h
    case CloseBlob(b) => b == h
    case BatchSegments(b, _) => b == h
    case _ => false
  }

  /** `q` is answered by exactly one op_response. */
  predicate Plain(s: State, q: Request) {
    match q
    case Execute2(_, _) => false
    case BatchExec(_, _) => false
    case Fetch(stmt, _) => stmt !in s.cursors
    case _ => true
  }

  /** The legal op_responses of a plain request, and what they do to the server. */
  ghost predicate PlainStep(s: State, q: Request, s': State, r: Response) {
    if r.Bad? then
      && s'.store == s.store && s'.reading == s.reading && s'.writing == s.writing && s'.cursors <= s.cursors
      && (r.error.Refused? || (r.error == BadHandle && Rejected(s, q)) || (r.error == NoCursor && q.Fetch?))
      && (q.Execute? ==> q.stmt !in s'.cursors)
    else
      && !Rejected(s, q)
      && match q
         case OpenBlob(_, id) =>
           && id in s.store && !s.InUse(r.handle) && r.handle in s'.reading
           && Content(s'.reading[r.handle]) == s.store[id]
           && s' == s.(reading := s.reading[r.handle := s'.reading[r.handle]])
         case GetSegment(h, _) =>
           var left := s.reading[h];
           if left == [] then s' == s && r.data == [] && r.handle == EOF_HANDLE
           else
             && s' == s.(reading := s.reading[h := left[1..]])
             && r.data == left[0]
             && (r.handle == EOF_HANDLE <==> |left| == 1)
         case CloseBlob(h) =>
           if h in s.reading then s' == s.(reading := s.reading - {h})
           else s' == s.(store := s.store[s.writing[h].id := s.writing[h].content], writing := s.writing - {h})
         case CreateBlob(_) =>
           && !s.InUse(r.handle) && r.oid !in s.store
           && (forall h | h in s.writing :: s.writing[h].id != r.oid)
           && s' == s.(writing := s.writing[r.handle := Upload(r.oid, [])])
         case BatchSegments(h, framed) =>
           s' == s.(writing := s.writing[h := Upload(s.writing[h].id, s.writing[h].content + Unframe(framed))])
         case Execute(stmt, _) => s' == s.(cursors := s'.cursors) && s'.cursors <= s.cursors + {stmt}
         case _ => s' == s.(cursors := s'.cursors) && s'.cursors <= s.cursors
  }

  /** Requests that name something the server does not have. */
  predicate Rejected(s: State, q: Request) {
    match q
    case OpenBlob(_, id) => id !in s.store
    case GetSegment(h, _) => h !in s.reading
    case CloseBlob(h) => !s.InUse(h)
    case BatchSegments(h, _) => h !in s.writing
    case Fetch(stmt, _) => stmt !in s.cursors
    case _ => false
  }

  /** A fetch stream: rows, then its terminator or an error. */
  predicate FetchStream(ps: seq<Packet>) {
    && |ps| > 0
    && (forall i | 0 <= i < |ps| - 1 :: ps[i].FetchRow?)
    && (ps[|ps| - 1].FetchEnd? || (ps[|ps| - 1].Resp? && ps[|ps| - 1].response.Bad?))
  }

  /** The legal answers to `q`, with keep-alives and inline blobs taken out. */
  ghost predicate Answers(s: State, q: Request, s': State, ps: seq<Packet>) {
    if Plain(s, q) then
      |ps| == 1 && ps[0].Resp? && PlainStep(s, q, s', ps[0].response)
    else
      && s' == s.(cursors := s'.cursors) && s'.cursors <= s.cursors
      && if q.Fetch? then FetchStream(ps)
         else if q.BatchExec? then
           |ps| == 1 && (ps[0].BatchState? || (ps[0].Resp? && ps[0].response.Bad?))
         else
           || (|ps| == 1 && ps[0].Resp?)
           || (|ps| == 2 && ps[0].SqlResp? && ps[1].Resp?)
  }

  /**
   * What a client may count on while the server works through `qs`: stored blobs
   * keep their bytes, and a handle that no request of `qs` names keeps its state.
   */
  ghost predicate Evolves(s: State, qs: seq<Request>, s': State) {
    && (forall id | id in s.store :: id in s'.store && s'.store[id] == s.store[id])
    && (forall h | h in s.reading && (forall q | q in qs :: !Targets(q, h)) ::
          h in s'.reading && s'.reading[h] == s.reading[h])
    && (forall h | h in s.writing && (forall q | q in qs :: !Targets(q, h)) ::
          h in s'.writing && s'.writing[h] == s.writing[h])
  }

  /** Stored blobs keep their bytes. */
  ghost predicate Keeps(a: State, b: State) {
    forall id | id in a.store :: id in b.store && b.store[id] == a.store[id]
  }

  lemma AnswersEvolves(s: State, q: Request, s': State, ps: seq<Packet>)
    requires s.Valid() && Answers(s, q, s', ps)
    ensures s'.Valid()
    ensures Evolves(s, [q], s')
    ensures s'.cursors <= s.cursors + (if q.Execute? then {q.stmt} else {})
  {
    assert q in [q];
  }

  /** No answer takes stored bytes away. */
  lemma PlainKeeps(s: State, q: Request, s': State, r: Response)
    requires s.Valid() && PlainStep(s, q, s', r)
    ensures Keeps(s, s')
  {
  }

  /** A fetch without an open cursor can only be answered by an error. */
  lemma FetchIsDoomed(s: State, q: Request, s': State, r: Response)
    requires q.Fetch? && Plain(s, q) && PlainStep(s, q, s', r)
    ensures r.Bad?
  {
  }

  lemma EvolvesKeeps(s: State, qs: seq<Request>, s': State, h: Handle)
    requires Evolves(s, qs, s') && h in s.reading && forall q | q in qs :: !Targets(q, h)
    ensures h in s'.reading && s'.reading[h] == s.reading[h]
  {
  }

  lemma EvolvesRefl(s: State, qs: seq<Request>)
    ensures Evolves(s, qs, s)
  {
  }

  lemma EvolvesTrans(s: State, a: seq<Request>, m: State, b: seq<Request>, s': State)
    requires Evolves(s, a, m) && Evolves(m, b, s')
    ensures Evolves(s, a + b, s')
  {
    assert forall q | q in a :: q in a + b;
    assert forall q | q in b :: q in a + b;
  }

  /** A splitting that always exists: one byte per reply. */
  function ByteByByte(content: Bytes): Replies
  {
    if content == [] then [] else [Frame(content[..1])] + ByteByByte(content[1..])
  }

  lemma {:induction false} ByteByByteContent(content: Bytes)
    ensures Content(ByteByByte(content)) == content
  {
    if content != [] {
      ByteByByteContent(content[1..]);
      UnframeFrame(content[..1], []);
      assert Frame(content[..1]) + [] == Frame(content[..1]);
    }
  }

  /** One turn of the server; every choice it has is left open. */
  method Answer(s: State, q: Request) returns (s': State, ps: seq<Packet>)
    requires s.Valid()
    ensures Answers(s, q, s', ps)
  {
    s' := s;
    var refuse: bool, code: int := *, *;
    if Plain(s, q) {
      var r: Response;
      if Rejected(s, q) {
        r := Bad(if q.Fetch? then NoCursor else BadHandle);
      } else if refuse {
        r := Bad(Refused(code));
        if q.Execute? { s' := s.(cursors := s.cursors - {q.stmt}); }
      } else {
        s', r := Grant(s, q);
      }
      ps := [Resp(r)];
    } else {
      var error := Resp(Bad(Refused(code)));
      match q
      case Fetch(_, _) =>
        var rows: seq<int>, eof: bool := *, *;
        ps := seq(|rows|, i requires 0 <= i < |rows| => FetchRow(rows[i])) + [if refuse then error else FetchEnd(eof)];
      case BatchExec(_, _) =>
        var completion: Completion := *;
        ps := [if refuse then error else BatchState(completion)];
      case _ =>
        var row: Option<int>, tail: bool := *, *;
        ps := if refuse then [error] else [SqlResp(row), if tail then error else Resp(Good(0, 0, []))];
    }
  }

  /** A request the server carries out. */
  method Grant(s: State, q: Request) returns (s': State, r: Response)
    requires s.Valid() && Plain(s, q) && !Rejected(s, q)
    ensures r.Good? && PlainStep(s, q, s', r)
  {
    s', r := s, Good(0, 0, []);
    match q
    case OpenBlob(_, id) =>
      var h := FreshHandle(s);
      var replies: Replies := *;
      if Content(replies) != s.store[id] {
        replies := ByteByByte(s.store[id]);
        ByteByByteContent(s.store[id]);
      }
      s' := s.(reading := s.reading[h := replies]);
      r := Good(h, 0, []);
    case GetSegment(h, _) =>
      var left := s.reading[h];
      if left == [] {
        r := Good(EOF_HANDLE, 0, []);
      } else {
        s' := s.(reading := s.reading[h := left[1..]]);
        var partial: bool := *;
        r := Good(if |left| == 1 then EOF_HANDLE else if partial then 1 else 0, 0, left[0]);
      }
    case CloseBlob(h) =>
      s' := if h in s.reading then s.(reading := s.reading - {h})
            else s.(store := s.store[s.writing[h].id := s.writing[h].content], writing := s.writing - {h});
    case CreateBlob(_) =>
      var h := FreshHandle(s);
      var id := FreshId(s);
      s' := s.(writing := s.writing[h := Upload(id, [])]);
      r := Good(h, id, []);
    case BatchSegments(h, framed) =>
      s' := s.(writing := s.writing[h := Upload(s.writing[h].id, s.writing[h].content + Unframe(framed))]);
    case Execute(stmt, _) =>
      s' := s.(cursors := s.cursors + {stmt});
    case _ =>
  }

  lemma Bound(xs: set<int>) returns (m: int)
    ensures forall x | x in xs :: x < m
  {
    m := 0;
    if x :| x in xs {
      m := Bound(xs - {x});
      m := Max(m, x + 1);
      assert xs == xs - {x} + {x};
    }
  }

  method FreshHandle(s: State) returns (h: Handle)
    ensures !s.InUse(h)
  {
    ghost var m := Bound(s.reading.Keys + s.writing.Keys);
    assert !s.InUse(m);
    h :| !s.InUse(h);
  }

  method FreshId(s: State) returns (id: BlobId)
    ensures id !in s.store && forall h | h in s.writing :: s.writing[h].id != id
  {
    var taken := s.store.Keys + set h | h in s.writing :: s.writing[h].id;
    ghost var m := Bound(taken);
    assert m !in taken;
    id :| id !in taken;
  }
}
