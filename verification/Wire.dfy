/**
 * The wire connection (wire.ts): a request writer, the flushed requests whose
 * answers are outstanding, and the counter of deferred answers that readOp
 * drains on the way to the answer its caller waits for.
 *
 * The server answers strictly in order, so an answer may be worked out when it
 * is awaited: `sent` holds the flushed, unanswered requests, oldest first.
 */
module Wire {
  import opened Results
  import opened WireTypes
  import opened Server

  /** The packets that answer requests, without keep-alives and inline blobs. */
  function Strip(ps: seq<Packet>): (r: seq<Packet>)
    ensures |r| <= |ps|
    ensures forall p | p in r :: !Noise(p)
  {
    if ps == [] then []
    else if Noise(ps[0]) then Strip(ps[1..])
    else [ps[0]] + Strip(ps[1..])
  }

  lemma StripHead(p: Packet, rest: seq<Packet>)
    ensures Strip([p] + rest) == (if Noise(p) then [] else [p]) + Strip(rest)
  {
    assert ([p] + rest)[1..] == rest;
  }

  lemma {:induction false} StripAppend(a: seq<Packet>, b: seq<Packet>)
    ensures Strip(a + b) == Strip(a) + Strip(b)
  {
    if a == [] {
      assert a + b == b;
    } else {
      hide Strip, Noise;
      var (p, rest) := (a[0], a[1..]);
      assert a == [p] + rest && a + b == [p] + (rest + b);
      StripAppend(rest, b);
      StripHead(p, rest);
      StripHead(p, rest + b);
      Assoc(if Noise(p) then [] else [p], Strip(rest), Strip(b));
    }
  }

  /** The inline blobs among `ps`, in order. */
  function Inlined(ps: seq<Packet>): seq<Packet>
  {
    if ps == [] then []
    else (if ps[0].InlineBlob? then [ps[0]] else []) + Inlined(ps[1..])
  }

  /** Volunteered packets come ahead of an answer packet, never behind the last one. */
  predicate Framed(ps: seq<Packet>) { ps == [] || !Noise(ps[|ps| - 1]) }

  lemma {:induction false} FramedStrip(ps: seq<Packet>)
    requires Framed(ps)
    ensures Strip(ps) == [] <==> ps == []
  {
    if ps != [] && Noise(ps[0]) { FramedStrip(ps[1..]); }
  }

  /** What reading an operation comes to, once these packets are in. */
  datatype Delivery =
    | Waiting(deferred: nat)                // more packets are needed
    | Handed(packet: Packet, deferred: nat) // this packet goes to the reader
    | Raised(error: Error, deferred: nat)   // this deferred error goes to the reader

  /** The reader's rule: skip noise, and let op_responses count the deferred down. */
  function Deliver(ps: seq<Packet>, deferred: nat): Delivery
  {
    if ps == [] then Waiting(deferred)
    else if Noise(ps[0]) then Deliver(ps[1..], deferred)
    else if ps[0].Resp? && deferred > 0 then
      if ps[0].response.Bad? then Raised(ps[0].response.error, deferred - 1)
      else Deliver(ps[1..], deferred - 1)
    else Handed(ps[0], deferred)
  }

  /** Keep-alives and inline blobs never change what a reader is handed. */
  lemma {:induction false} DeliverStrip(ps: seq<Packet>, deferred: nat)
    ensures Deliver(ps, deferred) == Deliver(Strip(ps), deferred)
  {
    if ps != [] {
      DeliverStrip(ps[1..], deferred);
      if deferred > 0 { DeliverStrip(ps[1..], deferred - 1); }
    }
  }

  lemma {:induction false} DeliverMore(ps: seq<Packet>, more: seq<Packet>, deferred: nat)
    ensures Deliver(ps, deferred).Waiting? ==>
      Deliver(ps + more, deferred) == Deliver(more, Deliver(ps, deferred).deferred)
  {
    if ps == [] {
      assert ps + more == more;
    } else {
      assert (ps + more)[1..] == ps[1..] + more && (ps + more)[0] == ps[0];
      DeliverMore(ps[1..], more, deferred);
      if deferred > 0 { DeliverMore(ps[1..], more, deferred - 1); }
    }
  }

  lemma DeliverNone(deferred: nat)
    ensures Deliver([], deferred) == Waiting(deferred)
  {
  }

  /** One packet, with the noise ahead of it. */
  lemma DeliverOne(ps: seq<Packet>, p: Packet, deferred: nat)
    requires Strip(ps) == [p]
    ensures Deliver(ps, deferred) ==
      if p.Resp? && deferred > 0 then
        if p.response.Bad? then Raised(p.response.error, deferred - 1) else Waiting(deferred - 1)
      else Handed(p, deferred)
  {
    DeliverStrip(ps, deferred);
    assert [p][1..] == [];
  }

  /** A quiet request stays quiet while the server opens no cursors, and its answer is one op_response. */
  lemma QuietAnswer(s0: State, s: State, q: Request, s': State, ps: seq<Packet>)
    requires Quiet(s0, q) && s.cursors <= s0.cursors && Answers(s, q, s', ps)
    ensures |ps| == 1 && ps[0].Resp? && Quiet(s, q) && (q.Fetch? ==> ps[0].response.Bad?)
  {
    if q.Fetch? { FetchIsDoomed(s, q, s', ps[0].response); }
  }

  lemma StillQuiet(s: State, qs: seq<Request>, s': State, qs': seq<Request>)
    requires s'.cursors <= s.cursors && (forall q | q in qs :: Quiet(s, q)) && forall q | q in qs' :: q in qs
    ensures forall q | q in qs' :: Quiet(s', q)
  {
  }

  lemma PlainAnswer(s: State, q: Request, s': State, ps: seq<Packet>)
    requires Plain(s, q) && Answers(s, q, s', ps) && s.Valid()
    ensures |ps| == 1 && ps[0].Resp? && PlainStep(s, q, s', ps[0].response)
    ensures q.Execute? || s'.cursors <= s.cursors
  {
    AnswersEvolves(s, q, s', ps);
  }

  lemma PlainStays(s: State, s': State, q: Request)
    requires Plain(s, q) && s'.cursors <= s.cursors
    ensures Plain(s', q)
  {
  }

  /** An answer that begins with an op_response ends there. */
  lemma RespIsAll(s: State, q: Request, s': State, ps: seq<Packet>)
    requires Answers(s, q, s', ps) && |ps| > 0 && ps[0].Resp?
    ensures |ps| == 1
  {
  }

  /** An answer the deferred drain gets past: an op_response without an error. */
  predicate Drains(p: Packet) { p.Resp? && p.response.Good? }

  /**
   * When a reader gets its own answer: with `answers` to the deferred requests
   * arriving ahead of `own`, noise anywhere, exactly when none of them carries an
   * error and each is a plain op_response.
   */
  lemma {:induction false} DeliveredExactly(ps: seq<Packet>, answers: seq<Packet>, own: Packet)
    requires Strip(ps) == answers + [own] && !Noise(own)
    ensures Deliver(ps, |answers|) == Handed(own, 0) <==> forall a | a in answers :: Drains(a)
  {
    DeliverStrip(ps, |answers|);
    DeliveredInOrder(answers, own);
  }

  lemma {:induction false} DeliveredInOrder(answers: seq<Packet>, own: Packet)
    requires !Noise(own) && forall a | a in answers :: !Noise(a)
    ensures Deliver(answers + [own], |answers|) == Handed(own, 0) <==> forall a | a in answers :: Drains(a)
  {
    hide Deliver;
    if answers == [] {
      assert answers + [own] == [own] + [];
      DeliverStep(own, [], 0);
    } else {
      var rest := answers[1..] + [own];
      assert answers + [own] == [answers[0]] + rest;
      DeliverStep(answers[0], rest, |answers|);
      DeliveredInOrder(answers[1..], own);
      AllDrain(answers);
    }
  }

  lemma AllDrain(answers: seq<Packet>)
    requires answers != []
    ensures (forall a | a in answers :: Drains(a)) <==> Drains(answers[0]) && forall a | a in answers[1..] :: Drains(a)
  {
    assert answers[0] in answers;
    assert forall a | a in answers[1..] :: a in answers;
    assert forall a | a in answers :: a == answers[0] || a in answers[1..];
  }

  /** What one packet does to the reading. */
  lemma DeliverStep(p: Packet, rest: seq<Packet>, deferred: nat)
    ensures Deliver([p] + rest, deferred) ==
      if Noise(p) then Deliver(rest, deferred)
      else if p.Resp? && deferred > 0 then
        if p.response.Bad? then Raised(p.response.error, deferred - 1) else Deliver(rest, deferred - 1)
      else Handed(p, deferred)
  {
    assert ([p] + rest)[1..] == rest;
  }

  /** A request with everything the server answered to it. */
  datatype Exchange = Exchange(request: Request, packets: seq<Packet>)

  /** The `n` oldest requests of `sent` have been answered, and all but the last one drained. */
  ghost predicate Took(before: seq<Exchange>, now: seq<Exchange>, sent: seq<Request>, n: nat) {
    && 0 < n <= |sent| && Drained(before, now[..Max(|now| - 1, 0)], sent, n - 1)
    && |now| == |before| + n && now[|now| - 1].request == sent[n - 1]
  }

  ghost predicate Drained(before: seq<Exchange>, now: seq<Exchange>, sent: seq<Request>, n: nat) {
    && n <= |sent| && before <= now && |now| == |before| + n
    && forall i | 0 <= i < n ::
      var x := now[|before| + i]; x.request == sent[i] && |x.packets| == 1 && Drains(x.packets[0])
  }

  lemma DrainedOne(before: seq<Exchange>, now: seq<Exchange>, sent: seq<Request>, n: nat, x: Exchange)
    requires Drained(before, now, sent, n) && n < |sent| && x.request == sent[n]
    ensures Took(before, now + [x], sent, n + 1)
    ensures |x.packets| == 1 && Drains(x.packets[0]) ==> Drained(before, now + [x], sent, n + 1)
  {
    assert (now + [x])[..|now|] == now;
  }

  lemma TookOne(before: seq<Exchange>, now: seq<Exchange>, sent: seq<Request>)
    requires Took(before, now, sent, 1)
    ensures now != [] && now == before + [Last(now)] && Last(now).request == sent[0]
  {
    assert now == now[..|now| - 1] + [now[|now| - 1]];
  }

  /** The last answer that came in. */
  function Last(history: seq<Exchange>): Exchange
    requires history != []
  {
    history[|history| - 1]
  }

  /** Sent ahead of the caller's own request, `q` costs it exactly one op_response. */
  predicate Quiet(s: State, q: Request) { Plain(s, q) && !q.Execute? }

  class WireConnection {
    var server: State
    var writer: seq<Request>
    var sent: seq<Request>
    var inbound: seq<Packet>
    var deferredResponses: nat
    var flushCount: nat
    /** Inline blobs handed to the onInlineBlob consumer. */
    var inlined: seq<Packet>
    /** Deferred answers that carried an error and were thrown at the wrong reader. */
    ghost var lost: nat
    /** The largest number of unanswered requests the server has held. */
    ghost var peak: nat
    /** Every request ever written, in order. */
    ghost var log: seq<Request>
    /** Every answer that ever came in, with its request, in order. */
    ghost var history: seq<Exchange>

    constructor (server: State)
      ensures this.server == server && Owed() == 0 && inbound == [] && deferredResponses == 0
      ensures lost == 0 && peak == 0 && log == [] && history == []
    {
      this.server := server;
      writer, sent, inbound, inlined := [], [], [], [];
      deferredResponses, flushCount, lost, peak, log, history := 0, 0, 0, 0, [], [];
    }

    /** Answers the server still owes, those of unflushed requests included. */
    ghost function Owed(): nat
      reads this
    {
      |sent| + |writer|
    }

    /** Between operations: no answer is half read, and whatever is owed is quiet. */
    ghost predicate Idle()
      reads this
    {
      && server.Valid() && inbound == []
      && (forall q | q in sent :: Quiet(server, q))
      && (forall q | q in writer :: Quiet(server, q))
    }

    /** Every answer still owed is accounted for by the deferred counter. */
    ghost predicate InSync()
      reads this
    {
      Idle() && Owed() == deferredResponses
    }

    lemma IdleIsQuiet()
      requires Idle()
      ensures server.Valid() && inbound == [] && forall i | 0 <= i < |sent| :: Quiet(server, sent[i])
    {
    }

    lemma IdleIsPlain()
      requires Idle()
      ensures server.Valid() && inbound == []
      ensures forall i | 0 <= i < |sent| :: Quiet(server, sent[i]) && Plain(server, sent[i]) && !sent[i].Execute?
    {
      IdleIsQuiet();
    }

    method Write(q: Request)
      modifies this`writer, this`log
      ensures writer == old(writer) + [q] && log == old(log) + [q]
      ensures old(Idle()) && Quiet(server, q) ==> Idle()
    {
      writer, log := writer + [q], log + [q];
    }

    method Flush()
      modifies this`writer, this`sent, this`flushCount, this`peak
      ensures sent == old(sent) + old(writer) && writer == []
      ensures flushCount == old(flushCount) + (if old(writer) == [] then 0 else 1)
      ensures old(Idle()) ==> Idle()
      ensures peak == Max(old(peak), |sent|) || (peak == old(peak) && old(writer) == [])
    {
      if writer == [] { return; }
      flushCount := flushCount + 1;
      sent := sent + writer;
      peak := Max(peak, |sent|);
      writer := [];
    }

    method MarkDeferred()
      modifies this`deferredResponses
      ensures deferredResponses == old(deferredResponses) + 1
    {
      deferredResponses := deferredResponses + 1;
    }

    /** The server answers the oldest request, volunteering what it likes on the way. */
    method Serve()
      requires server.Valid() && inbound == [] && sent != []
      modifies this`server, this`sent, this`inbound, this`history
      ensures server.Valid() && sent == old(sent)[1..]
      ensures history == old(history) + [Exchange(old(sent)[0], Strip(inbound))]
      ensures Framed(inbound) && inbound != []
      ensures Answers(old(server), old(sent)[0], server, Strip(inbound))
    {
      var s, ps := Answer(server, sent[0]);
      AnswersEvolves(server, sent[0], s, ps);
      history := history + [Exchange(sent[0], ps)];
      var raw := Surround(ps);
      server, sent, inbound := s, sent[1..], raw;
    }

    /** An answer on the wire, with volunteered packets anywhere ahead of its last. */
    static method Surround(ps: seq<Packet>) returns (raw: seq<Packet>)
      requires forall p | p in ps :: !Noise(p)
      ensures Framed(raw) && Strip(raw) == ps && (raw == [] <==> ps == [])
    {
      var k := |ps|;
      raw := [];
      while k > 0
        invariant 0 <= k <= |ps|
        invariant Framed(raw) && Strip(raw) == ps[k..]
        invariant raw == [] <==> k == |ps|
      {
        k := k - 1;
        var noise: seq<Packet> := *;
        noise := Volunteered(noise);
        StripAppend(noise, [ps[k]] + raw);
        assert ([ps[k]] + raw)[1..] == raw;
        raw := noise + ([ps[k]] + raw);
      }
    }

    static function Volunteered(ps: seq<Packet>): (r: seq<Packet>)
      ensures Strip(r) == []
    {
      if ps == [] then []
      else if Noise(ps[0]) then
        assert ([ps[0]] + Volunteered(ps[1..]))[1..] == Volunteered(ps[1..]);
        [ps[0]] + Volunteered(ps[1..])
      else Volunteered(ps[1..])
    }

    /** Skip keep-alives, hand inline blobs over, and return the packet after them. */
    method NextPacket() returns (p: Packet)
      requires Framed(inbound) && inbound != []
      modifies this`inbound, this`inlined
      ensures Framed(inbound) && [p] + Strip(inbound) == old(Strip(inbound))
      ensures |inbound| < |old(inbound)|
      ensures var read := old(inbound)[..|old(inbound)| - |inbound|];
        read + inbound == old(inbound) && Strip(read) == [p] && inlined == old(inlined) + Inlined(read)
    {
      hide Inlined, Strip, Framed;
      ghost var k := 0;
      ghost var all := inbound;
      InlinedNone();
      assert all[..0] == [];
      p := inbound[0];
      while Noise(p)
        invariant 0 <= k < |all| && inbound == all[k..] && p == inbound[0] && Framed(inbound)
        invariant Strip(inbound) == Strip(all)
        invariant inlined == old(inlined) + Inlined(all[..k]) && Strip(all[..k]) == []
        decreases |inbound|
      {
        assert all[k..][1..] == all[k + 1..];
        OverNoise(inbound);
        if p.InlineBlob? { inlined := inlined + [p]; }
        InlinedPush(all, k);
        StripPush(all, k);
        inbound := inbound[1..];
        k := k + 1;
        p := inbound[0];
      }
      InlinedPush(all, k);
      StripPush(all, k);
      OverAnswer(inbound);
      assert all[..k + 1] + all[k..][1..] == all;
      inbound := inbound[1..];
      assert all[..|all| - |inbound|] == all[..k + 1];
    }

    static lemma OverNoise(ps: seq<Packet>)
      requires Framed(ps) && ps != [] && Noise(ps[0])
      ensures |ps| > 1 && Framed(ps[1..]) && Strip(ps[1..]) == Strip(ps)
    {
    }

    static lemma OverAnswer(ps: seq<Packet>)
      requires Framed(ps) && ps != [] && !Noise(ps[0])
      ensures Framed(ps[1..]) && Strip(ps) == [ps[0]] + Strip(ps[1..])
    {
    }

    static lemma InlinedNone()
      ensures Inlined([]) == [] && Strip([]) == []
    {
    }

    static lemma StripPush(ps: seq<Packet>, k: nat)
      requires k < |ps|
      ensures Strip(ps[..k + 1]) == Strip(ps[..k]) + (if Noise(ps[k]) then [] else [ps[k]])
    {
      StripAppend(ps[..k], [ps[k]]);
      assert ps[..k + 1] == ps[..k] + [ps[k]];
      assert [ps[k]][1..] == [];
    }

    static lemma {:induction false} InlinedPush(ps: seq<Packet>, k: nat)
      requires k < |ps|
      ensures Inlined(ps[..k + 1]) == Inlined(ps[..k]) + (if ps[k].InlineBlob? then [ps[k]] else [])
    {
      assert ps[..k + 1][1..] == ps[1..][..k];
      if k > 0 {
        InlinedPush(ps[1..], k - 1);
        assert ps[..k][1..] == ps[1..][..k - 1];
      }
    }

    /** All that is owed ahead of the reader's own answer are single op_responses. */
    ghost predicate QuietAhead()
      reads this
    {
      inbound == [] && forall i | 0 <= i < deferredResponses && i < |sent| :: Quiet(server, sent[i])
    }

    /**
     * Read the next operation: consume packets until `Deliver` says whose they
     * are. Deferred answers queued ahead are consumed; one that carries an error
     * is thrown here, in place of the caller's answer, which stays on the wire:
     * `lost` counts these.
     */
    method ReadOp() returns (op: Outcome<Packet>, ghost mid: State, ghost read: seq<Packet>)
      requires server.Valid() && Framed(inbound)
      requires inbound != [] ==> deferredResponses == 0
      requires inbound == [] ==> deferredResponses < |sent|
      modifies this`server, this`sent, this`inbound, this`deferredResponses, this`inlined, this`history, this`lost
      ensures server.Valid() && Framed(inbound)
      ensures Deliver(read, old(deferredResponses)) ==
        if op.Returned? then Handed(op.value, deferredResponses) else Raised(op.error, deferredResponses)
      ensures lost == old(lost) + if op.Returned? then 0 else 1
      ensures old(inbound) != [] ==>
        && op.Returned? && [op.value] + Strip(inbound) == old(Strip(inbound)) && read + inbound == old(inbound)
        && deferredResponses == 0 && sent == old(sent) && server == old(server)
      ensures old(QuietAhead()) && op.Returned? ==>
        && deferredResponses == 0 && sent == old(sent)[old(deferredResponses) + 1..]
        && mid.Valid() && Evolves(old(server), old(sent)[..old(deferredResponses)], mid) &&
          mid.cursors <= old(server).cursors
        && (old(deferredResponses) == 0 ==> mid == old(server))
        && Answers(mid, old(sent)[old(deferredResponses)], server, [op.value] + Strip(inbound))
        && forall i | 0 <= i < old(deferredResponses) :: !old(sent)[i].Fetch?
      ensures op.Thrown? ==>
        && inbound == [] && deferredResponses < old(deferredResponses)
        && sent == old(sent)[old(deferredResponses) - deferredResponses..]
      ensures old(QuietAhead()) && op.Thrown? ==> server.cursors <= old(server).cursors
      ensures old(inbound) != [] ==> history == old(history)
      ensures old(inbound) == [] ==>
        && |sent| < |old(sent)| && Took(old(history), history, old(sent), |old(sent)| - |sent|)
        && Last(history).packets == if op.Returned? then [op.value] + Strip(inbound) else [Resp(Bad(op.error))]
    {
      hide Evolves, Answers, Inlined, Deliver, Plain, Strip, Drained, Took;
      mid, read := server, [];
      ghost var quiet := QuietAhead();
      if inbound != [] {
        ghost var before := inbound;
        var p := NextPacket();
        read := before[..|before| - |inbound|];
        DeliverOne(read, p, deferredResponses);
        return Returned(p), mid, read;
      }
      ghost var k := 0;
      ghost var all := sent;
      EvolvesRefl(server, all[..0]);
      DeliverNone(deferredResponses);
      assert Drained(history, history, all, 0) by { NoneDrained(history, all); }
      while true
        invariant server.Valid() && inbound == [] && lost == old(lost)
        invariant 0 <= k <= old(deferredResponses) && deferredResponses == old(deferredResponses) - k
        invariant sent == all[k..] && (k == 0 ==> server == old(server))
        invariant Deliver(read, old(deferredResponses)) == Waiting(deferredResponses)
        invariant Drained(old(history), history, all, k)
        invariant quiet ==> server.cursors <= old(server).cursors && Evolves(old(server), all[..k], server)
        invariant quiet ==> forall i | 0 <= i < k :: !all[i].Fetch?
        decreases deferredResponses
      {
        mid := server;
        assert sent[0] == all[k] && sent[1..] == all[k + 1..];
        var p;
        ghost var part;
        ghost var h := history;
        p, part := AnswerNext();
        if p.Resp? { StripNone(); }
        DrainedOne(old(history), h, all, k, Exchange(all[k], [p] + Strip(inbound)));
        DeliverMore(read, part, old(deferredResponses));
        DeliverOne(part, p, deferredResponses);
        read := read + part;
        if quiet && deferredResponses > 0 { QuietAnswer(old(server), mid, all[k], server, [p] + Strip(inbound)); }
        if p.Resp? && deferredResponses > 0 {
          if quiet {
            EvolvesTrans(old(server), all[..k], mid, [all[k]], server);
            assert all[..k] + [all[k]] == all[..k + 1];
          }
          deferredResponses := deferredResponses - 1;
          k := k + 1;
          if p.response.Bad? {
            lost := lost + 1;
            return Thrown(p.response.error), mid, read;
          }
        } else {
          return Returned(p), mid, read;
        }
      }
    }

    static lemma NoneDrained(history: seq<Exchange>, sent: seq<Request>)
      ensures Drained(history, history, sent, 0)
    {
    }

    static lemma StripNone()
      ensures Strip([]) == []
    {
    }

    /** The first packet of the answer to the oldest request. */
    method AnswerNext() returns (p: Packet, ghost read: seq<Packet>)
      requires server.Valid() && inbound == [] && sent != []
      modifies this`server, this`sent, this`inbound, this`inlined, this`history
      ensures server.Valid() && Framed(inbound) && sent == old(sent)[1..]
      ensures Answers(old(server), old(sent)[0], server, [p] + Strip(inbound))
      ensures Evolves(old(server), [old(sent)[0]], server)
      ensures server.cursors <= old(server).cursors + (if old(sent)[0].Execute? then {old(sent)[0].stmt} else {})
      ensures Strip(read) == [p] && (p.Resp? ==> inbound == [])
      ensures history == old(history) + [Exchange(old(sent)[0], [p] + Strip(inbound))]
    {
      hide Evolves, Answers;
      ghost var before, q := server, sent[0];
      Serve();
      ghost var raw := inbound;
      AnswersEvolves(before, q, server, Strip(inbound));
      p := NextPacket();
      read := raw[..|raw| - |inbound|];
      if p.Resp? {
        RespIsAll(before, q, server, [p] + Strip(inbound));
        FramedStrip(inbound);
      }
    }

    /**
     * Await the op_response of the oldest request that is not deferred. A thrown
     * error is returned as `Bad`. The answer belongs to that request unless a
     * deferred error came first, and then `lost` went up by one.
     */
    method ReadResponse() returns (r: Response, ghost mid: State)
      requires server.Valid() && inbound == [] && deferredResponses < |sent|
      requires forall i | 0 <= i < deferredResponses :: Quiet(server, sent[i])
      requires Plain(server, sent[deferredResponses])
      modifies this`server, this`sent, this`inbound, this`deferredResponses, this`inlined, this`history, this`lost
      ensures server.Valid() && inbound == []
      ensures old(lost) <= lost <= old(lost) + 1
      ensures deferredResponses <= old(deferredResponses)
      ensures lost == old(lost) ==>
        && deferredResponses == 0 && sent == old(sent)[old(deferredResponses) + 1..]
        && Evolves(old(server), old(sent)[..old(deferredResponses)], mid)
        && (old(deferredResponses) == 0 ==> mid == old(server))
        && mid.Valid() && Plain(mid, old(sent)[old(deferredResponses)])
        && PlainStep(mid, old(sent)[old(deferredResponses)], server, r)
      ensures (exists i | 0 <= i < old(deferredResponses) :: old(sent)[i].Fetch?) ==> lost > old(lost)
      ensures lost > old(lost) ==>
        r.Bad? && old(deferredResponses) > deferredResponses &&
          sent == old(sent)[old(deferredResponses) - deferredResponses..]
      ensures |sent| < |old(sent)| && Took(old(history), history, old(sent), |old(sent)| - |sent|)
      ensures Last(history).packets == [Resp(r)]
      ensures old(sent)[old(deferredResponses)].Execute? || server.cursors <= old(server).cursors
      ensures old(Idle()) && !old(sent)[old(deferredResponses)].Execute? ==> Idle()
    {
      hide Evolves, PlainStep, Answers, Plain, Strip, Deliver, Quiet, Took;
      ghost var s0, all, unsent := server, sent, writer;
      ghost var own := all[deferredResponses];
      ghost var idle := Idle();
      assert QuietAhead();
      var op;
      ghost var read;
      op, mid, read := ReadOp();
      if idle {
        assert forall q | q in sent :: q in all;
      }
      if op.Thrown? {
        if idle {
          StillQuiet(s0, all, server, sent);
          StillQuiet(s0, unsent, server, writer);
        }
        return Bad(op.error), mid;
      }
      ghost var rest := Strip(inbound);
      PlainStays(s0, mid, own);
      PlainAnswer(mid, own, server, [op.value] + rest);
      assert ([op.value] + rest)[0] == op.value;
      FramedStrip(inbound);
      if idle && !own.Execute? {
        StillQuiet(s0, all, server, sent);
        StillQuiet(s0, unsent, server, writer);
      }
      r := if op.value.Resp? then op.value.response else Bad(UnexpectedOp);
    }

    /**
     * Await a response and discard it, whatever it is, as the error paths do.
     * With only quiet requests on the wire this always takes one answer that is
     * not deferred, or one deferred error.
     */
    method Discard()
      requires Idle() && deferredResponses < |sent|
      modifies this`server, this`sent, this`inbound, this`deferredResponses, this`inlined, this`history, this`lost
      ensures Idle() && old(lost) <= lost
      ensures |sent| - deferredResponses == old(|sent| - deferredResponses) - 1 + (lost - old(lost))
      ensures deferredResponses <= old(deferredResponses) && (old(deferredResponses) == 0 ==> lost == old(lost))
      ensures old(deferredResponses) == 0 ==>
        && old(sent) != [] && sent == old(sent)[1..]
        && exists r: Response :: PlainStep(old(server), old(sent)[0], server, r) &&
             history == old(history) + [Exchange(old(sent)[0], [Resp(r)])]
      ensures exists k | 0 <= k <= |old(sent)| :: sent == old(sent)[k..]
    {
      hide *;
      IdleIsPlain();
      ghost var mid;
      var r;
      r, mid := ReadResponse();
      if old(deferredResponses) == 0 {
        TookOne(old(history), history, old(sent));
        assert PlainStep(old(server), old(sent)[0], server, r) &&
          history == old(history) + [Exchange(old(sent)[0], [Resp(r)])];
      }
      ghost var k := |old(sent)| - |sent|;
      assert sent == old(sent)[k..];
    }
  }
}
