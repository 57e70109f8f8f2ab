/**
 * The receiving half of the transport (protocol/transport.ts): decrypt, queue, and
 * hand out exact lengths, however the network cuts the stream into chunks.
 */
module Transport {
  import opened Arc4
  import opened WireTypes

  class ByteQueue {
    var chunks: seq<Bytes>
    /** Offset into the first chunk. */
    var head: nat
    var length: nat

    ghost predicate Valid() reads this {
      && (forall k | 0 <= k < |chunks| :: chunks[k] != [])
      && (if chunks == [] then head == 0 else head < |chunks[0]|)
      && length == |Contents()|
    }

    ghost function Contents(): Bytes reads this { Unread(chunks, head) }

    constructor ()
      ensures Valid() && Contents() == []
    {
      chunks, head, length := [], 0, 0;
    }

    method Push(chunk: Bytes)
      requires Valid()
      modifies this
      ensures Valid() && Contents() == old(Contents()) + chunk
    {
      if |chunk| == 0 { return; }
      PushUnread(chunks, head, chunk);
      chunks := chunks + [chunk];
      length := length + |chunk|;
    }

    /** Removes and returns exactly `n` bytes; there must be something in the queue. */
    method Take(n: nat) returns (out: Bytes)
      requires Valid() && n <= length && length > 0
      modifies this
      ensures Valid() && old(Contents()) == out + Contents() && |out| == n
    {
      length := length - n;
      var first := chunks[0];
      if |first| - head >= n {
        out := first[head..head + n];
        Advance(n);
        return;
      }
      out := [];
      while |out| < n
        invariant |out| <= n && length == old(length) - n
        invariant (forall k | 0 <= k < |chunks| :: chunks[k] != [])
        invariant if chunks == [] then head == 0 else head < |chunks[0]|
        invariant out + Contents() == old(Contents())
      {
        assert chunks != [];
        var c := chunks[0];
        var avail := |c| - head;
        var want := Min(avail, n - |out|);
        ghost var before := Contents();
        var part := c[head..head + want];
        assert (out + part) + before[want..] == out + (part + before[want..]);
        Advance(want);
        out := out + part;
      }
    }

    /** Moves past `n` bytes of the first chunk, and past the chunk at its end. */
    method Advance(n: nat)
      requires chunks != [] && head + n <= |chunks[0]|
      requires forall k | 0 <= k < |chunks| :: chunks[k] != []
      modifies `head, `chunks
      ensures forall k | 0 <= k < |chunks| :: chunks[k] != []
      ensures if chunks == [] then head == 0 else head < |chunks[0]|
      ensures n <= |old(Contents())| && Contents() == old(Contents())[n..]
      ensures old(Contents())[..n] == old(chunks[0][head..head + n])
    {
      UnreadSplit(chunks, head, n);
      head := head + n;
      if head == |chunks[0]| {
        assert chunks[0][head..] == [];
        chunks := chunks[1..];
        head := 0;
        assert chunks != [] ==> chunks[0][0..] == chunks[0];
      }
    }
  }

  /** What a chunk list holds beyond an offset into its first chunk. */
  function Unread(chunks: seq<Bytes>, head: nat): Bytes
  {
    if chunks == [] then [] else (if head <= |chunks[0]| then chunks[0][head..] else []) + Flatten(chunks[1..])
  }

  lemma PushUnread(chunks: seq<Bytes>, head: nat, chunk: Bytes)
    requires chunks == [] ==> head == 0
    ensures Unread(chunks + [chunk], head) == Unread(chunks, head) + chunk
  {
    if chunks == [] {
      assert (chunks + [chunk])[1..] == [];
    } else {
      assert (chunks + [chunk])[1..] == chunks[1..] + [chunk];
      FlattenPush(chunks[1..], chunk);
    }
  }

  lemma UnreadSplit(chunks: seq<Bytes>, head: nat, n: nat)
    requires chunks != [] && head + n <= |chunks[0]|
    ensures var u := Unread(chunks, head);
      n <= |u| && u[..n] == chunks[0][head..head + n] && u[n..] == chunks[0][head + n..] + Flatten(chunks[1..])
  {
  }

  class Receiver {
    const rx: ByteQueue
    var rxCrypt: Rc4?
    /** Chunks the network has yet to deliver. */
    var incoming: seq<Bytes>

    ghost predicate Valid() reads this, rx, rxCrypt, if rxCrypt == null then {} else {rxCrypt.s} {
      rx.Valid() && (rxCrypt != null ==> rxCrypt.Valid())
    }

    /** All that can still be read: the queue, then the incoming chunks as they will be decrypted. */
    ghost function Remaining(): Bytes
      requires Valid()
      reads this, rx, rxCrypt, if rxCrypt == null then {} else {rxCrypt.s}
    {
      rx.Contents() +
      if rxCrypt == null then Flatten(incoming) else Cipher(rxCrypt.Now(), Flatten(incoming))
    }

    constructor (incoming: seq<Bytes>)
      ensures Valid() && fresh(rx) && rxCrypt == null && Remaining() == Flatten(incoming)
      ensures this.incoming == incoming && rx.Contents() == []
    {
      rx := new ByteQueue();
      rxCrypt, this.incoming := null, incoming;
    }

    /** From here on arriving bytes are decrypted; those already queued are not. */
    method InstallCrypt(sessionKey: Bytes)
      requires Valid()
      modifies this
      ensures Valid() && rx.Contents() == old(rx.Contents()) && incoming == old(incoming)
      ensures rxCrypt != null && fresh(rxCrypt) && fresh(rxCrypt.s) && rxCrypt.Now() == Initial(sessionKey)
    {
      rxCrypt := new Rc4(sessionKey);
    }

    method OnData(data: Bytes)
      requires Valid()
      modifies rx, rxCrypt, if rxCrypt == null then {} else {rxCrypt.s}
      ensures Valid()
      ensures rx.Contents() == old(rx.Contents()) +
        if rxCrypt == null then data else Cipher(old(rxCrypt.Now()), data)
      ensures rxCrypt != null ==> rxCrypt.Now() == Run(old(rxCrypt.Now()), |data|)
    {
      var plain := data;
      if rxCrypt != null { plain := rxCrypt.Process(data); }
      rx.Push(plain);
    }

    /** The next chunk arrives: nothing of what can be read is lost or changed. */
    method Arrive()
      requires Valid() && incoming != []
      modifies this`incoming, rx, rxCrypt, if rxCrypt == null then {} else {rxCrypt.s}
      ensures Valid() && Remaining() == old(Remaining()) && incoming == old(incoming)[1..]
    {
      hide ByteQueue.Valid, ByteQueue.Contents, Rc4.Valid, Rc4.Now, Cipher, Run;
      ghost var (queued, chunk, rest) := (rx.Contents(), incoming[0], Flatten(incoming[1..]));
      if rxCrypt == null {
        assert (queued + chunk) + rest == queued + (chunk + rest);
      } else {
        ghost var st := rxCrypt.Now();
        CipherConcat(st, chunk, rest);
        var (c, d) := (Cipher(st, chunk), Cipher(Run(st, |chunk|), rest));
        assert (queued + c) + d == queued + (c + d);
      }
      OnData(incoming[0]);
      incoming := incoming[1..];
    }

    /** Waits for bytes until `n` are there; None when the connection ends first. */
    method Read(n: nat) returns (r: Option<Bytes>)
      requires Valid() && n > 0
      modifies this`incoming, rx, rxCrypt, if rxCrypt == null then {} else {rxCrypt.s}
      ensures Valid()
      ensures r.Some? <==> n <= |old(Remaining())|
      ensures r.Some? ==> |r.value| == n && r.value + Remaining() == old(Remaining())
      ensures r.None? ==> Remaining() == old(Remaining())
    {
      hide ByteQueue.Contents, Rc4.Valid, Rc4.Now, Cipher;
      while rx.length < n
        invariant Valid() && Remaining() == old(Remaining())
        decreases |incoming|
      {
        if incoming == [] { return None; }
        Arrive();
      }
      ghost var coming := if rxCrypt == null then Flatten(incoming) else Cipher(rxCrypt.Now(), Flatten(incoming));
      var out := rx.Take(n);
      assert (out + rx.Contents()) + coming == out + (rx.Contents() + coming);
      r := Some(out);
    }
  }

  /**
   * Both ends start from the same session key: whatever packets the sender put
   * through its cipher, and however the network cut them into chunks, what the
   * receiver's cipher makes of the chunks is what was sent.
   */
  lemma ReceivesWhatWasSent(key: Bytes, packets: seq<Bytes>, chunks: seq<Bytes>)
    requires Flatten(chunks) == CipherAll(Initial(key), packets)
    ensures CipherAll(Initial(key), chunks) == Flatten(packets)
    ensures Cipher(Initial(key), Flatten(chunks)) == Flatten(packets)
  {
    PacketsAreOneStream(Initial(key), packets);
    PacketsAreOneStream(Initial(key), chunks);
    CipherTwice(Initial(key), Flatten(packets));
  }

  /** What a sender's cipher makes of its packets, one after the other. */
  method SendAll(key: Bytes, packets: seq<Bytes>) returns (wire: Bytes)
    ensures wire == Cipher(Initial(key), Flatten(packets))
  {
    hide Rc4.Valid, Rc4.Now, Cipher, Initial, Run;
    var sender := new Rc4(key);
    wire := [];
    CipherNone(Initial(key));
    for i := 0 to |packets|
      invariant fresh(sender) && fresh(sender.s) && sender.Valid()
      invariant wire == Cipher(Initial(key), Flatten(packets[..i]))
      invariant sender.Now() == Run(Initial(key), |Flatten(packets[..i])|)
    {
      ghost var before := Flatten(packets[..i]);
      var out := sender.Process(packets[i]);
      assert packets[..i + 1] == packets[..i] + [packets[i]];
      FlattenPush(packets[..i], packets[i]);
      CipherConcat(Initial(key), before, packets[i]);
      RunOn(Initial(key), |before|, |packets[i]|);
      wire := wire + out;
    }
    assert packets[..|packets|] == packets;
  }

  lemma CipherNone(st: State)
    requires st.Valid()
    ensures Cipher(st, Flatten([])) == [] && Run(st, |Flatten([])|) == st
  {
  }

  lemma {:induction false} RunOn(st: State, m: nat, n: nat)
    requires st.Valid()
    ensures Run(st, m + n) == Run(Run(st, m), n)
    decreases m
  {
    hide Next, State.Valid;
    if m > 0 { RunOn(Next(st), m - 1, n); }
  }

  /** Reads pieces of the given sizes, as long as there is enough. */
  method ReadAll(receiver: Receiver, sizes: seq<nat>) returns (outs: seq<Bytes>)
    requires receiver.Valid() && forall n | n in sizes :: n > 0
    modifies receiver`incoming, receiver.rx, receiver.rxCrypt,
      if receiver.rxCrypt == null then {} else {receiver.rxCrypt.s}
    ensures receiver.Valid() && Flatten(outs) + receiver.Remaining() == old(receiver.Remaining())
    ensures |outs| <= |sizes| && forall i | 0 <= i < |outs| :: |outs[i]| == sizes[i]
    ensures |outs| < |sizes| ==> sizes[|outs|] > |receiver.Remaining()|
  {
    hide Receiver.Valid, Receiver.Remaining, Flatten;
    outs := [];
    FlattenNone();
    assert [] + receiver.Remaining() == receiver.Remaining();
    for i := 0 to |sizes|
      invariant receiver.Valid() && |outs| == i && forall k | 0 <= k < i :: |outs[k]| == sizes[k]
      invariant Flatten(outs) + receiver.Remaining() == old(receiver.Remaining())
    {
      ghost var before := Flatten(outs);
      assert sizes[i] in sizes;
      var r := receiver.Read(sizes[i]);
      if r.None? { return; }
      FlattenPush(outs, r.value);
      Assoc(before, r.value, receiver.Remaining());
      outs := outs + [r.value];
    }
  }

  lemma FlattenNone()
    ensures Flatten([]) == []
  {
  }

  /**
   * From one side to the other: packets go through the sender's cipher, the network
   * cuts what comes out as it likes, and the receiver reads pieces of the sizes it
   * asks for. It reads exactly what was sent, in order, for as long as there is
   * enough of it.
   */
  method Converse(key: Bytes, packets: seq<Bytes>, sizes: seq<nat>) returns (outs: seq<Bytes>)
    requires forall n | n in sizes :: n > 0
    ensures |outs| <= |sizes| && forall i | 0 <= i < |outs| :: |outs[i]| == sizes[i]
    ensures Flatten(outs) <= Flatten(packets)
    ensures |outs| < |sizes| ==> |Flatten(outs)| + sizes[|outs|] > |Flatten(packets)|
  {
    hide Rc4.Valid, Rc4.Now, Cipher, Initial, Run, ByteQueue.Valid, ByteQueue.Contents;
    var wire := SendAll(key, packets);
    CipherTwice(Initial(key), Flatten(packets));
    assert Flatten([wire]) == wire + Flatten([]) == wire;
    var chunks: seq<Bytes> :| Flatten(chunks) == wire;
    var receiver := new Receiver(chunks);
    receiver.InstallCrypt(key);
    assert [] + Cipher(Initial(key), wire) == Flatten(packets);
    outs := ReadAll(receiver, sizes);
  }
}
