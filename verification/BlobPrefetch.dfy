/**
 * Lazy-blob read-ahead (api/blob-prefetch.ts) as atomic steps between awaits: what
 * the consumer does, what a slice of the running fetch does, and how it settles.
 */
module BlobPrefetch {
  import opened WireTypes

  datatype Phase = Queued | Fetching | Done | Failed | Aborted

  /** The promise that `take` hands out for bytes still to come. */
  datatype Promise = NotAsked | Pending | Resolved(bytes: Bytes) | Rejected

  datatype Entry = Entry(id: BlobId, rowIdx: int, phase: Phase, bytes: Bytes, claimed: bool, promise: Promise)

  /** How a window of the running fetch ended: with an error, or with so many bytes of the blob in all. */
  datatype Window = Broken | UpTo(n: nat)

  datatype Taken = Untracked | Bytes(bytes: Bytes) | Error | Promised(index: nat)

  /** Bytes that the entries hold. */
  function Held(q: seq<Entry>): nat { if q == [] then 0 else Held(q[..|q| - 1]) + |q[|q| - 1].bytes| }

  /** Bytes that nobody has asked for yet, without those of entry `but`. */
  function Unclaimed(q: seq<Entry>, but: int): nat
  {
    if q == [] then 0
    else
      var i := |q| - 1;
      Unclaimed(q[..i], but) + if q[i].claimed || i == but then 0 else |q[i].bytes|
  }

  lemma {:induction false} HeldUpdate(q: seq<Entry>, i: nat, e: Entry)
    requires i < |q|
    ensures Held(q[i := e]) == Held(q) - |q[i].bytes| + |e.bytes| && Held(q) >= |q[i].bytes|
  {
    var n := |q| - 1;
    if i < n {
      HeldUpdate(q[..n], i, e);
      assert q[i := e][..n] == q[..n][i := e];
    } else {
      assert q[i := e][..n] == q[..n];
    }
  }

  lemma {:induction false} UnclaimedUpdate(q: seq<Entry>, i: nat, e: Entry, but: int)
    requires i < |q|
    ensures var w := (x: Entry) => if x.claimed || i == but then 0 else |x.bytes|;
      Unclaimed(q[i := e], but) == Unclaimed(q, but) - w(q[i]) + w(e)
  {
    var n := |q| - 1;
    if i < n {
      UnclaimedUpdate(q[..n], i, e, but);
      assert q[i := e][..n] == q[..n][i := e];
    } else {
      assert q[i := e][..n] == q[..n];
    }
  }

  lemma {:induction false} UnclaimedBound(q: seq<Entry>, but: int)
    ensures Unclaimed(q, but) <= Held(q)
    ensures !(0 <= but < |q|) ==> Unclaimed(q, but) == Unclaimed(q, -1)
    ensures 0 <= but < |q| ==> Unclaimed(q, -1) == Unclaimed(q, but) + if q[but].claimed then 0 else |q[but].bytes|
  {
    if q != [] {
      UnclaimedBound(q[..|q| - 1], but);
      UnclaimedBound(q[..|q| - 1], -1);
    }
  }

  lemma HeldPush(q: seq<Entry>, e: Entry, but: int)
    requires e.bytes == []
    ensures Held(q + [e]) == Held(q) && Unclaimed(q + [e], but) == Unclaimed(q, but)
  {
    assert (q + [e])[..|q|] == q;
  }

  /** One entry: only the running fetch is `Fetching`, bytes are the blob's, promises are kept or still can be. */
  predicate EntryOk(e: Entry, i: nat, current: Option<nat>, entries: map<BlobId, nat>, closed: bool,
        content: BlobId -> Bytes)
  {
    && (e.phase.Fetching? <==> current == Some(i))
    && (!e.phase.Fetching? && !e.phase.Done? ==> e.bytes == [])
    && (e.phase.Fetching? ==> e.bytes <= content(e.id))
    && (e.phase.Done? ==> e.bytes == if e.claimed then [] else content(e.id))
    && (e.phase.Queued? || e.phase.Fetching? || (e.phase.Done? && !e.claimed) ==> e.id in entries && entries[e.id] == i)
    && (!e.claimed ==> e.promise.NotAsked?)
    && ((e.phase.Queued? || e.phase.Fetching?) && e.claimed ==> e.promise.Pending?)
    && (e.promise.Pending? ==> e.phase.Queued? || e.phase.Fetching? || (closed && e.phase.Aborted?))
    && (e.promise.Resolved? ==> e.phase.Done? && e.promise.bytes == content(e.id))
    && (e.promise.Rejected? ==> e.phase.Failed?)
  }

  predicate AllOk(q: seq<Entry>, current: Option<nat>, entries: map<BlobId, nat>, closed: bool,
        content: BlobId -> Bytes)
  {
    forall i | 0 <= i < |q| :: EntryOk(q[i], i, current, entries, closed, content)
  }

  lemma OkAt(q: seq<Entry>, i: nat, current: Option<nat>, entries: map<BlobId, nat>, closed: bool,
        content: BlobId -> Bytes)
    requires AllOk(q, current, entries, closed, content) && i < |q|
    ensures EntryOk(q[i], i, current, entries, closed, content)
  {
  }

  lemma ClosingKeepsOk(q: seq<Entry>, current: Option<nat>, entries: map<BlobId, nat>, closed: bool,
        content: BlobId -> Bytes)
    requires AllOk(q, current, entries, closed, content)
    ensures AllOk(q, current, entries, true, content)
  {
    forall i | 0 <= i < |q|
      ensures EntryOk(q[i], i, current, entries, true, content)
    {
      OkAt(q, i, current, entries, closed, content);
    }
  }

  /** What `take` can still find: the entry of that id, neither aborted nor handed over. */
  predicate Tracked(q: seq<Entry>, entries: map<BlobId, nat>) {
    forall id | id in entries ::
      && entries[id] < |q| && q[entries[id]].id == id && !q[entries[id]].phase.Aborted?
      && (q[entries[id]].phase.Done? || q[entries[id]].phase.Failed? ==> !q[entries[id]].claimed)
  }

  /** A change of one entry, with its place as the running fetch and in the map, leaves the others as they are. */
  lemma EntryChange(q: seq<Entry>, i: nat, e: Entry, cur: Option<nat>, cur': Option<nat>,
                    ents: map<BlobId, nat>, ents': map<BlobId, nat>, closed: bool, content: BlobId -> Bytes)
    requires i < |q| && AllOk(q, cur, ents, closed, content) && Tracked(q, ents) && e.id == q[i].id
    requires (cur == None || cur == Some(i) || cur == cur') && (cur' == None || cur' == Some(i) || cur == cur')
    requires ents' == ents || (ents' == ents - {e.id} && e.id in ents && ents[e.id] == i)
    requires EntryOk(e, i, cur', ents', closed, content)
    requires e.id in ents' && ents'[e.id] == i ==>
               !e.phase.Aborted? && (e.phase.Done? || e.phase.Failed? ==> !e.claimed)
    ensures AllOk(q[i := e], cur', ents', closed, content) && Tracked(q[i := e], ents')
  {
    forall j | 0 <= j < |q| && j != i
      ensures EntryOk(q[j], j, cur', ents', closed, content)
    {
      assert EntryOk(q[j], j, cur, ents, closed, content);
    }
  }

  /** Nothing was done about the blob yet, and nobody has asked for it. */
  predicate Waits(e: Entry, rowIdx: int) {
    e.phase.Queued? && !e.claimed && e.promise.NotAsked? && e.rowIdx == rowIdx
  }

  /** A promise that nobody will settle: its entry is dropped, and entries that are dropped stay as they are. */
  predicate Stranded(e: Entry) { e.phase.Aborted? && e.promise.Pending? }

  class BlobPrefetcher {
    const depth: int
    const maxBytes: int
    /** What each blob holds; the driver learns it slice by slice. */
    const content: BlobId -> Bytes
    /** Every entry registered, in order; entries are never taken out of the queue. */
    var queue: seq<Entry>
    /** The tracked entry of each id. */
    var entries: map<BlobId, nat>
    var usedBytes: int
    var watermark: int
    var running: bool
    var closed: bool
    /** The entry whose fetch has not ended yet. */
    var current: Option<nat>
    /** That fetch has found itself abandoned, and waits for the lock to drop its entry. */
    var giving: bool
    /** The blobs that the inline cache holds. */
    var inline: set<BlobId>
    /** The last entry whose fetch began before it was claimed. */
    ghost var last: int
    /** Bytes dropped by `close` that are still counted as used. */
    ghost var forgotten: nat

    predicate Eligible(e: Entry) reads this {
      e.phase.Queued? && (e.claimed || (!closed && e.rowIdx <= watermark && usedBytes < maxBytes))
    }

    /** Nothing waits that could be fetched now. */
    predicate Settled() reads this { running || forall i | 0 <= i < |queue| :: !Eligible(queue[i]) }

    /** The bookkeeping: bytes, one fetch at a time, the budget, and who is tracked. */
    ghost predicate Valid() reads this {
      && usedBytes == Held(queue) + forgotten && (!closed ==> forgotten == 0)
      && (current.Some? ==> running && current.value < |queue|) && (giving ==> closed && current.Some?)
      && AllOk(queue, current, entries, closed, content) && Tracked(queue, entries)
      && last < |queue| && (current.Some? && !queue[current.value].claimed ==> current.value == last)
      && (Unclaimed(queue, last) == 0 || Unclaimed(queue, last) < maxBytes)
    }

    /** Bytes fetched ahead and not asked for yet stay below the budget plus one blob. */
    lemma BudgetHolds()
      requires Valid()
      ensures Unclaimed(queue, -1) <= Max(maxBytes - 1, 0) + if 0 <= last < |queue| then |queue[last].bytes| else 0
      ensures 0 <= last < |queue| ==> |queue[last].bytes| <= |content(queue[last].id)|
    {
      UnclaimedBound(queue, last);
      if 0 <= last < |queue| { OkAt(queue, last, current, entries, closed, content); }
    }

    /** A settled promise and an aborted entry stay as they are. */
    twostate predicate Keeps() reads this {
      && |queue| >= |old(queue)|
      && forall i | 0 <= i < |old(queue)| ::
           && queue[i].id == old(queue)[i].id
           && (old(queue)[i].phase.Aborted? || old(queue)[i].promise.Resolved? || old(queue)[i].promise.Rejected? ==>
                 queue[i] == old(queue)[i])
    }

    constructor (depth: int, maxBytes: int, content: BlobId -> Bytes, inline: set<BlobId>)
      ensures Valid() && Settled() && queue == [] && !closed && usedBytes == 0 && !running && this.inline == inline
      ensures this.depth == depth && this.maxBytes == maxBytes && this.content == content
    {
      this.depth, this.maxBytes, this.content := depth, maxBytes, content;
      queue, entries, usedBytes, watermark, running, closed, current := [], map[], 0, -1, false, false, None;
      giving, this.inline, last, forgotten := false, inline, -1, 0;
    }

    /** What starting fetches may do to the others: hand a promised blob over, no more. */
    twostate predicate Serves() reads this {
      && |queue| == |old(queue)| && (forall id | id in entries :: id in old(entries))
      && forall i | 0 <= i < |queue| ::
           && queue[i].claimed == old(queue)[i].claimed && queue[i].id == old(queue)[i].id
           && (queue[i].phase.Aborted? ==> old(queue)[i].phase.Aborted?)
           && (queue[i].promise == old(queue)[i].promise || queue[i].promise == Resolved(content(queue[i].id)))
    }

    /** No entry is dropped, so no promise is stranded. */
    twostate predicate DropsNone() reads this {
      && |queue| >= |old(queue)|
      && forall i | 0 <= i < |old(queue)| && queue[i].phase.Aborted? :: old(queue)[i].phase.Aborted?
    }

    /** At most one entry has changed, and none while a fetch was running. */
    twostate predicate StartsOne() reads this {
      && |queue| == |old(queue)|
      && (old(running) || !running ==> queue == old(queue) && usedBytes == old(usedBytes))
      && forall i, j | 0 <= i < j < |queue| :: queue[i] == old(queue)[i] || queue[j] == old(queue)[j]
    }

    /** The inline cache gets blobs with a batch of rows, or loses them to other readers. */
    method Stock(now: set<BlobId>)
      requires Valid()
      modifies `inline
      ensures Valid() && inline == now
    {
      inline := now;
    }

    /** Replaces entry `i`, and accounts for the bytes that come or go with it. */
    method Set(i: nat, e: Entry)
      requires i < |queue| && e.id == queue[i].id
      modifies `queue, `usedBytes
      ensures queue == old(queue)[i := e]
      ensures usedBytes - Held(queue) == old(usedBytes - Held(queue))
      ensures usedBytes == old(usedBytes) - |old(queue)[i].bytes| + |e.bytes|
      ensures
        || e.claimed || i == last || |e.bytes| <= |old(queue)[i].bytes| == 0
        || (e.bytes == old(queue)[i].bytes && e.claimed == old(queue)[i].claimed) ==>
        Unclaimed(queue, last) <= Unclaimed(old(queue), last)
    {
      HeldUpdate(queue, i, e);
      UnclaimedUpdate(queue, i, e, last);
      usedBytes := usedBytes - |queue[i].bytes| + |e.bytes|;
      queue := queue[i := e];
    }

    /** A fetched row's blobs; an id that is tracked already keeps its first row. Fetches nothing by itself. */
    method AddRow(rowIdx: int, ids: seq<BlobId>)
      requires Valid()
      modifies `queue, `entries
      ensures Valid() && Keeps() && queue[..|old(queue)|] == old(queue)
      ensures closed ==> queue == old(queue)
      ensures !closed ==> forall id | id in ids :: id in entries
      ensures forall i | |old(queue)| <= i < |queue| :: Waits(queue[i], rowIdx)
      ensures DropsNone() && |queue| <= |old(queue)| + |ids|
    {
      hide AllOk, Tracked, Held, Unclaimed;
      if closed { return; }
      for k := 0 to |ids|
        invariant forall i | |old(queue)| <= i < |queue| :: Waits(queue[i], rowIdx)
        invariant Valid() && |queue| >= |old(queue)| && queue[..|old(queue)|] == old(queue)
        invariant forall j | 0 <= j < k :: ids[j] in entries
        invariant |queue| <= |old(queue)| + k
      {
        if ids[k] !in entries { Enqueue(ids[k], rowIdx); }
      }
    }

    method Enqueue(id: BlobId, rowIdx: int)
      requires Valid() && !closed && id !in entries
      modifies `queue, `entries
      ensures Valid() && |queue| == |old(queue)| + 1 && queue[..|old(queue)|] == old(queue)
      ensures entries == old(entries)[id := |old(queue)|] && Waits(queue[|queue| - 1], rowIdx)
    {
      var e := Entry(id, rowIdx, Queued, [], false, NotAsked);
      HeldPush(queue, e, last);
      entries := entries[id := |queue|];
      queue := queue + [e];
      forall i | 0 <= i < |queue|
        ensures EntryOk(queue[i], i, current, entries, closed, content)
      {
        if i < |old(queue)| { assert EntryOk(old(queue)[i], i, current, old(entries), closed, content); }
      }
    }

    method Advance(rowIdx: int)
      requires Valid()
      modifies this
      ensures Valid() && Keeps() && DropsNone() && Settled() && watermark == rowIdx + depth && closed == old(closed)
      ensures StartsOne() && Serves() && (!old(running) && old(inline) == {} ==> (running <==> current.Some?))
    {
      watermark := rowIdx + depth;
      Kick();
    }

    /** Starts the first fetch that may start, unless one is running. */
    method Kick()
      requires Valid()
      modifies `queue, `entries, `usedBytes, `running, `current, `inline, `last
      ensures Valid() && Keeps() && Settled()
      ensures !old(running) ==> (if running then old(inline) == {} ==> current.Some? else current.None?)
      ensures Serves() && (old(running) ==>
        queue == old(queue) && entries == old(entries) && usedBytes == old(usedBytes) && current == old(current))
      ensures forall i | 0 <= i < |old(queue)| && !old(queue)[i].phase.Queued? :: queue[i] == old(queue)[i]
      ensures StartsOne()
    {
      if running { return; }
      var i := 0;
      while i < |queue| && !Eligible(queue[i])
        invariant 0 <= i <= |queue| && forall j | 0 <= j < i :: !Eligible(queue[j])
      {
        i := i + 1;
      }
      if i < |queue| { Begin(i); }
    }

    /** The synchronous part of a fetch; a blob that came inline is done at once. */
    method Begin(i: nat)
      requires Valid() && !running && i < |queue| && Eligible(queue[i])
      modifies `queue, `entries, `usedBytes, `running, `current, `inline, `last
      ensures Valid() && Keeps() && running && (old(queue)[i].id in old(inline) <==> current.None?)
      ensures Serves() && forall j | 0 <= j < |old(queue)| && j != i :: queue[j] == old(queue)[j]
    {
      hide AllOk, Tracked, Held, Unclaimed;
      var e := queue[i];
      OkAt(queue, i, current, entries, closed, content);
      if !e.claimed {
        UnclaimedBound(queue, i);
        last := i;
      }
      EntryChange(queue, i, e.(phase := Fetching), None, Some(i), entries, entries, closed, content);
      running, current := true, Some(i);
      Set(i, e.(phase := Fetching));
      if e.id in inline {
        inline := inline - {e.id};
        Complete(i, content(e.id));
      }
    }

    /** The fetch has all bytes: keep them for `take`, or hand them to who asked. */
    method Complete(i: nat, bytes: Bytes)
      requires Valid() && current == Some(i) && !giving && bytes == content(queue[i].id)
      modifies `queue, `entries, `usedBytes, `current
      ensures Valid() && current == None
      ensures |queue| == |old(queue)| && queue == old(queue)[i := queue[i]] && queue[i].phase.Done? &&
        queue[i].id == old(queue)[i].id
      ensures Serves()
      ensures old(queue)[i].claimed ==> queue[i].promise == Resolved(bytes) && queue[i].id !in entries
      ensures !old(queue)[i].claimed ==> queue[i].bytes == bytes && !queue[i].claimed && entries == old(entries)
    {
      hide AllOk, Tracked, Held, Unclaimed;
      var e := queue[i];
      OkAt(queue, i, current, entries, closed, content);
      current := None;
      if e.claimed {
        var e' := e.(phase := Done, bytes := [], promise := Resolved(bytes));
        EntryChange(queue, i, e', Some(i), None, entries, entries - {e.id}, closed, content);
        Set(i, e');
        entries := entries - {e.id};
      } else {
        var e' := e.(phase := Done, bytes := bytes);
        EntryChange(queue, i, e', Some(i), None, entries, entries, closed, content);
        Set(i, e');
      }
    }

    /**
     * The consumer asks for a blob, once. Bytes at hand are exactly the blob's and
     * their budget is given back; otherwise a promise, which `Keeps` and `EntryOk`
     * say resolves to the blob's bytes or not at all.
     */
    method Take(id: BlobId) returns (r: Taken)
      requires Valid()
      modifies this
      ensures Valid() && Keeps() && DropsNone() && closed == old(closed) && (old(running) ==> giving == old(giving))
      ensures r.Untracked? <==> id !in old(entries)
      ensures id in old(entries) ==>
        var i := old(entries)[id]; var e := old(queue)[i];
        && (r.Bytes? <==> e.phase.Done?) && (r.Error? <==> e.phase.Failed?) && (r.Promised? ==> r.index == i)
        && (r.Promised? && old(running) ==>
              current == old(current) && queue == old(queue)[i := e.(claimed := true, promise := Pending)])
      ensures r.Bytes? ==> r.bytes == content(id) && id !in entries
      ensures r.Promised? ==>
        && r.index < |queue| && queue[r.index].id == id && queue[r.index].claimed
        && (queue[r.index].promise.Pending? || queue[r.index].promise == Resolved(content(id)))
      ensures r.Bytes? || r.Promised? ==> Settled()
    {
      hide AllOk, Held, Unclaimed;
      if id !in entries { return Untracked; }
      var i := entries[id];
      var e := queue[i];
      OkAt(queue, i, current, entries, closed, content);
      if e.phase.Done? {
        Release(i);
        return Bytes(e.bytes);
      }
      if e.phase.Failed? {
        Claim(i, NotAsked, entries - {id});
        return Error;
      }
      Claim(i, Pending, entries);
      Kick();
      OkAt(queue, i, current, entries, closed, content);
      r := Promised(i);
    }

    method Claim(i: nat, promise: Promise, ents: map<BlobId, nat>)
      requires Valid() && i < |queue| && queue[i].id in entries && entries[queue[i].id] == i && !queue[i].phase.Done?
      requires if queue[i].phase.Failed? then promise.NotAsked? && ents == entries - {queue[i].id}
        else promise.Pending? && ents == entries
      modifies `queue, `entries, `usedBytes
      ensures Valid() && Keeps() && entries == ents &&
        queue == old(queue)[i := old(queue)[i].(claimed := true, promise := promise)]
    {
      hide AllOk, Held, Unclaimed;
      var e := queue[i];
      OkAt(queue, i, current, entries, closed, content);
      var e' := e.(claimed := true, promise := promise);
      EntryChange(queue, i, e', current, current, entries, ents, closed, content);
      Set(i, e');
      entries := ents;
    }

    /** Bytes handed over: they no longer count, and what waited for room may start. */
    method Release(i: nat)
      requires Valid() && i < |queue| && queue[i].phase.Done? && !queue[i].claimed
      modifies `queue, `entries, `usedBytes, `running, `current, `inline, `last
      ensures Valid() && Keeps() && DropsNone() && Settled() && old(queue)[i].id !in entries
      ensures old(running) ==> usedBytes == old(usedBytes) - |old(queue)[i].bytes|
    {
      hide AllOk, Tracked, Held, Unclaimed;
      var e := queue[i];
      OkAt(queue, i, current, entries, closed, content);
      var e' := e.(claimed := true, bytes := []);
      EntryChange(queue, i, e', current, current, entries, entries - {e.id}, closed, content);
      Set(i, e');
      entries := entries - {e.id};
      Kick();
    }

    /**
     * What the running fetch does between two waits. After a window: it fails, or is
     * done, or files the bytes and asks whether anybody still wants them; if not, it
     * waits for the lock. After that wait it drops its entry without asking again, and
     * strands the promise of a consumer who came meanwhile: that promise and no other.
     */
    method Slice(w: Window)
      requires Valid() && current.Some?
      modifies this
      ensures Valid() && running && closed == old(closed) && Keeps() && |queue| == |old(queue)|
      ensures forall j | 0 <= j < |queue| && Some(j) != old(current) :: queue[j] == old(queue)[j]
      ensures var i := old(current).value; var (e, e') := (old(queue)[i], queue[i]);
        if old(giving) then current.None? && e' == e.(phase := Aborted, bytes := [])
        else if w.Broken? then current.None? && e'.phase.Failed? && (e.claimed ==> e'.promise.Rejected?)
        else if w.n >= |content(e.id)| then
          current.None? && e'.phase.Done? && (e.claimed ==> e'.promise == Resolved(content(e.id)))
        else
          && current == old(current) && e' == e.(bytes := content(e.id)[..Max(w.n, |e.bytes|)])
          && (giving <==> closed && !e.claimed)
      ensures forall i | 0 <= i < |queue| ::
                Stranded(queue[i]) && !Stranded(old(queue)[i]) <==>
                  old(giving) && Some(i) == old(current) && old(queue)[i].claimed
    {
      hide AllOk, Tracked, Held, Unclaimed;
      var i := current.value;
      var e := queue[i];
      OkAt(queue, i, current, entries, closed, content);
      var all := content(e.id);
      if giving {
        Drop(i, Aborted);
      } else if w.Broken? {
        Drop(i, Phase.Failed);
      } else if w.n >= |all| {
        Complete(i, all);
      } else {
        var e' := e.(bytes := all[..Max(w.n, |e.bytes|)]);
        EntryChange(queue, i, e', current, current, entries, entries, closed, content);
        Set(i, e');
        giving := closed && !e.claimed;
      }
    }

    /** The fetch ends without bytes; after an error a consumer that waits is told of it. */
    method Drop(i: nat, phase: Phase)
      requires Valid() && current == Some(i)
      requires if giving then phase.Aborted? else phase.Failed?
      modifies `queue, `entries, `usedBytes, `current, `giving
      ensures Valid() && current == None && Keeps() && queue == old(queue)[i := queue[i]]
      ensures queue[i] == old(queue)[i].(phase := phase, bytes := [],
        promise := if phase.Failed? && old(queue)[i].claimed then Rejected else old(queue)[i].promise)
    {
      hide AllOk, Tracked, Held, Unclaimed;
      var e := queue[i];
      OkAt(queue, i, current, entries, closed, content);
      var e' := e.(phase := phase, bytes := [], promise := if phase.Failed? && e.claimed then Rejected else e.promise);
      var ents := if e.claimed || phase.Aborted? then entries - {e.id} else entries;
      EntryChange(queue, i, e', Some(i), None, entries, ents, closed, content);
      current, giving := None, false;
      Set(i, e');
      entries := ents;
    }

    /** The fetch's own promise has settled: the next one may start. */
    method Settle()
      requires Valid() && running && current.None?
      modifies this
      ensures Valid() && Keeps() && DropsNone() && Settled() && closed == old(closed)
    {
      running := false;
      Kick();
    }

    /**
     * Stop tracking. What is dropped stays counted as used. A blob that was claimed but
     * whose fetch had not begun is dropped too, and its promise is stranded: of all
     * promises those and no others are stranded here.
     */
    method Close()
      requires Valid()
      modifies this
      ensures Valid() && closed && Keeps() && |queue| == |old(queue)| && usedBytes == old(usedBytes)
      ensures current == old(current) && running == old(running) && giving == old(giving)
      ensures forall i | 0 <= i < |queue| :: queue[i] == Closed(old(queue)[i])
      ensures forall i | 0 <= i < |queue| ::
                queue[i].phase.Aborted? <==>
                  || old(queue)[i].phase.Aborted? || old(queue)[i].phase.Queued?
                  || (old(queue)[i].phase.Done? && !old(queue)[i].claimed)
      ensures forall i | 0 <= i < |queue| ::
                Stranded(queue[i]) && !Stranded(old(queue)[i]) <==> old(queue)[i].phase.Queued? && old(queue)[i].claimed
    {
      hide AllOk, Tracked, EntryOk, Held, Unclaimed;
      closed := true;
      ghost var before := queue;
      ClosingKeepsOk(queue, current, entries, old(closed), content);
      ClosingEffect(queue, current, entries, old(closed), content);
      var i := 0;
      while i < |queue|
        invariant 0 <= i <= |queue| == |before| && closed && Valid() && usedBytes == old(usedBytes)
        invariant current == old(current) && running == old(running) && giving == old(giving)
        invariant forall j | i <= j < |queue| :: queue[j] == before[j]
        invariant forall j | 0 <= j < i :: queue[j] == Closed(before[j])
      {
        CloseOne(i);
        i := i + 1;
      }
    }

    method CloseOne(i: nat)
      requires Valid() && closed && i < |queue|
      modifies `queue, `entries, `forgotten
      ensures Valid() && queue == old(queue)[i := Closed(old(queue)[i])]
    {
      hide AllOk, Held, Unclaimed;
      var e := queue[i];
      OkAt(queue, i, current, entries, closed, content);
      if e.phase.Queued? || (e.phase.Done? && !e.claimed) {
        EntryChange(queue, i, Closed(e), current, current, entries, entries - {e.id}, closed, content);
        HeldUpdate(queue, i, Closed(e));
        UnclaimedUpdate(queue, i, Closed(e), last);
        forgotten := forgotten + |e.bytes|;
        queue := queue[i := Closed(e)];
        entries := entries - {e.id};
      } else {
        assert queue == queue[i := e];
      }
    }
  }

  /** Closing leaves settled promises alone, and strands exactly those of claimed blobs still queued. */
  lemma ClosingEffect(q: seq<Entry>, current: Option<nat>, entries: map<BlobId, nat>, closed: bool,
        content: BlobId -> Bytes)
    requires AllOk(q, current, entries, closed, content)
    ensures forall i | 0 <= i < |q| ::
              && (q[i].phase.Aborted? || q[i].promise.Resolved? || q[i].promise.Rejected? ==> Closed(q[i]) == q[i])
              && (Stranded(Closed(q[i])) && !Stranded(q[i]) <==> q[i].phase.Queued? && q[i].claimed)
  {
    forall i | 0 <= i < |q|
      ensures q[i].phase.Aborted? || q[i].promise.Resolved? || q[i].promise.Rejected? ==> Closed(q[i]) == q[i]
      ensures Stranded(Closed(q[i])) && !Stranded(q[i]) <==> q[i].phase.Queued? && q[i].claimed
    {
      OkAt(q, i, current, entries, closed, content);
    }
  }

  /** What closing makes of an entry. */
  function Closed(e: Entry): Entry {
    if e.phase.Queued? || (e.phase.Done? && !e.claimed) then e.(phase := Aborted, bytes := []) else e
  }

  /**
   * How a promise is stranded: of two blobs in a row the first is being fetched, the
   * consumer asks for the second, and the prefetcher is closed. The entry is dropped
   * with its promise pending, and `Keeps` says that nothing changes that any more.
   */
  method StrandedPromise(depth: nat, maxBytes: int, content: BlobId -> Bytes, id1: BlobId, id2: BlobId)
    returns (p: BlobPrefetcher, taken: Taken)
    requires maxBytes > 0 && id1 != id2
    ensures p.Valid() && p.closed && taken.Promised? && taken.index < |p.queue| && Stranded(p.queue[taken.index])
  {
    hide AllOk, EntryOk, Tracked, Held, Unclaimed;
    p := new BlobPrefetcher(depth, maxBytes, content, {});
    p.AddRow(0, [id1, id2]);
    assert id1 in [id1, id2] && id2 in [id1, id2];
    TrackedAt(p.queue, p.entries, id1);
    TrackedAt(p.queue, p.entries, id2);
    var (first, second) := (p.entries[id1], p.entries[id2]);
    assert Waits(p.queue[first], 0) && Waits(p.queue[second], 0);
    p.Advance(0);
    assert p.running by { assert !p.Eligible(p.queue[first]) || p.running; }
    var i := if p.queue[second].phase.Queued? then second else first;
    StillTracked(p.queue, i, p.current, p.entries, p.closed, content);
    taken := p.Take(p.queue[i].id);
    p.Close();
  }

  /**
   * The other way: the fetch of a blob finds the prefetcher closed and nobody waiting.
   * While it waits for the lock the consumer asks after all, and is given a promise;
   * then the entry is dropped, promise and all.
   */
  method StrandedByAbort(depth: nat, maxBytes: int, content: BlobId -> Bytes, id: BlobId)
    returns (p: BlobPrefetcher, taken: Taken)
    requires maxBytes > 0 && content(id) != []
    ensures p.Valid() && p.closed && taken.Promised? && taken.index < |p.queue| && Stranded(p.queue[taken.index])
  {
    hide AllOk, EntryOk, Tracked, Held, Unclaimed;
    p := FetchingOne(depth, maxBytes, content, id);
    p.Close();
    Unasked(p);
    p.Slice(UpTo(0));
    taken := TakeAndDrop(p, id);
  }

  /** A prefetcher that is fetching its only blob. */
  method FetchingOne(depth: nat, maxBytes: int, content: BlobId -> Bytes, id: BlobId) returns (p: BlobPrefetcher)
    requires maxBytes > 0
    ensures fresh(p) && p.Valid() && p.content == content && p.current == Some(0) && |p.queue| == 1
    ensures p.queue[0].id == id && !p.queue[0].claimed && !p.giving
  {
    hide AllOk, EntryOk, Tracked, Held, Unclaimed;
    p := new BlobPrefetcher(depth, maxBytes, content, {});
    p.AddRow(0, [id]);
    assert id in [id];
    TrackedAt(p.queue, p.entries, id);
    assert p.entries[id] == 0 && Waits(p.queue[0], 0);
    p.Advance(0);
    assert p.running by { assert !p.Eligible(p.queue[0]) || p.running; }
  }

  /** The consumer asks while the fetch waits to drop the entry. */
  method TakeAndDrop(p: BlobPrefetcher, id: BlobId) returns (taken: Taken)
    requires p.Valid() && p.giving && p.current == Some(0) && p.queue[0].id == id
    modifies p
    ensures p.Valid() && p.closed && taken == Promised(0) && |p.queue| > 0 && Stranded(p.queue[0])
  {
    hide AllOk, EntryOk, Tracked, Held, Unclaimed;
    Unasked(p);
    taken := p.Take(id);
    p.Slice(UpTo(0));
  }

  lemma Unasked(p: BlobPrefetcher)
    requires p.Valid() && p.current == Some(0)
    ensures p.queue[0].phase.Fetching? && p.queue[0].id in p.entries && p.entries[p.queue[0].id] == 0
  {
  }

  lemma TrackedAt(q: seq<Entry>, entries: map<BlobId, nat>, id: BlobId)
    requires Tracked(q, entries) && id in entries
    ensures entries[id] < |q| && q[entries[id]].id == id
  {
  }

  lemma StillTracked(q: seq<Entry>, i: nat, current: Option<nat>, entries: map<BlobId, nat>, closed: bool,
        content: BlobId -> Bytes)
    requires AllOk(q, current, entries, closed, content) && i < |q| && q[i].phase.Queued?
    ensures q[i].id in entries && entries[q[i].id] == i
  {
    OkAt(q, i, current, entries, closed, content);
  }
}
