/**
 * The connection pool (pool/pool.ts) as atomic steps: what happens between two
 * awaits of `acquire`, `release`, `warmup`, `sweepIdle` and `close`, in any order.
 */
module ConnectionPool {
  import opened WireTypes

  type Conn = int

  /** Where a call of `acquire` stands after a step. */
  datatype Stage =
    | Lent(conn: Conn)
    | Pinging(conn: Conn)
    | Creating
    | Waiting(ticket: nat)
    | PoolClosed

  datatype Settlement = Served(conn: Conn) | TimedOut | Closing

  class Pool {
    const min: nat
    const max: nat
    const validateOnAcquire: bool
    var idle: seq<Conn>
    var inUse: set<Conn>
    /** Tickets of the calls that wait for a release, oldest first. */
    var waiters: seq<nat>
    var pendingCreates: nat
    var closed: bool
    /** Connections callers hold, and those still being validated for one. */
    ghost var lent: set<Conn>
    ghost var pinging: set<Conn>
    /** How each ticket was settled. */
    ghost var settled: map<nat, Settlement>
    /** How many calls have ever had to wait. */
    var tickets: nat
    /** Slots given up since the last call began to wait: a connection was found dead, a creation failed, a sweep. */
    ghost var dropped: nat
    /** Since the last call began to wait, a warm-up connection went to the idle list past somebody who waited. */
    ghost var overtaken: bool

    function Size(): nat reads `idle, `inUse, `pendingCreates { |idle| + |inUse| + pendingCreates }

    /** Never over `max`, and no connection is in two places. */
    ghost predicate Slots() reads `idle, `inUse, `pendingCreates, `closed, `lent, `pinging {
      && Size() <= max
      && (forall i, j | 0 <= i < j < |idle| :: idle[i] != idle[j])
      && (forall c | c in idle :: c !in lent && c !in pinging && c !in inUse)
      && lent !! pinging && inUse <= lent + pinging && (!closed ==> inUse == lent + pinging)
    }

    /** Tickets are in order, and each one waits or was settled, not both. */
    ghost predicate Line() reads `waiters, `settled, `tickets {
      && (forall i, j | 0 <= i < j < |waiters| :: waiters[i] < waiters[j])
      && (forall i | 0 <= i < |waiters| :: waiters[i] < tickets && waiters[i] !in settled)
      && (forall t: nat | t < tickets :: t in waiters || t in settled)
      && (forall t | t in settled :: t < tickets)
    }

    /** Who waits, waits for a reason: nothing is idle, and every slot is taken. */
    ghost predicate Fair() reads `idle, `inUse, `pendingCreates, `waiters, `dropped, `overtaken {
      && (waiters != [] && !overtaken ==> idle == [])
      && (waiters != [] ==> Size() + dropped >= max)
    }

    ghost predicate Valid() reads this { Slots() && Line() && Fair() && min <= max && 1 <= max }

    /** The step gives up `n` slots if somebody waits, and lets nobody past. */
    twostate predicate GivesUp(n: nat) reads `dropped, `overtaken, `waiters {
      dropped == old(dropped) + (if old(waiters) != [] then n else 0) && overtaken == old(overtaken)
    }

    /** Every ticket settled before stays settled the same way, and new ones are younger. */
    twostate predicate Settles() reads this {
      && old(tickets) <= tickets
      && forall t | t in old(settled) :: t in settled && settled[t] == old(settled)[t]
    }

    constructor (min: nat, max: nat, validateOnAcquire: bool)
      requires min <= max && 1 <= max
      ensures Valid() && idle == [] && inUse == {} && waiters == [] && !closed && dropped == 0 && !overtaken
    {
      this.min, this.max, this.validateOnAcquire := min, max, validateOnAcquire;
      idle, inUse, waiters, pendingCreates, closed := [], {}, [], 0, false;
      lent, pinging, settled, tickets, dropped, overtaken := {}, {}, map[], 0, 0, false;
    }

    method Acquire() returns (r: Stage)
      requires Valid()
      modifies this
      ensures Valid() && Settles() && Granted(r) && (r.PoolClosed? <==> old(closed))
      ensures if r.Waiting? then dropped == 0 && !overtaken else dropped >= old(dropped) && overtaken == old(overtaken)
    {
      if closed { return PoolClosed; }
      r := Next();
    }

    /** What a stage promises the caller: a connection nobody else has, a slot, or a place in line. */
    twostate predicate Granted(r: Stage) reads this {
      match r
      case Lent(c) => c in lent && c !in old(lent) && lent == old(lent) + {c}
      case Pinging(c) => c in pinging && lent == old(lent)
      case Creating => pendingCreates == old(pendingCreates) + 1 && lent == old(lent)
      case Waiting(t) => t == old(tickets) && waiters == old(waiters) + [t] && lent == old(lent)
      case PoolClosed => lent == old(lent)
    }

    /** An idle connection if one answers, else a new one if there is room, else the end of the line. */
    method Next() returns (r: Stage)
      requires Valid()
      modifies this
      ensures Valid() && Settles() && Granted(r) && !r.PoolClosed? && closed == old(closed)
      ensures if r.Waiting? then dropped == 0 && !overtaken else dropped >= old(dropped) && overtaken == old(overtaken)
    {
      hide Line, Slots, Fair;
      while idle != []
        invariant Valid() && |idle| <= |old(idle)| && waiters == old(waiters) && pendingCreates == old(pendingCreates)
        invariant lent == old(lent) && tickets == old(tickets) && settled == old(settled) && closed == old(closed)
        invariant dropped >= old(dropped) && overtaken == old(overtaken)
        decreases |idle|
      {
        var conn := Reserve();
        var alive: bool := *;
        if alive {
          if validateOnAcquire { return Pinging(conn); }
          Lend(conn);
          return Lent(conn);
        }
        Discard(conn);
      }
      if Size() < max {
        TakeSlot();
        return Creating;
      }
      var t := NewTicket();
      r := Waiting(t);
    }

    /** Takes the last idle connection, and its slot at once. */
    method Reserve() returns (conn: Conn)
      requires Valid() && idle != []
      modifies `idle, `inUse, `pinging
      ensures Valid() && idle == old(idle)[..|old(idle)| - 1] && conn == old(idle)[|idle|]
      ensures pinging == old(pinging) + {conn} && conn !in old(pinging) && conn !in lent && conn in inUse
    {
      hide Line;
      conn := idle[|idle| - 1];
      idle := idle[..|idle| - 1];
      inUse := inUse + {conn};
      pinging := pinging + {conn};
    }

    /** Gives up a reserved connection that does not answer. */
    method Discard(conn: Conn)
      requires Valid() && conn in pinging
      modifies `inUse, `pinging, `dropped
      ensures Valid() && pinging == old(pinging) - {conn} && GivesUp(if conn in old(inUse) then 1 else 0)
    {
      hide Line;
      if conn in inUse && waiters != [] { dropped := dropped + 1; }
      inUse := inUse - {conn};
      pinging := pinging - {conn};
    }

    method TakeSlot()
      requires Valid() && Size() < max
      modifies `pendingCreates
      ensures Valid() && pendingCreates == old(pendingCreates) + 1
    {
      hide Line;
      pendingCreates := pendingCreates + 1;
    }

    ghost method Lend(conn: Conn)
      requires Valid() && conn in pinging
      modifies `lent, `pinging
      ensures Valid() && conn !in old(lent) && lent == old(lent) + {conn} && pinging == old(pinging) - {conn}
    {
      hide Line;
      pinging, lent := pinging - {conn}, lent + {conn};
    }

    method NewTicket() returns (t: nat)
      requires Valid() && idle == [] && Size() >= max
      modifies `waiters, `tickets, `dropped, `overtaken
      ensures Valid() && t == old(tickets) && tickets == t + 1 && waiters == old(waiters) + [t]
      ensures dropped == 0 && !overtaken
    {
      t := tickets;
      waiters, tickets := waiters + [t], t + 1;
      dropped, overtaken := 0, false;
    }

    /** The answer to a ping: the connection is lent, or `acquire` looks for another. */
    method PingDone(conn: Conn, ok: bool) returns (r: Stage)
      requires Valid() && conn in pinging
      modifies this
      ensures Valid() && Settles() && (ok ==> r == Lent(conn) && GivesUp(0)) && Granted(r)
    {
      if ok {
        Lend(conn);
        return Lent(conn);
      }
      Discard(conn);
      r := Next();
    }

    /** A connection the pool has not seen, once it is established; which is the server's choice. */
    method CreateDone(conn: Conn, ok: bool) returns (r: Option<Conn>)
      requires Valid() && pendingCreates > 0
      requires conn !in idle && conn !in lent && conn !in pinging && conn !in inUse
      modifies this
      ensures Valid() && Settles() && closed == old(closed) && waiters == old(waiters) &&
        pendingCreates == old(pendingCreates) - 1
      ensures r == (if ok then Some(conn) else None) && GivesUp(if ok then 0 else 1)
      ensures lent == old(lent) + if ok then {conn} else {}
    {
      hide Slots, Line, Fair;
      if ok {
        Admit(conn);
        return Some(conn);
      }
      GiveUpSlot();
      r := None;
    }

    method Admit(conn: Conn)
      requires Valid() && pendingCreates > 0
      requires conn !in idle && conn !in lent && conn !in pinging && conn !in inUse
      modifies `pendingCreates, `inUse, `lent
      ensures Valid() && pendingCreates == old(pendingCreates) - 1
      ensures inUse == old(inUse) + {conn} && lent == old(lent) + {conn}
    {
      hide Line;
      pendingCreates, inUse, lent := pendingCreates - 1, inUse + {conn}, lent + {conn};
    }

    method GiveUpSlot()
      requires Valid() && pendingCreates > 0
      modifies `pendingCreates, `dropped
      ensures Valid() && pendingCreates == old(pendingCreates) - 1 && GivesUp(1)
    {
      hide Line;
      if waiters != [] { dropped := dropped + 1; }
      pendingCreates := pendingCreates - 1;
    }

    /**
     * Hands the connection to whoever waits longest, or keeps it. A dead one is only
     * dropped: its slot is free then, and nobody is told.
     */
    method Release(conn: Conn, alive: bool)
      requires Valid() && (conn in lent || conn !in inUse)
      modifies this
      ensures Valid() && Settles() && pendingCreates == old(pendingCreates) && closed == old(closed)
      ensures GivesUp(if conn in old(inUse) && (closed || !alive) then 1 else 0)
      ensures conn !in old(inUse) ==> idle == old(idle) && inUse == old(inUse) && waiters == old(waiters)
      ensures conn in old(inUse) && (closed || !alive) ==>
        inUse == old(inUse) - {conn} && idle == old(idle) && waiters == old(waiters)
      ensures conn in old(inUse) && !closed && alive && old(waiters) == [] ==>
        idle == old(idle) + [conn] && conn !in lent
      ensures conn in old(inUse) && !closed && alive && old(waiters) != [] ==>
        && waiters == old(waiters)[1..] && conn in lent && inUse == old(inUse) && idle == old(idle)
        && settled == old(settled)[old(waiters)[0] := Served(conn)]
    {
      hide Slots, Line, Fair;
      if conn !in inUse {
        Forget(conn);
      } else if closed || !alive {
        Retire(conn);
      } else if waiters != [] {
        HandOver(conn);
      } else {
        Keep(conn);
      }
    }

    ghost method Forget(conn: Conn)
      requires Valid() && conn !in inUse
      modifies `lent
      ensures Valid() && lent == old(lent) - {conn}
    {
      hide Line;
      lent := lent - {conn};
    }

    method Retire(conn: Conn)
      requires Valid() && conn in inUse && conn in lent
      modifies `inUse, `lent, `dropped
      ensures Valid() && inUse == old(inUse) - {conn} && lent == old(lent) - {conn}
      ensures GivesUp(1)
    {
      hide Line;
      if waiters != [] { dropped := dropped + 1; }
      inUse, lent := inUse - {conn}, lent - {conn};
    }

    /** The connection changes hands without leaving `inUse`. */
    method HandOver(conn: Conn)
      requires Valid() && conn in inUse && conn in lent && waiters != []
      modifies `waiters, `settled
      ensures Valid() && waiters == old(waiters)[1..] && settled == old(settled)[old(waiters)[0] := Served(conn)]
      ensures old(waiters)[0] !in old(settled)
    {
      hide Line, Slots;
      Settle(0, Served(conn));
    }

    method Keep(conn: Conn)
      requires Valid() && conn in inUse && conn in lent && waiters == []
      modifies `inUse, `lent, `idle
      ensures Valid() && idle == old(idle) + [conn] && inUse == old(inUse) - {conn} && lent == old(lent) - {conn}
    {
      hide Line;
      inUse, lent, idle := inUse - {conn}, lent - {conn}, idle + [conn];
    }

    /** Takes one waiter out of the line, wherever it stands. */
    method Settle(i: nat, s: Settlement)
      requires Line() && i < |waiters|
      modifies `waiters, `settled
      ensures Line() && waiters == old(waiters)[..i] + old(waiters)[i + 1..] &&
        settled == old(settled)[old(waiters)[i] := s]
      ensures old(waiters)[i] !in old(settled)
    {
      ghost var was := waiters;
      settled := settled[waiters[i] := s];
      waiters := waiters[..i] + waiters[i + 1..];
      RemovedAt(was, waiters, i);
      assert forall t: nat | t < tickets :: t in was ==> t in waiters || t == was[i];
    }

    lemma RemovedAt(was: seq<nat>, now: seq<nat>, i: nat)
      requires i < |was| && now == was[..i] + was[i + 1..]
      ensures forall k | 0 <= k < |now| :: now[k] == was[if k < i then k else k + 1]
      ensures forall t | t in was && t != was[i] :: t in now
    {
      forall t | t in was && t != was[i]
        ensures t in now
      {
        var k :| 0 <= k < |was| && was[k] == t;
        assert now[if k < i then k else k - 1] == t;
      }
    }

    method Timeout(t: nat)
      requires Valid() && t in waiters
      modifies this
      ensures Valid() && Settles() && closed == old(closed) && t !in waiters &&
        settled == old(settled)[t := TimedOut] && inUse == old(inUse)
      ensures GivesUp(0)
    {
      var i :| 0 <= i < |waiters| && waiters[i] == t;
      Settle(i, TimedOut);
      RemovedAt(old(waiters), waiters, i);
    }

    /** Reserves the slots that `min` still lacks. */
    method WarmupStart() returns (need: nat)
      requires Valid()
      modifies `pendingCreates
      ensures Valid() && need == Max(0, min - old(Size())) && Size() == Max(min, old(Size()))
    {
      need := Max(0, min - Size());
      pendingCreates := pendingCreates + need;
    }

    method WarmupDone(conn: Conn, ok: bool)
      requires Valid() && pendingCreates > 0
      requires conn !in idle && conn !in lent && conn !in pinging && conn !in inUse
      modifies this
      ensures Valid() && Settles() && closed == old(closed) && waiters == old(waiters)
      ensures if ok then overtaken == (old(overtaken) || waiters != []) && dropped == old(dropped) else GivesUp(1)
      ensures idle == old(idle) + if ok then [conn] else []
    {
      hide Line;
      if !ok {
        GiveUpSlot();
        return;
      }
      if waiters != [] { overtaken := true; }
      pendingCreates, idle := pendingCreates - 1, idle + [conn];
    }

    /** Drops idle connections above `min`, newest first, as far as `expired` says so. */
    method SweepIdle(expired: set<Conn>)
      requires Valid()
      modifies this
      ensures Valid() && Settles() && closed == old(closed) && inUse == old(inUse) && waiters == old(waiters)
      ensures |idle| <= |old(idle)| && GivesUp(|old(idle)| - |idle|)
      ensures |idle| + |inUse| >= Min(min, |old(idle)| + |old(inUse)|)
      ensures forall c | c in idle :: c in old(idle)
      ensures forall c | c in old(idle) && c !in expired :: c in idle
    {
      hide Line, Slots, Fair;
      var i := |idle|;
      while i > 0
        invariant 0 <= i <= |idle| && Valid() && closed == old(closed) && inUse == old(inUse) && waiters == old(waiters)
        invariant tickets == old(tickets) && settled == old(settled)
        invariant |idle| <= |old(idle)| && GivesUp(|old(idle)| - |idle|)
        invariant |idle| + |inUse| >= Min(min, |old(idle)| + |old(inUse)|)
        invariant forall c | c in idle :: c in old(idle)
        invariant forall c | c in old(idle) && c !in expired :: c in idle
      {
        i := i - 1;
        if |idle| + |inUse| <= min { return; }
        if idle[i] in expired { DropIdle(i); }
      }
    }

    method DropIdle(i: nat)
      requires Valid() && i < |idle|
      modifies `idle, `dropped
      ensures Valid() && |idle| == |old(idle)| - 1 && GivesUp(1)
      ensures forall c :: c in idle <==> c in old(idle) && c != old(idle)[i]
    {
      hide Line;
      if waiters != [] { dropped := dropped + 1; }
      ghost var was := idle;
      idle := idle[..i] + idle[i + 1..];
      assert forall k | 0 <= k < |idle| :: idle[k] == was[if k < i then k else k + 1];
      forall c | c in was && c != was[i] ensures c in idle {
        var k :| 0 <= k < |was| && was[k] == c;
        assert idle[if k < i then k else k - 1] == c;
      }
    }

    /** Everybody who waits is told, once; nothing is idle or counted as in use any more. */
    method Close()
      requires Valid()
      modifies this
      ensures Valid() && Settles() && closed && idle == [] && inUse == {} && waiters == []
      ensures forall t | t in old(waiters) :: t in settled && settled[t] == Closing
      ensures lent == old(lent)
    {
      hide Line;
      closed := true;
      while waiters != []
        invariant Valid() && Settles() && closed && lent == old(lent) && tickets == old(tickets)
        invariant forall t | t in old(waiters) :: t in waiters || (t in settled && settled[t] == Closing)
        decreases |waiters|
      {
        Settle(0, Closing);
      }
      idle, inUse := [], {};
    }
  }

  /**
   * A connection comes back while somebody waits: the line moves if and only if it is
   * alive. After a dead one there is room for another, and nobody in the line is told.
   */
  method ReleaseServesExactly(p: Pool, conn: Conn, alive: bool)
    requires p.Valid() && !p.closed && p.waiters != [] && conn in p.lent
    modifies p
    ensures p.Valid() && (p.waiters == old(p.waiters)[1..] <==> alive) && (p.waiters == old(p.waiters) <==> !alive)
    ensures p.Size() < p.max <==> !alive || old(p.Size()) < p.max
  {
    p.Release(conn, alive);
    ghost var rest := old(p.waiters)[1..];
    assert |rest| < |old(p.waiters)|;
    assert if alive then p.waiters == rest else p.waiters == old(p.waiters);
    assert old(p.inUse) == (old(p.inUse) - {conn}) + {conn};
  }

  // ---- map ---------------------------------------------------------------------------------------

  /**
   * `map` over `n` items by a few workers that share a cursor; a worker takes the
   * next index, awaits `f` on it, stores the result and goes on.
   */
  class MapRun<R> {
    const n: nat
    const limit: nat
    /** What the callback returns for each index. */
    const f: nat -> R
    var cursor: nat
    var results: map<nat, R>
    /** The index each busy worker is at. */
    var working: map<nat, nat>
    var failed: bool
    /** Indices the callback was called on, in order. */
    ghost var calls: seq<nat>

    ghost predicate Valid() reads this {
      && |calls| == Min(cursor, n) && (forall k | 0 <= k < |calls| :: calls[k] == k)
      && (forall w | w in working :: w < limit && working[w] < |calls| && working[w] !in results)
      && (forall v, w | v in working && w in working && v != w :: working[v] != working[w])
      && (forall k | k in results :: k < |calls| && results[k] == f(k))
      && (!failed ==> forall k: nat | k < |calls| :: k in results || exists w :: w in working && working[w] == k)
    }

    constructor (n: nat, concurrency: nat, f: nat -> R)
      ensures Valid() && this.n == n && this.f == f && limit == Max(1, concurrency)
      ensures results == map[] && working == map[] && !failed && calls == [] && cursor == 0
    {
      this.n, limit, this.f := n, Max(1, concurrency), f;
      cursor, results, working, failed, calls := 0, map[], map[], false, [];
    }

    /** A worker without an index takes the next one, or ends. */
    method Take(w: nat) returns (more: bool)
      requires Valid() && w < limit && w !in working
      modifies `cursor, `working, `calls
      ensures Valid() && more == (old(cursor) < n) && cursor == old(cursor) + 1
      ensures more ==> calls == old(calls) + [old(cursor)] && working == old(working)[w := old(cursor)]
      ensures !more ==> calls == old(calls) && working == old(working)
    {
      var i := cursor;
      cursor := cursor + 1;
      if i >= n { return false; }
      working := working[w := i];
      calls := calls + [i];
      forall k: nat | !failed && k < |calls|
        ensures k in results || exists v :: v in working && working[v] == k
      {
        if k < i && k !in results {
          var v :| v in old(working) && old(working)[v] == k;
          assert v in working && working[v] == k;
        } else if k == i {
          assert w in working && working[w] == k;
        }
      }
      more := true;
    }

    /** The callback is done: the result goes to its own place, whatever the others do. */
    method Done(w: nat)
      requires Valid() && w in working
      modifies `results, `working
      ensures Valid() && results == old(results)[old(working)[w] := f(old(working)[w])] && working == old(working) - {w}
    {
      var i := working[w];
      results, working := results[i := f(i)], working - {w};
      forall k: nat | !failed && k < |calls| && k !in results
        ensures exists v :: v in working && working[v] == k
      {
        var v :| v in old(working) && old(working)[v] == k;
        assert v in working && working[v] == k;
      }
    }

    method Fail(w: nat)
      requires Valid() && w in working
      modifies `working, `failed
      ensures Valid() && failed && working == old(working) - {w}
    {
      failed, working := true, working - {w};
    }

    /** The workers in `live` go on, and whoever has an index is one of them. */
    ghost predicate Manned(live: set<nat>) reads this {
      Valid() && (forall w | w in live :: w < limit) && forall w | w in working :: w in live
    }

    ghost function Left(live: set<nat>): int reads this { 2 * (n - |calls|) + |working| + |live| }

    /** One step of one worker: a callback that returns or fails, or the next index, or the end. */
    method Turn(w: nat, live: set<nat>) returns (live': set<nat>)
      requires Manned(live) && w in live
      modifies this
      ensures Manned(live') && 0 <= Left(live') < old(Left(live))
      ensures live' == live || (live' == live - {w} && (failed || cursor >= n))
      ensures old(failed) ==> failed
    {
      live' := live;
      if w in working {
        var fails: bool := *;
        if fails {
          Fail(w);
          live' := live - {w};
        } else {
          Done(w);
        }
      } else {
        var more := Take(w);
        if !more { live' := live - {w}; }
      }
    }

    /** When the workers have ended and none failed, every index was called once, and the results are in place. */
    lemma AllDone()
      requires Valid() && working == map[] && cursor >= n && !failed
      ensures |calls| == n && (forall k: nat | k < n :: calls[k] == k && k in results && results[k] == f(k))
      ensures forall k | k in results :: k < n
    {
    }

    /** Never more calls at once than the limit. */
    lemma Bounded()
      requires Valid()
      ensures |working| <= limit
    {
      assert working.Keys <= Below(limit);
      SubsetSize(working.Keys, Below(limit));
    }
  }

  /**
   * The whole run: workers take turns in any order, and a callback may fail. With no
   * failure every index is called once and each result stands at its index; with one
   * there is no result, and no index has been called twice either.
   */
  method MapAll<R>(n: nat, concurrency: nat, f: nat -> R) returns (r: Option<seq<R>>, ghost calls: seq<nat>)
    ensures r.Some? ==> |calls| == n && |r.value| == n && forall k: nat | k < n :: r.value[k] == f(k)
    ensures |calls| <= n && forall k | 0 <= k < |calls| :: calls[k] == k
  {
    var run := new MapRun(n, concurrency, f);
    var live := Below(Min(run.limit, n));
    while live != {}
      invariant fresh(run) && run.Manned(live)
      invariant live == {} ==> run.failed || run.cursor >= n
      decreases run.Left(live)
    {
      var w :| w in live;
      live := run.Turn(w, live);
    }
    if run.failed { return None, run.calls; }
    assert run.working == map[] by { assert forall w :: w !in run.working; }
    run.AllDone();
    r, calls := Some(seq(n, k requires 0 <= k < n && k in run.results reads run => run.results[k])), run.calls;
  }

  function Below(n: nat): (s: set<nat>)
    ensures |s| == n && forall k: nat :: k in s <==> k < n
  {
    if n == 0 then {} else Below(n - 1) + {n - 1}
  }

  lemma {:induction false} SubsetSize(a: set<nat>, b: set<nat>)
    requires a <= b
    ensures |a| <= |b|
  {
    if a != {} {
      var x :| x in a;
      SubsetSize(a - {x}, b - {x});
    }
  }
}
