/**
 * One attachment with its server-side transactions (api/attachment.ts), and the
 * driver's `Transaction` object over it (api/transaction.ts). A statement is an
 * opaque effect; the server may refuse any request.
 */
module Transactions {
  import opened Results
  import opened ScriptMeaning

  /** A transaction open on the server, and the effects it holds, uncommitted. */
  datatype Work = Work(readOnly: bool, effects: seq<int>)

  /** The server's own choice on a request it could carry out. */
  datatype Decision = Comply | Refuse(gdsCode: int)

  type Settled<+T> = Result<T, Failure>

  function Replied<T>(r: Settled<T>): Reply { if r.Returned? then OK else Thrown(r.error) }

  class Database {
    var durable: seq<int>
    var work: map<int, Work>
    var generation: nat
    var alive: bool
    var detached: bool
    /** Everything asked of the server, with its replies. */
    ghost var log: seq<Ask>

    /** A read-only transaction holds no work. */
    ghost predicate Valid() reads this {
      forall h | h in work && work[h].readOnly :: work[h].effects == []
    }

    constructor ()
      ensures Valid() && durable == [] && work == map[] && log == []
    {
      durable, work, generation, alive, detached := [], map[], 0, true, false;
      log := [];
    }

    method Start(options: Options) returns (r: Settled<int>)
      requires Valid()
      modifies `work, `log
      ensures Valid() && log == old(log) + [Started(options, Replied(r))]
      ensures r.Returned? ==> r.value !in old(work) && work == old(work)[r.value := Work(options.readOnly, [])]
      ensures r.Thrown? ==> work == old(work)
    {
      var decision: Decision := *;
      if !alive {
        r := Thrown(ConnectionClosed);
      } else if decision.Refuse? {
        r := Thrown(ServerSaid(decision.gdsCode));
      } else {
        var h := Unused(work.Keys);
        work := work[h := Work(options.readOnly, [])];
        r := Returned(h);
      }
      log := log + [Started(options, Replied(r))];
    }

    /** Commit or roll back `h`, and end it unless `retain`; a refusal changes nothing. */
    method End(h: int, how: Finish, retain: bool) returns (r: Settled<()>)
      requires Valid()
      modifies `durable, `work, `log
      ensures Valid()
      ensures r.Returned? ==>
        && h in old(work)
        && durable == old(durable) + (if how.CommitIt? then old(work)[h].effects else [])
        && work == if retain then old(work)[h := old(work)[h].(effects := [])] else old(work) - {h}
      ensures r.Thrown? ==> durable == old(durable) && work == old(work)
      ensures log == old(log) + [Ended(how, retain, r)]
    {
      r := Decide(h);
      log := log + [Ended(how, retain, r)];
      if r.Thrown? { return; }
      durable := durable + (if how.CommitIt? then work[h].effects else []);
      work := if retain then work[h := work[h].(effects := [])] else work - {h};
    }

    /** A request about transaction `h`: refused without a connection or the transaction, or as the server likes. */
    method Decide(h: int) returns (r: Settled<()>)
      ensures r.Returned? ==> h in work
      ensures r.Thrown? && r.error.ServerSaid? ==> h in work
      ensures r.Thrown? ==> r.error.ServerSaid? || r.error.BadHandle? || r.error.ConnectionClosed?
    {
      if !alive { return Thrown(ConnectionClosed); }
      if h !in work { return Thrown(BadHandle); }
      var decision: Decision := *;
      r := if decision.Refuse? then Thrown(ServerSaid(decision.gdsCode)) else OK;
    }

    method Execute(h: int, s: Statement) returns (r: Settled<()>)
      requires Valid()
      modifies `work, `log
      ensures Valid() && log == old(log) + [Sent(s, r)]
      ensures r.Returned? ==>
        && h in old(work)
        && work == if old(work)[h].readOnly then old(work)
                else old(work)[h := Work(false, old(work)[h].effects + [s.text])]
      ensures r.Thrown? ==> work == old(work) && (r.error.ServerSaid? ==> h in work)
    {
      r := Decide(h);
      log := log + [Sent(s, r)];
      if r.Returned? && !work[h].readOnly { work := work[h := Work(false, work[h].effects + [s.text])]; }
    }

    /** A new connection; the server rolls back whatever the old one had open. */
    method Reconnect() returns (r: Settled<()>)
      requires Valid()
      modifies `work, `generation, `alive, `log
      ensures Valid() && log == old(log) + [Attached(r)]
      ensures r.Thrown? && detached ==> work == old(work) && generation == old(generation) && alive == old(alive)
      ensures !(r.Thrown? && detached) ==>
        work == map[] && generation == old(generation) + 1 && alive == r.Returned?
    {
      r := Thrown(ConnectionClosed);
      if !detached {
        generation, work := generation + 1, map[];
        alive := *;
        if alive { r := OK; }
      }
      log := log + [Attached(r)];
    }
  }

  /** A handle the server is not using; which one is its own choice. */
  method Unused(used: set<int>) returns (h: int)
    ensures h !in used
  {
    h := *;
    if h in used {
      h := 0;
      var left := used;
      while h in left
        invariant left <= used && (forall k | k in used && k !in left :: k < h)
        decreases left
      {
        left, h := left - {h}, h + 1;
      }
    }
  }

  class Transaction {
    const att: Database
    const attGeneration: nat
    var finished: bool
    var currentHandle: int
    var options: Options
    var generation: nat
    var wasAutoUpgraded: bool
    var spDepth: int

    /** The server has this transaction open, and the object still claims it. */
    ghost predicate Live() reads this, att {
      Active() && currentHandle in att.work
    }

    ghost predicate Active() reads this, att { !finished && attGeneration == att.generation }

    ghost predicate Valid() reads this, att {
      && att.Valid()
      && attGeneration <= att.generation
      && (Live() ==> att.work[currentHandle].readOnly == options.readOnly)
    }

    ghost function Pending(): seq<int> reads this, att {
      if Live() then att.work[currentHandle].effects else []
    }

    /** The attachment's other transactions. */
    ghost function Others(): map<int, Work> reads this, att {
      if Live() then att.work - {currentHandle} else att.work
    }

    /** What a lazy blob handle made in generation `g` asks before it reads. */
    predicate BlobsAlive(g: nat) reads this, att {
      !finished && generation == g && att.generation == attGeneration && att.alive
    }

    constructor (att: Database, handle: int, options: Options)
      requires att.Valid() && handle in att.work && att.work[handle].readOnly == options.readOnly
      ensures this.att == att && attGeneration == att.generation && Valid() && Live()
      ensures currentHandle == handle && this.options == options && generation == 0 && spDepth == 0
    {
      this.att := att;
      attGeneration := att.generation;
      finished, currentHandle, this.options := false, handle, options;
      generation, wasAutoUpgraded, spDepth := 0, false, 0;
    }

    method AssertActive() returns (r: Settled<()>)
      ensures r.Returned? <==> attGeneration == att.generation && !finished
      ensures r.Thrown? ==> r.error == Reconnected || r.error == AlreadyFinished
    {
      if att.generation != attGeneration { return Thrown(Reconnected); }
      if finished { return Thrown(AlreadyFinished); }
      r := Returned(());
    }

    /** Commit or roll back for good: on success the work has met that fate, on refusal nothing has changed. */
    method Conclude(how: Finish) returns (r: Settled<()>)
      requires Valid()
      modifies `finished, att`durable, att`work, att`log
      ensures Valid() && Others() == old(Others())
      ensures r.Returned? ==>
        && old(Live()) && finished && att.work == old(Others())
        && att.durable == old(att.durable) + (if how.CommitIt? then old(Pending()) else [])
      ensures r.Returned? ==> forall g :: !BlobsAlive(g)
      ensures r.Thrown? ==>
        && finished == old(finished) && att.work == old(att.work) && att.durable == old(att.durable)
      ensures att.log == old(att.log) + (if old(Active()) then [Ended(how, false, r)] else [])
      ensures !old(Active()) ==> r.Thrown? && (r.error == Reconnected || r.error == AlreadyFinished)
    {
      r := AssertActive();
      if r.Thrown? { return; }
      finished := true;
      r := att.End(currentHandle, how, false);
      if r.Thrown? { finished := false; }
    }

    /** COMMIT or ROLLBACK, keeping the transaction open. */
    method Retain(how: Finish) returns (r: Settled<()>)
      requires Valid()
      modifies att`durable, att`work, att`log
      ensures Valid() && Others() == old(Others()) && Live() == old(Live())
      ensures r.Returned? ==>
        && Live() && Pending() == []
        && att.durable == old(att.durable) + (if how.CommitIt? then old(Pending()) else [])
      ensures r.Thrown? ==>
        && att.work == old(att.work) && att.durable == old(att.durable)
      ensures att.log == old(att.log) + (if old(Active()) then [Ended(how, true, r)] else [])
      ensures !old(Active()) ==> r.Thrown? && (r.error == Reconnected || r.error == AlreadyFinished)
    {
      r := AssertActive();
      if r.Thrown? { return; }
      r := att.End(currentHandle, how, true);
    }

    /**
     * Finish and start afresh. Three ends: all done, with older blob handles
     * dead; the finish refused, nothing changed; or finished but not started,
     * which leaves an object that still calls itself unfinished.
     */
    method Restart(how: Finish, strategy: Options) returns (r: Settled<()>, ghost asks: seq<Ask>)
      requires Valid()
      modifies this, att`durable, att`work, att`log
      ensures Valid() && Others() == old(Others()) && att.log == old(att.log) + asks
      ensures attGeneration != att.generation ==> asks == [] && r == Thrown(Reconnected)
      ensures attGeneration == att.generation ==>
        || asks == (if old(finished) then [] else [Ended(how, false, OK)]) + [Started(strategy, r)]
        || (!old(finished) && r.Thrown? && asks == [Ended(how, false, r)])
      ensures r.Returned? ==>
        && Live() && Pending() == [] && options == strategy
        && generation == old(generation) + 1 && spDepth == 0 && !BlobsAlive(old(generation))
        && att.durable == old(att.durable) + (if how.CommitIt? then old(Pending()) else [])
      ensures r.Thrown? ==>
        finished == old(finished) && generation == old(generation) && currentHandle == old(currentHandle)
      ensures r.Thrown? && (asks == [] || asks[|asks| - 1].Ended?) ==>
        options == old(options) && att.work == old(att.work) && att.durable == old(att.durable)
      ensures r.Thrown? && asks != [] && asks[|asks| - 1].Started? ==>
        && options == strategy && !Live() && (!old(finished) ==> old(Live()) && Active())
        && att.durable == old(att.durable) + (if how.CommitIt? then old(Pending()) else [])
      ensures wasAutoUpgraded == old(wasAutoUpgraded)
    {
      asks := [];
      if att.generation != attGeneration { return Thrown(Reconnected), asks; }
      if !finished {
        r := att.End(currentHandle, how, false);
        asks := [Ended(how, false, r)];
        if r.Thrown? { return; }
        assert r == OK by { assert r.value == (); }
      }
      options := strategy;
      var started := att.Start(options);
      asks := asks + [Started(strategy, Replied(started))];
      assert old(finished) ==> asks == [] + [Started(strategy, Replied(started))];
      if started.Thrown? { return Thrown(started.error), asks; }
      currentHandle := started.value;
      generation, spDepth, finished := generation + 1, 0, false;
      r := OK;
    }

    /** The server refused a write because this transaction is read-only, and upgrading is opted in. */
    predicate ShouldUpgrade(r: Settled<()>) reads this {
      !finished && Upgradable(options) && r == READ_ONLY
    }

    /**
     * Run a statement, upgrading a read-only transaction once. Whatever happens
     * nothing becomes durable, and other transactions keep their work; a failure
     * leaves the work as it was, and a dead transaction never had any. `asks` says
     * how far it came: refused or done at once, stuck in the upgrade, or tried again.
     */
    method Run(s: Statement) returns (r: Settled<()>, ghost asks: seq<Ask>)
      requires Valid()
      modifies this, att`durable, att`work, att`log
      ensures Valid() && Others() == old(Others()) && att.durable == old(att.durable)
      ensures finished == old(finished) && generation >= old(generation) && att.log == old(att.log) + asks
      ensures r.Returned? ==> old(Live()) && Live()
      ensures r.Returned? ==> Pending() == old(Pending()) + (if options.readOnly then [] else [s.text])
      ensures r.Thrown? ==> Pending() == old(Pending()) && (Live() ==> old(Live()))
      ensures !old(Active()) <==> asks == []
      ensures asks == [] ==> r.Thrown? && (r.error == Reconnected || r.error == AlreadyFinished)
      ensures |asks| <= 2 ==>
        && options == old(options) && (r.Thrown? ==> att.work == old(att.work)) && currentHandle == old(currentHandle)
      ensures |asks| == 1 ==> asks == [Sent(s, r)] && !(Upgradable(options) && r == READ_ONLY)
      ensures |asks| == 2 ==>
        r.Thrown? && Upgradable(options) && asks == [Sent(s, READ_ONLY), Ended(CommitIt, false, r)]
      ensures |asks| > 2 ==> Upgradable(old(options)) && options == Writable(old(options)) && old(Live()) && Active()
      ensures |asks| == 3 ==>
        && r.Thrown? && !Live()
        && asks == [Sent(s, READ_ONLY), Ended(CommitIt, false, OK), Started(options, r)]
      ensures |asks| > 3 ==>
        && Live()
        && asks == [Sent(s, READ_ONLY), Ended(CommitIt, false, OK), Started(options, OK), Sent(s, r)]
    {
      asks := [];
      r := AssertActive();
      if r.Thrown? { return; }
      r := att.Execute(currentHandle, s);
      asks := [Sent(s, r)];
      if r.Returned? || !ShouldUpgrade(r) { return; }
      ghost var more;
      r, more := Restart(CommitIt, Writable(options));
      asks := asks + more;
      if r.Thrown? { return; }
      assert r == OK by { assert r.value == (); }
      wasAutoUpgraded := true;
      r := att.Execute(currentHandle, s);
      asks := asks + [Sent(s, r)];
    }
  }

  /** Options travel to a new transaction as they are; a refusal opens none. */
  method StartTransaction(att: Database, options: Options) returns (r: Settled<Transaction>)
    requires att.Valid()
    modifies att`work, att`log
    ensures att.Valid() && att.log == old(att.log) + [Started(options, Replied(r))]
    ensures r.Returned? ==>
      && fresh(r.value) && r.value.att == att && r.value.Valid() && r.value.Live()
      && r.value.Pending() == [] && r.value.options == options && r.value.currentHandle !in old(att.work)
      && r.value.Others() == old(att.work)
    ensures r.Thrown? ==> att.work == old(att.work)
  {
    var h := att.Start(options);
    if h.Thrown? { return Thrown(h.error); }
    var tx := new Transaction(att, h.value, options);
    r := Returned(tx);
  }
}
