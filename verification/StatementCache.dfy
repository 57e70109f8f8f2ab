/**
 * The LRU cache of prepared statements (api/statement-cache.ts) and the lives of
 * statement handles around it (api/session.ts, api/batch.ts).
 */
module StatementCache {
  import opened WireTypes

  datatype StmtType = Select | SelectForUpdate | Insert | Update | Delete | ExecProcedure | Ddl | Other

  /** A prepared statement; `serial` tells the objects of two prepares apart, whatever else they have in common. */
  datatype Info = Info(handle: Handle, stmtType: StmtType, serial: nat)

  datatype Entry = Entry(sql: string, info: Info)

  predicate IsCacheable(t: StmtType) { !t.Ddl? && !t.Other? }

  predicate Batchable(t: StmtType) { t.Insert? || t.Update? || t.Delete? || t.ExecProcedure? }

  function Handles(entries: seq<Entry>): seq<Handle>
  {
    seq(|entries|, i requires 0 <= i < |entries| => entries[i].info.handle)
  }

  /** The position of a key, or the length. */
  function IndexOf(entries: seq<Entry>, sql: string): (i: nat)
    ensures i <= |entries| && (i < |entries| ==> entries[i].sql == sql) && forall k | 0 <= k < i ::
      entries[k].sql != sql
  {
    if entries == [] || entries[0].sql == sql then 0 else 1 + IndexOf(entries[1..], sql)
  }

  function Without(entries: seq<Entry>, i: nat): (r: seq<Entry>)
    requires i < |entries|
    ensures |r| == |entries| - 1
  {
    entries[..i] + entries[i + 1..]
  }

  lemma SplitHandles(a: seq<Entry>, b: seq<Entry>)
    ensures Handles(a + b) == Handles(a) + Handles(b)
  {
  }

  /** The handles that the entries hold. */
  ghost function Ledger(entries: seq<Entry>): multiset<Handle> { multiset(Handles(entries)) }

  lemma LedgerSplit(a: seq<Entry>, b: seq<Entry>)
    ensures Ledger(a + b) == Ledger(a) + Ledger(b)
  {
    SplitHandles(a, b);
  }

  lemma LedgerOne(e: Entry)
    ensures Ledger([e]) == multiset{e.info.handle}
  {
    assert Handles([e]) == [e.info.handle];
  }

  lemma LedgerWithout(entries: seq<Entry>, i: nat)
    requires i < |entries|
    ensures Ledger(entries) == Ledger(Without(entries, i)) + multiset{entries[i].info.handle}
  {
    hide Ledger;
    var (a, e, b) := (entries[..i], [entries[i]], entries[i + 1..]);
    assert entries == a + (e + b);
    LedgerSplit(a, e + b);
    LedgerSplit(e, b);
    LedgerSplit(a, b);
    LedgerOne(entries[i]);
  }

  /** One entry per key, and none that may not be cached. */
  predicate WellKept(entries: seq<Entry>) {
    && (forall i, j | 0 <= i < j < |entries| :: entries[i].sql != entries[j].sql)
    && (forall i | 0 <= i < |entries| :: IsCacheable(entries[i].info.stmtType))
  }

  lemma PlacedWellKept(entries: seq<Entry>, sql: string, info: Info, k: nat)
    requires WellKept(entries) && IsCacheable(info.stmtType) && k <= |Placed(entries, sql, info)|
    ensures WellKept(Placed(entries, sql, info)[k..])
  {
    var i := IndexOf(entries, sql);
    var rest := if i < |entries| then Without(entries, i) else entries;
    if i < |entries| { WithoutWellKept(entries, i); }
    hide IndexOf, Without;
    var placed := rest + [Entry(sql, info)];
    assert WellKept(placed);
    assert forall j | 0 <= j < |placed| - k :: placed[k..][j] == placed[k + j];
  }

  lemma WithoutWellKept(entries: seq<Entry>, i: nat)
    requires WellKept(entries) && i < |entries|
    ensures WellKept(Without(entries, i)) && forall j | 0 <= j < |entries| - 1 ::
      Without(entries, i)[j].sql != entries[i].sql
  {
    assert forall j | 0 <= j < |entries| - 1 :: Without(entries, i)[j] == entries[if j < i then j else j + 1];
  }

  /** What a `Put` makes of the entries before it evicts. */
  function Placed(entries: seq<Entry>, sql: string, info: Info): seq<Entry>
  {
    var i := IndexOf(entries, sql);
    (if i < |entries| then Without(entries, i) else entries) + [Entry(sql, info)]
  }

  /** The handle that a `Put` drops: that of another object under the same key, be it the same handle. */
  function Replaced(entries: seq<Entry>, sql: string, info: Info): seq<Handle>
  {
    var i := IndexOf(entries, sql);
    if i < |entries| && entries[i].info != info then [entries[i].info.handle] else []
  }

  /** What becomes of the entries when a statement has succeeded, and which handles are dropped for it. */
  function Finished(entries: seq<Entry>, sql: string, info: Info, capacity: int): (seq<Entry>, seq<Handle>)
  {
    if info.stmtType.Ddl? then ([], Handles(entries) + [info.handle])
    else if capacity > 0 && IsCacheable(info.stmtType) then
      var placed := Placed(entries, sql, info);
      var over := Max(0, |placed| - capacity);
      (placed[over..], Replaced(entries, sql, info) + Handles(placed[..over]))
    else (entries, [info.handle])
  }

  /** What is left when the entry of a key is taken out, and the handle that is dropped for it. */
  function Removed(entries: seq<Entry>, sql: string): (seq<Entry>, seq<Handle>)
  {
    var i := IndexOf(entries, sql);
    if i < |entries| then (Without(entries, i), [entries[i].info.handle]) else (entries, [])
  }

  /** The very object is cached under the key. */
  predicate Holds(entries: seq<Entry>, sql: string, info: Info) {
    var i := IndexOf(entries, sql); i < |entries| && entries[i].info == info
  }

  /** Placing an entry adds its handle, unless it is there already, and takes out the one it replaces. */
  lemma PlacedLedger(entries: seq<Entry>, sql: string, info: Info)
    ensures Ledger(Placed(entries, sql, info)) + multiset(Replaced(entries, sql, info)) ==
            Ledger(entries) + if Holds(entries, sql, info) then multiset{} else multiset{info.handle}
  {
    hide Ledger;
    var i := IndexOf(entries, sql);
    var rest := if i < |entries| then Without(entries, i) else entries;
    if i < |entries| { LedgerWithout(entries, i); }
    LedgerSplit(rest, [Entry(sql, info)]);
    LedgerOne(Entry(sql, info));
  }

  lemma HeldHandle(entries: seq<Entry>, sql: string, info: Info)
    requires Holds(entries, sql, info)
    ensures info.handle in Handles(entries)
  {
    assert Handles(entries)[IndexOf(entries, sql)] == info.handle;
  }

  lemma FreedParts(f: seq<Handle>, r: seq<Handle>, dropped: seq<Entry>)
    ensures multiset(f + r + Handles(dropped)) == multiset(f) + multiset(r) + Ledger(dropped)
  {
  }

  lemma Balance(a: multiset<Handle>, b: multiset<Handle>, r: multiset<Handle>, w: multiset<Handle>,
        x: multiset<Handle>, f: multiset<Handle>)
    requires (a + b) + r == w + x
    ensures w + f + x == b + (f + r + a)
  {
    assert w + f + x == (w + x) + f;
  }

  class Session {
    /** Insertion order, the least recently used first. */
    var entries: seq<Entry>
    const capacity: int
    /** Handles dropped by deferred op_free_statement, in order. */
    var freed: seq<Handle>
    /** Every handle a prepare has returned. */
    ghost var prepared: multiset<Handle>
    /** How many prepares have succeeded. */
    var serials: nat
    /** Every execution, with how it went. */
    ghost var executed: seq<(Handle, Attempt)>

    ghost predicate Valid() reads `entries, `serials {
      |entries| <= Max(capacity, 0) && WellKept(entries) && Known(entries)
    }

    /** No object comes from a prepare that is still to be. */
    ghost predicate Known(entries: seq<Entry>) reads `serials {
      forall i | 0 <= i < |entries| :: entries[i].info.serial < serials
    }

    /** Each prepared handle is cached, or was dropped, or is one of `held`, and exactly once. */
    ghost predicate Accounted(held: multiset<Handle>) reads `entries, `freed, `prepared {
      prepared == Ledger(entries) + multiset(freed) + held
    }

    constructor (capacity: int)
      ensures Valid() && Accounted(multiset{}) && entries == [] && this.capacity == capacity && freed == []
    {
      this.capacity := capacity;
      entries, freed, prepared, serials := [], [], multiset{}, 0;
    }

    method Free(handle: Handle)
      modifies `freed
      ensures freed == old(freed) + [handle]
    {
      freed := freed + [handle];
    }

    /** A hit becomes the most recently used entry. */
    method Get(sql: string) returns (r: Option<Info>)
      requires Valid()
      modifies `entries
      ensures Valid() && Ledger(entries) == Ledger(old(entries))
      ensures old(Accounted(multiset{})) ==> Accounted(multiset{})
      ensures r.None? <==> forall k | 0 <= k < |old(entries)| :: old(entries)[k].sql != sql
      ensures r.None? ==> entries == old(entries)
      ensures r.Some? ==>
        var i := IndexOf(old(entries), sql);
        i < |old(entries)| && r.value == old(entries)[i].info &&
          entries == Without(old(entries), i) + [Entry(sql, r.value)]
      ensures r.Some? ==> entries != [] && entries[|entries| - 1] == Entry(sql, r.value)
    {
      hide Ledger, Handles;
      var i := IndexOf(entries, sql);
      if i == |entries| { return None; }
      var info := entries[i].info;
      LedgerWithout(entries, i);
      LedgerSplit(Without(entries, i), [Entry(sql, info)]);
      LedgerOne(Entry(sql, info));
      entries := Without(entries, i) + [Entry(sql, info)];
      r := Some(info);
    }

    /**
     * The entry becomes the most recently used one; a different handle it replaces
     * is dropped, and of the entries the oldest, never the new one.
     */
    method Put(sql: string, info: Info)
      requires Valid() && IsCacheable(info.stmtType) && info.serial < serials
      modifies `entries, `freed
      ensures Valid()
      ensures capacity <= 0 ==> entries == old(entries) && freed == old(freed)
      ensures capacity > 0 ==>
        var placed := Placed(old(entries), sql, info);
        var over := Max(0, |placed| - capacity);
        && entries == placed[over..] && entries != [] && entries[|entries| - 1] == Entry(sql, info)
        && freed == old(freed) + Replaced(old(entries), sql, info) + Handles(placed[..over])
    {
      if capacity <= 0 { return; }
      hide Handles, WellKept, Without, IndexOf;
      var i := IndexOf(entries, sql);
      PlacedWellKept(entries, sql, info, Max(0, |Placed(entries, sql, info)| - capacity));
      if i < |entries| {
        if entries[i].info != info { Free(entries[i].info.handle); }
        entries := Without(entries, i);
      }
      entries := entries + [Entry(sql, info)];
      Evict();
    }

    /** Drops the oldest entries until the rest fit. */
    method Evict()
      requires capacity > 0
      modifies `entries, `freed
      ensures var over := Max(0, |old(entries)| - capacity);
        entries == old(entries)[over..] && freed == old(freed) + Handles(old(entries)[..over])
    {
      ghost var all, before, over := entries, freed, 0;
      assert before + Handles(all[..0]) == before;
      while |entries| > capacity
        invariant 0 <= over <= |all| && entries == all[over..] && freed == before + Handles(all[..over])
        invariant over == 0 || |entries| >= capacity
        decreases |entries|
      {
        var oldest := entries[0];
        entries := entries[1..];
        Free(oldest.info.handle);
        assert all[..over + 1] == all[..over] + [oldest];
        SplitHandles(all[..over], [oldest]);
        over := over + 1;
      }
    }

    method Remove(sql: string)
      requires Valid()
      modifies `entries, `freed
      ensures Valid()
      ensures entries == Removed(old(entries), sql).0 && freed == old(freed) + Removed(old(entries), sql).1
      ensures Ledger(entries) + multiset(freed) == Ledger(old(entries)) + multiset(old(freed))
      ensures forall i | 0 <= i < |entries| :: entries[i].sql != sql
    {
      hide Ledger, Handles;
      var i := IndexOf(entries, sql);
      if i < |entries| {
        LedgerWithout(entries, i);
        Free(entries[i].info.handle);
        entries := Without(entries, i);
      }
    }

    method Clear()
      requires Valid()
      modifies `entries, `freed
      ensures Valid() && entries == [] && freed == old(freed) + old(Handles(entries))
    {
      var i := 0;
      assert freed + Handles(entries[..0]) == freed;
      while i < |entries|
        invariant 0 <= i <= |entries| && entries == old(entries) && freed == old(freed) + Handles(entries[..i])
      {
        Free(entries[i].info.handle);
        assert entries[..i + 1] == entries[..i] + [entries[i]];
        SplitHandles(entries[..i], [entries[i]]);
        i := i + 1;
      }
      assert entries[..i] == entries;
      entries := [];
    }

    /** The server's answer to an execution. */
    method Execute(info: Info) returns (attempt: Attempt)
      modifies `executed
      ensures executed == old(executed) + [(info.handle, attempt)]
    {
      attempt := *;
      executed := executed + [(info.handle, attempt)];
    }

    // ---- handle lives ------------------------------------------------------------------------

    /** The server's answer to a prepare: a refusal, or a handle not in use and so maybe one that was dropped. */
    method Prepare(sql: string, ghost held: multiset<Handle>) returns (r: Option<Info>)
      requires Valid() && Accounted(held)
      modifies `prepared, `serials
      ensures Valid() && serials >= old(serials)
      ensures r.None? ==> Accounted(held)
      ensures r.Some? ==> Accounted(held + multiset{r.value.handle}) && r.value.handle !in Handles(entries)
      ensures r.Some? ==> old(serials) == r.value.serial < serials
    {
      var refused: bool := *;
      if refused { return None; }
      var h: Handle, t: StmtType := *, *;
      if h in Handles(entries) { return None; }
      var info := Grant(h, t);
      r := Some(info);
    }

    /** A statement of its own, with whatever free handle the server gives it. */
    method Grant(h: Handle, t: StmtType) returns (info: Info)
      requires Valid() && h !in Handles(entries)
      modifies `prepared, `serials
      ensures Valid() && info == Info(h, t, old(serials)) && serials == old(serials) + 1
      ensures prepared == old(prepared) + multiset{h}
    {
      info := Info(h, t, serials);
      prepared, serials := prepared + multiset{h}, serials + 1;
    }

    /** The handle under `sql` is the cache's own, or a new one that nobody else has. */
    ghost predicate Owns(sql: string, info: Info, cached: bool) reads `entries {
      if cached then Holds(entries, sql, info) else info.handle !in Handles(entries)
    }

    ghost predicate InHand(info: Info, cached: bool) reads `entries, `freed, `prepared {
      Accounted(if cached then multiset{} else multiset{info.handle})
    }

    /** A `Put` keeps every handle accounted for, unless it puts back one that the cache has let go. */
    lemma PutAccounts(was: seq<Entry>, wasFreed: seq<Handle>, sql: string, info: Info, cached: bool)
      requires prepared == Ledger(was) + multiset(wasFreed) + (if cached then multiset{} else multiset{info.handle})
      requires !cached ==> info.handle !in Handles(was)
      requires var placed := Placed(was, sql, info);
        exists over | 0 <= over <= |placed| ::
          && entries == placed[over..]
          && freed == wasFreed + Replaced(was, sql, info) + Handles(placed[..over])
      ensures Accounted(multiset{}) <==> !cached || Holds(was, sql, info)
    {
      hide Ledger, Placed, Replaced, Accounted, Holds;
      var placed := Placed(was, sql, info);
      var over :| 0 <= over <= |placed| && entries == placed[over..] &&
        freed == wasFreed + Replaced(was, sql, info) + Handles(placed[..over]);
      PlacedLedger(was, sql, info);
      LedgerSplit(placed[..over], placed[over..]);
      assert placed == placed[..over] + placed[over..];
      if Holds(was, sql, info) { HeldHandle(was, sql, info); }
      assert info.handle in multiset{info.handle};
      var x := if Holds(was, sql, info) then multiset{} else multiset{info.handle};
      Balance(Ledger(placed[..over]), Ledger(entries), multiset(Replaced(was, sql, info)), Ledger(was), x,
        multiset(wasFreed));
      FreedParts(wasFreed, Replaced(was, sql, info), placed[..over]);
      AccountedIs(multiset{});
      Cancel(Ledger(was) + multiset(wasFreed), x, if cached then multiset{} else multiset{info.handle});
    }

    static lemma Cancel(a: multiset<Handle>, x: multiset<Handle>, y: multiset<Handle>)
      ensures a + x == a + y <==> x == y
    {
      if a + x == a + y {
        forall h ensures x[h] == y[h] { assert (a + x)[h] == (a + y)[h]; }
      }
    }

    static lemma FreedOne(f: seq<Handle>, h: Handle)
      ensures multiset(f + [h]) == multiset(f) + multiset{h}
    {
    }

    lemma AccountedIs(held: multiset<Handle>)
      ensures Accounted(held) <==> prepared == Ledger(entries) + multiset(freed) + held
    {
    }

    /** A statement taken out of the cache is cacheable; a fresh one has a handle nobody else has. */
    ghost predicate Taken(info: Info, cached: bool) reads `entries, `serials {
      && info.serial < serials
      && if cached then capacity > 0 && IsCacheable(info.stmtType) else info.handle !in Handles(entries)
    }

    lemma OwnedIsTaken(sql: string, info: Info, cached: bool)
      requires Valid() && Owns(sql, info, cached) && (cached || info.serial < serials)
      ensures Taken(info, cached)
    {
    }

    /**
     * After success: cache the statement, or drop it; DDL empties the cache first.
     * Each handle stays accounted for, if and only if the cache still holds a
     * statement that was taken from it, and not just one of the same text and handle.
     */
    method FinishStatement(sql: string, info: Info, ghost cached: bool)
      requires Valid() && Taken(info, cached) && InHand(info, cached)
      modifies `entries, `freed
      ensures Valid() && (Accounted(multiset{}) <==> !cached || Holds(old(entries), sql, info))
      ensures var (left, dropped) := Finished(old(entries), sql, info, capacity);
        entries == left && freed == old(freed) + dropped
    {
      hide Ledger, Placed, Replaced, Handles, Holds, WellKept, Known;
      if capacity > 0 && IsCacheable(info.stmtType) {
        PutBack(sql, info, cached);
      } else {
        if info.stmtType.Ddl? {
          ClearAccounts();
          Clear();
        }
        Free(info.handle);
      }
    }

    /** Emptying the cache moves its handles from the one account to the other. */
    lemma ClearAccounts()
      ensures Ledger(entries) == multiset(Handles(entries)) && Ledger([]) == multiset{}
    {
    }

    method PutBack(sql: string, info: Info, ghost cached: bool)
      requires Valid() && Taken(info, cached) && InHand(info, cached) && capacity > 0 && IsCacheable(info.stmtType)
      modifies `entries, `freed
      ensures Valid() && (Accounted(multiset{}) <==> !cached || Holds(old(entries), sql, info))
      ensures var (left, dropped) := Finished(old(entries), sql, info, capacity);
        entries == left && freed == old(freed) + dropped
    {
      hide Ledger, Placed, Replaced, Handles, Holds, WellKept, Known;
      ghost var was, wasFreed := entries, freed;
      Put(sql, info);
      PutAccounts(was, wasFreed, sql, info, cached);
      ghost var placed := Placed(was, sql, info);
      Assoc(wasFreed, Replaced(was, sql, info), Handles(placed[..Max(0, |placed| - capacity)]));
    }

    /** A failed use: nothing of it stays cached, and its handle is dropped once. */
    method Discard(sql: string, info: Info, cached: bool)
      requires Valid() && InHand(info, cached)
      modifies `entries, `freed
      ensures Valid() && Accounted(multiset{})
      ensures forall i | 0 <= i < |entries| :: entries[i].sql != sql
      ensures entries == Removed(old(entries), sql).0
      ensures freed == old(freed) + (Removed(old(entries), sql).1 + if cached then [] else [info.handle])
    {
      hide Ledger, Handles, IndexOf, Without, Holds, WellKept, Known, Removed;
      ghost var (_, dropped) := Removed(entries, sql);
      assert dropped + [] == dropped;
      Assoc(freed, dropped, [info.handle]);
      Remove(sql);
      if !cached {
        FreedOne(freed, info.handle);
        Free(info.handle);
      }
    }

    /**
     * One statement, whatever the server does: it is executed on the cached handle if
     * there is one, and on a fresh one if there is none or the cached one is found
     * stale. On every exit each handle is cached, or was dropped, exactly once.
     */
    method RunStatement(sql: string) returns (ok: bool, ghost tried: seq<(Handle, Attempt)>)
      requires Valid() && Accounted(multiset{})
      modifies this
      ensures Valid() && Accounted(multiset{})
      ensures executed == old(executed) + tried && (ok <==> tried != [] && tried[|tried| - 1].1 == Ok)
      ensures var i := IndexOf(old(entries), sql);
        if i == |old(entries)| then |tried| <= 1
        else
          && 0 < |tried| <= 2 && tried[0].0 == old(entries)[i].info.handle
          && (|tried| == 2 ==> tried[0].1 == Stale)
    {
      hide Ledger, Handles, Without, Holds, Valid, Owns, Taken, Accounted, IndexOf;
      tried := [];
      var hit := Get(sql);
      if hit.Some? {
        CachedNow(sql, hit.value);
        var attempt := RunCached(sql, hit.value);
        tried := [(hit.value.handle, attempt)];
        if !attempt.Stale? { return attempt.Ok?, tried; }
      }
      ghost var more;
      ok, more := PrepareAndRun(sql);
      tried := tried + more;
    }

    /** A statement from the cache: back to it after success, and out of it when found stale. */
    method RunCached(sql: string, info: Info) returns (attempt: Attempt)
      requires Valid() && Accounted(multiset{}) && Owns(sql, info, true)
      modifies `entries, `freed, `executed
      ensures Valid() && Accounted(multiset{}) && executed == old(executed) + [(info.handle, attempt)]
    {
      hide Ledger, Handles, Without, Valid;
      attempt := Execute(info);
      if attempt.Ok? {
        OwnedIsTaken(sql, info, true);
        FinishStatement(sql, info, true);
      } else if attempt.Stale? {
        Remove(sql);
      }
    }

    method PrepareAndRun(sql: string) returns (ok: bool, ghost tried: seq<(Handle, Attempt)>)
      requires Valid() && Accounted(multiset{})
      modifies this
      ensures Valid() && Accounted(multiset{})
      ensures executed == old(executed) + tried && |tried| <= 1 && (ok <==> tried != [] && tried[0].1 == Ok)
    {
      hide Ledger, Handles, IndexOf, Without, Holds, Valid;
      tried := [];
      var info := Prepare(sql, multiset{});
      if info.None? { return false, tried; }
      var attempt := Execute(info.value);
      tried := [(info.value.handle, attempt)];
      ok := attempt.Ok?;
      if ok { FinishStatement(sql, info.value, false); } else { Free(info.value.handle); }
    }

    lemma CachedNow(sql: string, info: Info)
      requires Valid() && entries != [] && entries[|entries| - 1] == Entry(sql, info)
      ensures Owns(sql, info, true)
    {
      var i := IndexOf(entries, sql);
      assert i == |entries| - 1;
    }

    /** A batch: on failure the statement leaves the cache, whether or not it came from there. */
    method ExecuteBatchStatement(sql: string) returns (ok: bool)
      requires Valid() && Accounted(multiset{})
      modifies this
      ensures Valid() && Accounted(multiset{})
    {
      hide Ledger, Handles, Without, Holds, Valid;
      var hit := Get(sql);
      var info := hit;
      if hit.Some? { CachedNow(sql, hit.value); } else { info := Prepare(sql, multiset{}); }
      if info.None? { return false; }
      var attempt := Execute(info.value);
      ok := attempt.Ok? && Batchable(info.value.stmtType);
      OwnedIsTaken(sql, info.value, hit.Some?);
      if ok { FinishStatement(sql, info.value, hit.Some?); } else { Discard(sql, info.value, hit.Some?); }
    }

    /** The first part of a stream: the cached statement, or a fresh one. */
    method BeginStream(sql: string) returns (info: Option<Info>, cached: bool)
      requires Valid() && Accounted(multiset{})
      modifies this
      ensures Valid() && (info.None? ==> !cached && Accounted(multiset{}))
      ensures info.Some? ==>
        Owns(sql, info.value, cached) && Taken(info.value, cached) && InHand(info.value, cached)
    {
      info := Get(sql);
      cached := info.Some?;
      if cached { CachedNow(sql, info.value); } else { info := Prepare(sql, multiset{}); }
      if info.Some? { OwnedIsTaken(sql, info.value, cached); }
    }

    /**
     * The last part, when iteration ends, breaks off or throws; meanwhile the session
     * may have been used for anything that keeps its own handles accounted for. They
     * stay so, if and only if the statement was not taken from the cache, or the
     * stream failed, or the cache still holds that very statement.
     */
    method EndStream(sql: string, info: Info, cached: bool, failed: bool)
      requires Valid() && Taken(info, cached) && InHand(info, cached)
      modifies `entries, `freed
      ensures Valid()
      ensures Accounted(multiset{}) <==> !cached || failed || Holds(old(entries), sql, info)
      ensures failed ==>
        && entries == Removed(old(entries), sql).0
        && freed == old(freed) + (Removed(old(entries), sql).1 + if cached then [] else [info.handle])
      ensures !failed ==>
        var (left, dropped) := Finished(old(entries), sql, info, capacity);
        entries == left && freed == old(freed) + dropped
    {
      if failed { Discard(sql, info, cached); } else { FinishStatement(sql, info, cached); }
    }
  }

  datatype Attempt = Ok | Stale | Failed

  /** At capacity one a new statement takes the place of the old, whose handle is dropped. */
  method Displace(s: Session, sql: string, info: Info, other: string, otherInfo: Info)
    requires s.Valid() && s.capacity == 1 && s.entries == [Entry(sql, info)] && sql != other
    requires IsCacheable(otherInfo.stmtType) && otherInfo.serial < s.serials && s.Accounted(multiset{otherInfo.handle})
    requires info.handle != otherInfo.handle
    modifies s`entries, s`freed
    ensures s.Valid() && s.Accounted(multiset{}) && s.entries == [Entry(other, otherInfo)]
    ensures s.freed == old(s.freed) + [info.handle]
  {
    assert IndexOf(s.entries, other) == 1 && Handles(s.entries) == [info.handle];
    ghost var was, wasFreed := s.entries, s.freed;
    s.Put(other, otherInfo);
    s.PutAccounts(was, wasFreed, other, otherInfo, false);
    assert Placed(was, other, otherInfo)[..1] == was && wasFreed + [] == wasFreed;
  }

  /**
   * How a stream's statement gets out of the cache under it: one other statement is
   * enough at capacity one. The stream then puts a handle back that was dropped.
   */
  method EvictedMidStream(s: Session, sql: string, info: Info, other: string, otherInfo: Info)
    requires s.Valid() && s.capacity == 1 && s.entries == [Entry(sql, info)] && sql != other
    requires IsCacheable(otherInfo.stmtType) && otherInfo.serial < s.serials && s.Accounted(multiset{otherInfo.handle})
    requires info.handle != otherInfo.handle
    modifies s`entries, s`freed
    ensures s.entries == [Entry(sql, info)] && info.handle in s.freed && !s.Accounted(multiset{})
  {
    assert IsCacheable(s.entries[0].info.stmtType) && s.entries[0].info.serial < s.serials;
    Displace(s, sql, info, other, otherInfo);
    Surrendered(s, sql, info);
  }

  /**
   * The same with the statement prepared anew meanwhile: the server gives the dropped
   * handle out again, so text, type and handle are those of the stream's statement,
   * but the object is not. At its end the stream drops the handle a second time, and
   * caches what it dropped.
   */
  method ReissuedMidStream(s: Session, sql: string, info: Info, other: string, otherInfo: Info)
    requires s.Valid() && s.capacity == 1 && s.entries == [Entry(sql, info)] && sql != other
    requires IsCacheable(otherInfo.stmtType) && otherInfo.serial < s.serials && s.Accounted(multiset{otherInfo.handle})
    requires info.handle != otherInfo.handle
    modifies s
    ensures s.entries == [Entry(sql, info)] && !s.Accounted(multiset{})
    ensures s.freed == old(s.freed) + [info.handle, otherInfo.handle, info.handle]
  {
    assert IsCacheable(s.entries[0].info.stmtType) && s.entries[0].info.serial < s.serials;
    Displace(s, sql, info, other, otherInfo);
    assert Handles(s.entries) == [otherInfo.handle];
    var again := s.Grant(info.handle, info.stmtType);
    Displace(s, other, otherInfo, sql, again);
    Surrendered(s, sql, info);
  }

  /** The end of a stream whose statement is another object than the one cached. */
  method Surrendered(s: Session, sql: string, info: Info)
    requires s.Valid() && s.capacity == 1 && |s.entries| == 1 && s.entries[0] != Entry(sql, info)
    requires IsCacheable(info.stmtType) && info.serial < s.serials && s.Accounted(multiset{})
    modifies s`entries, s`freed
    ensures s.entries == [Entry(sql, info)] && !s.Accounted(multiset{})
    ensures s.freed == old(s.freed) + [old(s.entries[0].info.handle)]
  {
    hide Finished, Holds, Ledger, WellKept, Handles, IndexOf;
    FinishedAlone(s.entries[0], sql, info);
    assert s.entries == [s.entries[0]];
    s.EndStream(sql, info, true, false);
  }

  lemma FinishedAlone(e: Entry, sql: string, info: Info)
    requires e != Entry(sql, info) && IsCacheable(info.stmtType)
    ensures Finished([e], sql, info, 1) == ([Entry(sql, info)], [e.info.handle]) && !Holds([e], sql, info)
  {
    var (own, h) := (Entry(sql, info), e.info.handle);
    assert Handles([e]) == [h] && Handles([]) == [];
    if e.sql == sql {
      assert IndexOf([e], sql) == 0 && Without([e], 0) == [];
      assert Placed([e], sql, info) == [own] && [own][0..] == [own] && [own][..0] == [];
      assert Replaced([e], sql, info) + Handles([]) == [h];
    } else {
      assert IndexOf([e], sql) == 1;
      assert Placed([e], sql, info) == [e, own] && [e, own][1..] == [own] && [e, own][..1] == [e];
      assert Replaced([e], sql, info) + Handles([e]) == [h];
    }
  }
}
