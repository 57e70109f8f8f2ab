/**
 * `executeScript` in perScript mode (script/execute.ts): one loop over the
 * parsed statements that keeps the running transaction, the options for later
 * ones, AUTODDL, and whether the running transaction has executed anything.
 */
module ScriptExecutor {
  import opened Results
  import opened ScriptMeaning
  import opened Transactions

  datatype StatementResult = StatementResult(statement: Statement, index: nat, outcome: Settled<()>)

  datatype Summary = Summary(statements: seq<StatementResult>, succeeded: nat, failed: nat)

  predicate Fails(f: Fact) { f.Refused? || f.Rejected? || f.Lost? }

  /** The checkpoint after a DDL statement failed: the whole script fails. */
  predicate Stops(f: Fact) { f.DdlRefused? || f.DdlLost? }

  /** A statement that ends the script: a failure not to be passed over, or a failed checkpoint. */
  predicate EndsScript(f: Fact, continueOnError: bool) { Stops(f) || (Fails(f) && !continueOnError) }

  /** The failure thrown: the statement's own, or that of the checkpoint behind it. */
  predicate Tells(e: Failure, f: Fact, asks: seq<Ask>, outcome: Reply) {
    if Fails(f) then outcome == Thrown(e) else asks != [] && asks[|asks| - 1].reply == Thrown(e)
  }

  /** Every statement was visited, and none ended the script. */
  predicate WentThrough(script: seq<Statement>, facts: seq<Fact>, continueOnError: bool) {
    |facts| == |script| && forall k | 0 <= k < |facts| :: !EndsScript(facts[k], continueOnError)
  }

  /** A statement for the server, before any checkpoint that AUTODDL puts after it. */
  function BareStep(m: Meaning, s: Statement, f: Fact): Meaning {
    Step(m.(autoDdl := false), s, f).(autoDdl := m.autoDdl)
  }

  predicate BareExchange(m: Meaning, s: Statement, f: Fact, asks: seq<Ask>, r: Reply)
    requires s.kind.Server?
  {
    Exchange(m.(autoDdl := false), s, f, asks, r)
  }

  function WithCheckpoint(f: Fact, g: Fact): Fact
    requires f.Done?
  {
    if g.Refused? then DdlRefused(f.upgraded) else if g.Lost? then DdlLost(f.upgraded) else f
  }

  lemma CheckpointAfterDdl(m: Meaning, s: Statement, f: Fact, g: Fact, asks: seq<Ask>, more: seq<Ask>, r: Reply)
    requires s.kind.Server? && s.kind.ddl && m.autoDdl && f.Done? && BareExchange(m, s, f, asks, OK)
    requires Finishing(BareStep(m, s, f), CommitIt, g, more, r) && m.tx == Open
    requires g == Done(false) || g == Lost || g == Refused(false)
    ensures AfterFinish(BareStep(m, s, f), CommitIt, g) == Step(m, s, WithCheckpoint(f, g))
    ensures Exchange(m, s, WithCheckpoint(f, g), asks + more, OK)
    ensures r.Thrown? ==> Tells(r.error, WithCheckpoint(f, g), asks + more, OK)
  {
    assert BareStep(m, s, f) == Ran(m, s, f.upgraded);
    assert asks == Running(m, s, f.upgraded);
    assert (asks + more)[..|asks|] == asks && (asks + more)[|asks|..] == more;
  }

  lemma NoCheckpoint(m: Meaning, s: Statement, f: Fact, asks: seq<Ask>, r: Reply)
    requires s.kind.Server? && !Stops(f) && !(f.Done? && m.autoDdl && s.kind.ddl) && BareExchange(m, s, f, asks, r)
    ensures BareStep(m, s, f) == Step(m, s, f) && Exchange(m, s, f, asks, r)
  {
  }

  /** One result per visited statement, in order, failed exactly where the statement failed. */
  predicate Reports(results: seq<StatementResult>, script: seq<Statement>, facts: seq<Fact>) {
    && |results| == |facts| <= |script|
    && forall i | 0 <= i < |results| ::
         && results[i].statement == script[i] && results[i].index == i
         && (results[i].outcome.Thrown? <==> Fails(facts[i]))
  }

  function Outcomes(results: seq<StatementResult>): (rs: seq<Reply>)
    ensures |rs| == |results|
  {
    seq(|results|, i requires 0 <= i < |results| => results[i].outcome)
  }

  /** One transaction is open besides `others`, and the last thing asked was to roll it back, in vain. */
  predicate RollbackRefused(work: map<int, Work>, others: map<int, Work>, log: seq<Ask>) {
    && log != [] && EndsBy(log[|log| - 1], RollbackIt) && log[|log| - 1].reply.Thrown?
    && exists h :: h in work && work - {h} == others
  }

  lemma NothingVisited(script: seq<Statement>, options: Options, strict: bool)
    ensures After(script, [], options) == Start(options) && Legal(script, [], options, strict)
    ensures Conversation(script, [], options, [], Outcomes([]))
  {
  }

  class ScriptRun {
    const att: Database
    const script: seq<Statement>
    const strict: bool
    const continueOnError: bool
    var tx: Transaction
    var txOptions: Options
    var dirty: bool
    var autoDdl: bool
    var results: seq<StatementResult>
    var succeeded: nat
    var failed: nat
    /** What became of the statements visited so far. */
    ghost var facts: seq<Fact>
    /** What was asked of the server for each of them. */
    ghost var talks: seq<seq<Ask>>
    /** The attachment as the script found it. */
    ghost const options: Options
    ghost const durable: seq<int>
    ghost const others: map<int, Work>
    ghost const generation: nat
    /** What was asked before the first statement. */
    ghost const asked: seq<Ask>

    /** Transactions opened by somebody else; a reconnect ends them too. */
    ghost function Others(): map<int, Work> reads att {
      if att.generation == generation then others else map[]
    }

    /** The attachment, the running transaction and the executor's variables are as `m` says. */
    ghost predicate Shows(m: Meaning) reads `tx, `dirty, `autoDdl, `txOptions, att, tx {
      && tx.att == att && tx.Valid() && generation <= att.generation
      && tx.Others() == Others()
      && att.durable == durable + m.durable
      && dirty == m.dirty && autoDdl == m.autoDdl && txOptions == m.options
      && match m.tx
         case Open => tx.Live() && tx.Pending() == m.pending && tx.options == m.running
         case Finished => tx.finished && m.pending == []
         case Broken => tx.Active() && !tx.Live() && m.pending == [] && tx.options == m.running
    }

    ghost predicate Tallied() reads `results, `succeeded, `failed, `facts, `talks {
      && Reports(results, script, facts) && |talks| == |facts|
      && succeeded + failed == |results|
      && (failed == 0 <==> forall i | 0 <= i < |results| :: results[i].outcome.Returned?)
    }

    ghost predicate Valid() reads this, att, tx {
      && Tallied() && Legal(script, facts, options, strict)
      && Conversation(script, facts, options, talks, Outcomes(results)) && att.log == asked + Flat(talks)
      && Shows(After(script, facts, options))
    }

    constructor (att: Database, script: seq<Statement>, options: Options, strict: bool, continueOnError: bool,
          tx: Transaction)
      requires tx.att == att && tx.Valid() && tx.Live() && tx.Pending() == [] && tx.options == options
      ensures this.att == att && this.script == script && this.options == options && this.tx == tx
      ensures this.strict == strict && this.continueOnError == continueOnError
      ensures durable == att.durable && others == tx.Others() && generation == att.generation && asked == att.log
      ensures facts == [] && talks == [] && Valid()
    {
      this.att, this.script, this.strict, this.continueOnError := att, script, strict, continueOnError;
      this.tx, txOptions, dirty, autoDdl := tx, options, false, false;
      results, succeeded, failed := [], 0, 0;
      facts, talks, this.options, durable, others := [], [], options, att.durable, tx.Others();
      generation, asked := att.generation, att.log;
      new;
      assert durable + [] == durable && asked + [] == asked;
    }

    method EmitOk(index: nat, ghost f: Fact, ghost asks: seq<Ask>)
      requires Tallied() && index == |facts| < |script| && !Fails(f)
      modifies `results, `succeeded, `facts, `talks
      ensures Tallied() && facts == old(facts) + [f] && talks == old(talks) + [asks]
      ensures Outcomes(results) == old(Outcomes(results)) + [OK]
    {
      results := results + [StatementResult(script[index], index, OK)];
      succeeded, facts, talks := succeeded + 1, facts + [f], talks + [asks];
    }

    /** Records the failure; rethrows it unless the script goes on after errors. */
    method EmitError(index: nat, failure: Failure, ghost f: Fact, ghost asks: seq<Ask>) returns (r: Settled<()>)
      requires Tallied() && index == |facts| < |script| && Fails(f)
      modifies `results, `failed, `facts, `talks
      ensures Tallied() && facts == old(facts) + [f] && talks == old(talks) + [asks] && failed > 0
      ensures Outcomes(results) == old(Outcomes(results)) + [Thrown(failure)]
      ensures r == if continueOnError then OK else Thrown(failure)
    {
      results := results + [StatementResult(script[index], index, Thrown(failure))];
      failed, facts, talks := failed + 1, facts + [f], talks + [asks];
      assert results[index].outcome.Thrown?;
      r := if continueOnError then OK else Thrown(failure);
    }

    method Reopen(ghost m: Meaning) returns (r: Settled<()>)
      requires Shows(m) && m.tx.Finished?
      modifies `tx, `dirty, att`work, att`log
      ensures tx == old(tx) || fresh(tx)
      ensures Shows(if r.Returned? then Reopened(m) else m)
      ensures att.log == old(att.log) + [Started(m.options, r)]
    {
      var started := StartTransaction(att, txOptions);
      if started.Thrown? { return Thrown(started.error); }
      tx, dirty := started.value, false;
      r := OK;
    }

    /** Finish the running transaction and open the next one. */
    method Checkpoint(how: Finish, ghost m: Meaning) returns (r: Settled<()>, ghost f: Fact, ghost asks: seq<Ask>)
      requires Shows(m)
      modifies `tx, `dirty, tx, att
      ensures tx == old(tx) || fresh(tx)
      ensures f == Done(false) || f == Lost || f == Refused(false)
      ensures (r.Returned? <==> f.Done?) && (m.tx != Open ==> f.Refused?)
      ensures Shows(AfterFinish(m, how, f))
      ensures att.log == old(att.log) + asks && Finishing(m, how, f, asks, r)
    {
      ghost var active := tx.Active();
      r := tx.Conclude(how);
      asks := if active then [Ended(how, false, r)] else [];
      if r.Thrown? { return r, Refused(false), asks; }
      assert r == OK by { assert r.value == (); }
      ghost var ended := (if how.CommitIt? then Kept(m) else Dropped(m)).(tx := Tx.Finished);
      assert att.durable == durable + ended.durable;
      r := Reopen(ended);
      asks := asks + [Started(m.options, r)];
      f := if r.Returned? then Done(false) else Lost;
      assert r.Returned? ==> r == OK by { assert r.Returned? ==> r.value == (); }
    }

    method CheckpointRetaining(how: Finish, ghost m: Meaning)
      returns (r: Settled<()>, ghost f: Fact, ghost asks: seq<Ask>)
      requires Shows(m)
      modifies `dirty, att
      ensures f == if r.Returned? then Done(false) else Refused(false)
      ensures m.tx != Open ==> f.Refused?
      ensures Shows(if f.Refused? then m else (if how.CommitIt? then Kept(m) else Dropped(m)).(dirty := false))
      ensures att.log == old(att.log) + asks && Retaining(m, how, f, asks, r)
    {
      ghost var active := tx.Active();
      r := tx.Retain(how);
      asks := if active then [Ended(how, true, r)] else [];
      f := if r.Returned? then Done(false) else Refused(false);
      if r.Returned? {
        dirty := false;
        assert r == OK by { assert r.value == (); }
        ghost var kept := if how.CommitIt? then Kept(m) else Dropped(m);
        assert att.durable == durable + kept.durable;
      }
    }

    method SetTransaction(newOptions: Options, ghost m: Meaning)
      returns (r: Settled<()>, ghost f: Fact, ghost asks: seq<Ask>)
      requires Shows(m) && (!m.dirty ==> m.pending == [])
      modifies `tx, `dirty, `txOptions, tx, att
      ensures tx == old(tx) || fresh(tx)
      ensures f == Done(false) || f == Lost || f == Refused(false) || f == Rejected
      ensures f.Rejected? <==> m.dirty
      ensures (r.Returned? <==> f.Done?) && (m.tx != Open ==> f.Refused? || f.Rejected?)
      ensures Shows(if m.dirty then m else AfterFinish(m.(options := newOptions), CommitIt, f))
      ensures att.log == old(att.log) + asks
      ensures if m.dirty then asks == [] && r == Thrown(NotProcessed)
              else Finishing(m.(options := newOptions), CommitIt, f, asks, r)
    {
      asks := [];
      if dirty { return Thrown(NotProcessed), Rejected, asks; }
      txOptions := newOptions;
      r, f, asks := Checkpoint(CommitIt, m.(options := newOptions));
    }

    method ReconnectCommand(ghost m: Meaning) returns (r: Settled<()>, ghost f: Fact, ghost asks: seq<Ask>)
      requires Shows(m)
      modifies `tx, `dirty, tx, att
      ensures tx == old(tx) || fresh(tx)
      ensures f == Done(false) || f == Lost || f == Refused(false)
      ensures (r.Returned? <==> f.Done?) && (m.tx == Broken ==> f.Refused?)
      ensures Shows(AfterFinish(m, CommitIt, f))
      ensures att.log == old(att.log) + asks && Reconnecting(m, f, asks, r)
    {
      ghost var ended := Kept(m).(tx := Tx.Finished);
      asks := [];
      assert m.pending == [] ==> m.durable + m.pending == m.durable;
      if !tx.finished {
        r := tx.Conclude(CommitIt);
        asks := [Ended(CommitIt, false, r)];
        if r.Thrown? { return r, Refused(false), asks; }
        assert r == OK by { assert r.value == (); }
        assert att.durable == durable + ended.durable;
      }
      f := Lost;
      r := att.Reconnect();
      asks := asks + [Attached(r)];
      if r.Thrown? { return; }
      assert r == OK by { assert r.value == (); }
      r := Reopen(ended);
      asks := asks + [Started(m.options, r)];
      f := if r.Returned? then Done(false) else Lost;
      assert r.Returned? ==> r == OK by { assert r.Returned? ==> r.value == (); }
    }

    method SetAutoDdl(on: bool, ghost m: Meaning) returns (r: Settled<()>)
      requires Shows(m)
      modifies `autoDdl
      ensures r == OK && Shows(m.(autoDdl := on))
    {
      autoDdl := on;
      r := OK;
    }

    /** One client command, carried out here and not by the server. */
    method Process(s: Statement, ghost m: Meaning) returns (r: Settled<()>, ghost f: Fact, ghost asks: seq<Ask>)
      requires Shows(m) && (!m.dirty ==> m.pending == []) && !strict
      requires s.kind.Client? && !s.kind.command.Unsupported?
      modifies `tx, `dirty, `txOptions, `autoDdl, tx, att
      ensures tx == old(tx) || fresh(tx)
      ensures (r.Thrown? <==> Fails(f)) && !Stops(f)
      ensures Possible(m, s, f, strict) && Shows(Step(m, s, f))
      ensures att.log == old(att.log) + asks && Exchange(m, s, f, asks, r)
    {
      hide Shows, Transaction.Valid, Finishing, Retaining, Reconnecting;
      match s.kind.command {
        case Commit(retain) =>
          if retain {
            r, f, asks := CheckpointRetaining(CommitIt, m);
          } else {
            r, f, asks := Checkpoint(CommitIt, m);
          }
        case Rollback(retain) =>
          if retain {
            r, f, asks := CheckpointRetaining(RollbackIt, m);
          } else {
            r, f, asks := Checkpoint(RollbackIt, m);
          }
        case SetTransaction(newOptions) => r, f, asks := SetTransaction(newOptions, m);
        case Reconnect => r, f, asks := ReconnectCommand(m);
        case SetAutoDdl(on) =>
          r := SetAutoDdl(on, m);
          f, asks := Done(false), [];
      }
    }

    /** One statement for the server, up to but not including its checkpoint. */
    method RunOne(s: Statement, ghost m: Meaning) returns (r: Settled<()>, ghost f: Fact, ghost asks: seq<Ask>)
      requires Shows(m) && s.kind.Server?
      modifies `dirty, tx, att
      ensures (r.Thrown? <==> Fails(f)) && !Stops(f)
      ensures Possible(m, s, f, strict)
      ensures Shows(BareStep(m, s, f))
      ensures att.log == old(att.log) + asks && BareExchange(m, s, f, asks, r)
    {
      r, asks := tx.Run(s);
      dirty := true;
      f := if r.Returned? then Done(|asks| > 3) else if |asks| == 3 then Lost else Refused(|asks| > 3);
      assert r.Returned? ==> r == OK by { assert r.Returned? ==> r.value == (); }
      assert r.Returned? ==> m.pending + [] == m.pending;
      assert |asks| > 3 ==> asks == Upgrade(m, s) + [Sent(s, r)];
    }

    /** A client command: carried out here or rejected, never sent. */
    method VisitCommand(index: nat, ghost m: Meaning) returns (r: Settled<()>)
      requires Tallied() && index == |facts| < |script| && script[index].kind.Client?
      requires Shows(m) && (!m.dirty ==> m.pending == [])
      modifies this, tx, att
      ensures tx == old(tx) || fresh(tx)
      ensures Grown(index, old(facts), old(talks), old(Outcomes(results)), old(att.log))
      ensures Visited(index, m) && !Stops(facts[index])
      ensures r.Thrown? <==> Fails(facts[index]) && !continueOnError
      ensures r.Thrown? ==> Tells(r.error, facts[index], talks[index], Outcomes(results)[index])
    {
      hide Shows, Transaction.Valid, Outcomes, Exchange, Step;
      var s := script[index];
      ghost var f, asks := Fact.Rejected, [];
      if s.kind.command.Unsupported? || strict {
        r := Thrown(NotProcessed);
        RejectedExchange(m, s);
      } else {
        r, f, asks := Process(s, m);
      }
      if r.Returned? {
        assert r == OK by { assert r.value == (); }
        EmitOk(index, f, asks);
      } else {
        r := EmitError(index, r.error, f, asks);
      }
    }

    lemma RejectedExchange(m: Meaning, s: Statement)
      requires s.kind.Client?
      ensures Step(m, s, Rejected) == m && Exchange(m, s, Rejected, [], Thrown(NotProcessed))
    {
    }

    /** One more statement is on record, with what was asked for it. */
    ghost predicate Grown(index: nat, facts0: seq<Fact>, talks0: seq<seq<Ask>>, replies0: seq<Reply>, log0: seq<Ask>)
      reads this, att
    {
      && Tallied() && |facts| == |talks| == |results| == index + 1
      && facts[..index] == facts0 && talks[..index] == talks0 && Outcomes(results)[..index] == replies0
      && att.log == log0 + talks[index]
    }

    /** What became of statement `index`, which found the script at `m`. */
    ghost predicate Visited(index: nat, m: Meaning)
      requires index < |facts| == |talks| == |results| && index < |script|
      reads this, att, tx
    {
      && Possible(m, script[index], facts[index], strict) && Shows(Step(m, script[index], facts[index]))
      && Exchange(m, script[index], facts[index], talks[index], Outcomes(results)[index])
    }

    /** A statement for the server, with the checkpoint that AUTODDL puts after DDL. */
    method VisitStatement(index: nat, ghost m: Meaning) returns (r: Settled<()>)
      requires Tallied() && index == |facts| < |script| && script[index].kind.Server?
      requires Shows(m) && autoDdl == m.autoDdl
      modifies this, tx, att
      ensures tx == old(tx) || fresh(tx)
      ensures Grown(index, old(facts), old(talks), old(Outcomes(results)), old(att.log))
      ensures Visited(index, m)
      ensures r.Thrown? <==> EndsScript(facts[index], continueOnError)
      ensures r.Thrown? ==> Tells(r.error, facts[index], talks[index], Outcomes(results)[index])
    {
      hide Shows, Transaction.Valid, Step, Tallied, BareStep, AfterFinish, BareExchange, Exchange, Finishing, Outcomes;
      var s := script[index];
      ghost var f, asks;
      r, f, asks := RunOne(s, m);
      var ok := r.Returned?;
      if ok {
        assert r == OK by { assert r.value == (); }
        EmitOk(index, f, asks);
      } else {
        r := EmitError(index, r.error, f, asks);
      }
      TalliedSizes();
      if ok && autoDdl && s.kind.ddl {
        r := CheckpointDdl(index, m, s, f, asks);
      } else {
        NoCheckpoint(m, s, f, asks, if ok then OK else Outcomes(results)[index]);
      }
    }

    /** The checkpoint of a DDL statement that is on record as done. */
    method CheckpointDdl(index: nat, ghost m: Meaning, s: Statement, ghost f: Fact, ghost asks: seq<Ask>)
      returns (r: Settled<()>)
      requires Tallied() && |facts| == |talks| == |results| == index + 1 <= |script| && s == script[index]
      requires facts[index] == f && f.Done? && talks[index] == asks && Outcomes(results)[index] == OK
      requires m.tx == Open && s.kind.Server? && s.kind.ddl && m.autoDdl && Possible(m, s, f, strict)
      requires Shows(BareStep(m, s, f)) && BareExchange(m, s, f, asks, OK)
      modifies `tx, `dirty, `facts, `talks, tx, att
      ensures tx == old(tx) || fresh(tx)
      ensures Tallied() && |facts| == |talks| == |results| == index + 1
      ensures facts[..index] == old(facts[..index]) && talks[..index] == old(talks[..index])
      ensures asks <= talks[index] && att.log == old(att.log) + talks[index][|asks|..]
      ensures Visited(index, m)
      ensures !Fails(facts[index]) && (r.Thrown? <==> Stops(facts[index]))
      ensures r.Thrown? ==> Tells(r.error, facts[index], talks[index], OK)
    {
      hide Shows, Transaction.Valid, Step, Tallied, BareStep, AfterFinish, BareExchange, Exchange, Finishing, Outcomes;
      ghost var g, more;
      r, g, more := Checkpoint(CommitIt, BareStep(m, s, f));
      CheckpointAfterDdl(m, s, f, g, asks, more, r);
      Amend(WithCheckpoint(f, g), asks + more);
      TalliedSizes();
    }

    lemma TalliedSizes()
      requires Tallied()
      ensures |facts| == |talks| == |results| <= |script|
    {
    }

    ghost method Amend(f: Fact, asks: seq<Ask>)
      requires Tallied() && |facts| > 0 && !Fails(f) && !Fails(facts[|facts| - 1])
      modifies `facts, `talks
      ensures Tallied() && facts == old(facts)[..|old(facts)| - 1] + [f]
      ensures talks == old(talks)[..|old(facts)| - 1] + [asks]
    {
      facts, talks := facts[..|facts| - 1] + [f], talks[..|facts| - 1] + [asks];
    }

    method Visit(index: nat) returns (r: Settled<()>)
      requires Valid() && index == |facts| < |script|
      modifies this, tx, att
      ensures tx == old(tx) || fresh(tx)
      ensures Valid() && |facts| == |talks| == |results| == index + 1 && old(facts) < facts
      ensures r.Thrown? <==> EndsScript(facts[index], continueOnError)
      ensures r.Thrown? ==> Tells(r.error, facts[index], talks[index], Outcomes(results)[index])
    {
      hide Shows, Transaction.Valid, Legal, After, Step, Possible, Tallied, Exchange, Conversation, Flat, Outcomes;
      ghost var m := After(script, facts, options);
      CleanHoldsNothing(script, facts, options, strict);
      ShowsAutoDdl(m);
      ghost var (before, said) := (facts, Flat(talks));
      TalliedSizes();
      if script[index].kind.Client? { r := VisitCommand(index, m); } else { r := VisitStatement(index, m); }
      assert facts[..index] == before;
      OneMore(script, facts, options, strict);
      OneMoreExchange(script, facts, options, talks, Outcomes(results));
      assert asked + (said + talks[index]) == (asked + said) + talks[index];
    }

    lemma ShowsAutoDdl(m: Meaning)
      requires Shows(m)
      ensures autoDdl == m.autoDdl
    {
    }

    method VisitAll() returns (r: Settled<()>)
      requires Valid() && facts == []
      modifies this, tx, att
      ensures tx == old(tx) || fresh(tx)
      ensures Valid() && |talks| == |results| == |facts| <= |script|
      ensures if r.Returned? then |facts| == |script| && forall k | 0 <= k < |facts| ::
        !EndsScript(facts[k], continueOnError)
              else facts != [] && EndsScript(facts[|facts| - 1], continueOnError)
      ensures r.Thrown? ==> Tells(r.error, facts[|facts| - 1], talks[|facts| - 1], Outcomes(results)[|facts| - 1])
      ensures forall k | 0 <= k < |facts| - 1 :: !EndsScript(facts[k], continueOnError)
    {
      hide Shows, Tallied, Transaction.Valid, Legal, After, Conversation, Flat, Outcomes;
      r := OK;
      var index := 0;
      TalliedSizes();
      while index < |script|
        invariant tx == old(tx) || fresh(tx)
        invariant Valid() && index == |facts| == |talks| == |results| <= |script| && r.Returned?
        invariant forall k | 0 <= k < index :: !EndsScript(facts[k], continueOnError)
      {
        r := Visit(index);
        if r.Thrown? { return; }
        index := index + 1;
      }
    }

    /** The end of a script that ran through: commit what is still open. */
    method CommitOpen(ghost m: Meaning) returns (r: Settled<()>, ghost asks: seq<Ask>)
      requires Shows(m)
      modifies tx, att
      ensures Shows(if r.Returned? then Kept(m).(tx := Tx.Finished) else m)
      ensures r.Returned? ==> m.tx != Broken
      ensures att.log == old(att.log) + asks
      ensures if m.tx == Finished then asks == [] && r == OK else asks == [Ended(CommitIt, false, r)]
    {
      r, asks := OK, [];
      if !tx.finished {
        r := tx.Conclude(CommitIt);
        asks := [Ended(CommitIt, false, r)];
      }
      if r.Returned? { KeptDurable(m); }
    }

    /** The end of a script that failed: roll back what is still open, refused or not. */
    method RollbackOpen(ghost m: Meaning) returns (ghost asks: seq<Ask>)
      requires Shows(m)
      modifies tx, att
      ensures att.Valid() && tx.att == att && att.durable == durable + m.durable
      ensures att.work == Others() || RollbackRefused(att.work, Others(), att.log)
      ensures att.log == old(att.log) + asks
      ensures if m.tx == Finished then asks == [] else |asks| == 1 && EndsBy(asks[0], RollbackIt)
    {
      assert att.durable + [] == att.durable;
      asks := [];
      if !tx.finished {
        ghost var h := tx.currentHandle;
        var ignored := tx.Conclude(RollbackIt);
        asks := [Ended(RollbackIt, false, ignored)];
        assert att.log[|att.log| - 1] == asks[0];
        assert att.work == Others() || (h in att.work && att.work - {h} == Others());
      }
    }

    lemma KeptDurable(m: Meaning)
      ensures durable + Kept(m).durable == durable + m.durable + m.pending
      ensures m.pending == [] ==> Kept(m).durable == m.durable
    {
    }

    lemma NothingOpen(m: Meaning)
      requires Shows(m) && m.tx.Finished?
      ensures att.Valid() && att.work == Others() && att.durable == durable + m.durable
    {
    }

    /** Commit what is still open; when that is refused or the script failed, roll back. */
    method Close(visited: Settled<()>, ghost m: Meaning) returns (r: Settled<()>, ghost asks: seq<Ask>)
      requires Shows(m)
      modifies tx, att
      ensures att.Valid() && tx.att == att
      ensures att.durable == durable + m.durable + (if r.Returned? then m.pending else [])
      ensures (visited.Thrown? ==> r == visited) && (r.Returned? ==> m.tx != Broken)
      ensures att.work == Others() || (r.Thrown? && RollbackRefused(att.work, Others(), att.log))
      ensures att.log == old(att.log) + asks && Closing(m, visited.Returned?, r.Returned?, asks)
      ensures visited.Returned? && r.Thrown? ==> r == asks[0].reply
    {
      hide Shows, Kept, Transaction.Valid, RollbackRefused, Others, Database.Valid;
      r, asks := visited, [];
      assert durable + m.durable + [] == durable + m.durable;
      if r.Returned? { r, asks := CommitOpen(m); }
      if r.Thrown? {
        ghost var more := RollbackOpen(m);
        asks := asks + more;
      } else {
        assert r == OK by { assert r.value == (); }
        KeptDurable(m);
        NothingOpen(Kept(m).(tx := Tx.Finished));
      }
    }

    lemma FailuresPassedOver()
      requires Tallied() && forall k | 0 <= k < |facts| :: !EndsScript(facts[k], continueOnError)
      ensures failed > 0 ==> continueOnError
    {
      if failed > 0 {
        var i :| 0 <= i < |results| && results[i].outcome.Thrown?;
        assert !EndsScript(facts[i], continueOnError);
      }
    }

    method RunToTheEnd() returns (r: Settled<Summary>, ghost closing: seq<Ask>)
      requires Valid() && facts == []
      modifies this, tx, att
      ensures att.Valid() && Tallied() && Legal(script, facts, options, strict)
      ensures Conversation(script, facts, options, talks, Outcomes(results))
      ensures att.log == asked + Flat(talks) + closing
      ensures var m := After(script, facts, options);
        && att.durable == durable + m.durable + (if r.Returned? then m.pending else [])
        && (r.Returned? ==> m.tx != Broken)
        && Closing(m, WentThrough(script, facts, continueOnError), r.Returned?, closing)
      ensures r.Returned? ==>
        && |facts| == |script| && r.value == Summary(results, succeeded, failed)
        && (failed > 0 ==> continueOnError)
      ensures forall k | 0 <= k < |facts| - 1 :: !EndsScript(facts[k], continueOnError)
      ensures 0 < |facts| < |script| ==> EndsScript(facts[|facts| - 1], continueOnError)
      ensures r.Thrown? && facts != [] && EndsScript(facts[|facts| - 1], continueOnError) ==>
        Tells(r.error, facts[|facts| - 1], talks[|facts| - 1], Outcomes(results)[|facts| - 1])
      ensures att.work == Others() || (r.Thrown? && RollbackRefused(att.work, Others(), att.log))
    {
      hide Shows, Transaction.Valid, Database.Valid, Legal, After, Tallied, RollbackRefused, Others, Conversation,
        Flat, Closing;
      var visited := VisitAll();
      if visited.Returned? { FailuresPassedOver(); }
      var closed;
      closed, closing := Close(visited, After(script, facts, options));
      r := if closed.Returned? then Returned(Summary(results, succeeded, failed)) else Thrown(closed.error);
    }

    /**
     * A script in a transaction of its own. Some legal account of what became of the
     * statements (`facts`) explains everything: what the server was asked, ask by ask
     * (`talks`, statement by statement, and `closing`), and which failure each result
     * shows; what is durable; and that nothing is left open but a transaction whose
     * rollback was refused.
     */
    static method ExecuteScript(att: Database, script: seq<Statement>, options: Options, strict: bool,
          continueOnError: bool)
      returns (r: Settled<Summary>, results: seq<StatementResult>,
        ghost facts: seq<Fact>, ghost talks: seq<seq<Ask>>, ghost closing: seq<Ask>)
      requires att.Valid()
      modifies att
      ensures att.Valid() && Reports(results, script, facts) && Legal(script, facts, options, strict)
      ensures Conversation(script, facts, options, talks, Outcomes(results))
      ensures
        || (r.Thrown? && facts == [] && att.log == old(att.log) + [Started(options, Thrown(r.error))])
        || (&& att.log == old(att.log) + [Started(options, OK)] + Flat(talks) + closing
            && Closing(After(script, facts, options), WentThrough(script, facts, continueOnError), r.Returned?,
              closing))
      ensures var m := After(script, facts, options);
        && att.durable == old(att.durable) + m.durable + (if r.Returned? then m.pending else [])
        && (r.Returned? ==> m.tx != Broken)
      ensures r.Returned? ==>
        && |facts| == |script| && r.value.statements == results && r.value.succeeded + r.value.failed == |results|
        && (r.value.failed > 0 ==> continueOnError)
        && (r.value.failed == 0 <==> forall i | 0 <= i < |results| :: results[i].outcome.Returned?)
      ensures forall k | 0 <= k < |facts| - 1 :: !EndsScript(facts[k], continueOnError)
      ensures 0 < |facts| < |script| ==> EndsScript(facts[|facts| - 1], continueOnError)
      ensures r.Thrown? && facts != [] && EndsScript(facts[|facts| - 1], continueOnError) ==>
        Tells(r.error, facts[|facts| - 1], talks[|facts| - 1], Outcomes(results)[|facts| - 1])
      ensures var others := if att.generation == old(att.generation) then old(att.work) else map[];
        att.work == others || (r.Thrown? && RollbackRefused(att.work, others, att.log))
    {
      hide After, Legal, Conversation, Flat, Closing, ScriptRun.Shows, RollbackRefused, Transaction.Valid, Tells;
      facts, results, talks, closing := [], [], [], [];
      NothingVisited(script, options, strict);
      assert old(att.durable) + [] + [] == old(att.durable);
      var tx := StartTransaction(att, options);
      if tx.Thrown? { return Thrown(tx.error), [], [], [], []; }
      var run := new ScriptRun(att, script, options, strict, continueOnError, tx.value);
      r, closing := run.RunToTheEnd();
      facts, results, talks := run.facts, run.results, run.talks;
    }
  }
}
