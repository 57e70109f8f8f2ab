/**
 * What a script means (script/execute.ts, perScript mode): which effects are
 * durable after each statement, given what the server answered.
 */
module ScriptMeaning {
  import opened Results

  /** How transactions are opened; opaque but for the read-only strategy. */
  datatype Options = Options(readOnly: bool, autoUpgrade: bool, strategy: int)

  datatype Command =
    | Reconnect
    | Commit(retain: bool)
    | Rollback(retain: bool)
    | SetTransaction(options: Options)
    | SetAutoDdl(on: bool)
    | Unsupported

  datatype Kind = Server(ddl: bool) | Client(command: Command)

  /** A parsed statement; `text` stands for its SQL and for the effect it has. */
  datatype Statement = Statement(text: int, kind: Kind)

  datatype Failure =
    | ServerSaid(gdsCode: int)
    | BadHandle           // the server does not know the transaction
    | ConnectionClosed
    | Reconnected         // the transaction belongs to an earlier connection
    | AlreadyFinished
    | NotProcessed        // a client command the executor does not carry out

  type Reply = Result<(), Failure>

  const OK: Reply := Returned(())

  /** isc_read_only_trans: a write was refused because its transaction is read-only. */
  const READ_ONLY_TRANS := 335544361

  const READ_ONLY: Reply := Thrown(ServerSaid(READ_ONLY_TRANS))

  datatype Finish = CommitIt | RollbackIt

  /** What the driver asks of the server, with the reply. */
  datatype Ask =
    | Started(options: Options, reply: Reply)
    | Ended(how: Finish, retain: bool, reply: Reply)
    | Sent(statement: Statement, reply: Reply)
    | Attached(reply: Reply)

  /** What became of one visited statement; `upgraded` if the running transaction was made writable for it. */
  datatype Fact =
    | Done(upgraded: bool)        // it succeeded
    | Refused(upgraded: bool)     // it failed, and no work changed
    | Rejected                    // a client command the executor would not carry out
    | Lost                        // the running transaction is over, and no new one could be opened
    | DdlRefused(upgraded: bool)  // it succeeded, but its AutoDDL checkpoint was refused
    | DdlLost(upgraded: bool)     // it and its checkpoint succeeded, but no new transaction could be opened

  predicate Upgraded(f: Fact) { !f.Rejected? && !f.Lost? && f.upgraded }

  predicate Succeeded(f: Fact) { f.Done? || f.DdlRefused? || f.DdlLost? }

  /** Open: work can be done. Finished: committed or rolled back. Broken: gone on the server only. */
  datatype Tx = Open | Finished | Broken

  /** `options` are for transactions to come, `running` those of the running one. */
  datatype Meaning = Meaning(
    durable: seq<int>, pending: seq<int>, tx: Tx, dirty: bool, autoDdl: bool, options: Options, running: Options)

  function Start(options: Options): Meaning { Meaning([], [], Open, false, false, options, options) }

  function Kept(m: Meaning): Meaning { m.(durable := m.durable + m.pending, pending := []) }

  function Dropped(m: Meaning): Meaning { m.(pending := []) }

  function Reopened(m: Meaning): Meaning { m.(tx := Open, dirty := false, running := m.options) }

  function Writable(options: Options): Options { options.(readOnly := false) }

  /** The statement has been run in the running transaction, which may have been upgraded for it. */
  function Ran(m: Meaning, s: Statement, upgraded: bool): Meaning
  {
    var running := if upgraded then Writable(m.running) else m.running;
    m.(running := running, dirty := true, pending := m.pending + if running.readOnly then [] else [s.text])
  }

  /** What finishing the running transaction for good, and opening the next one, comes to. */
  function AfterFinish(m: Meaning, how: Finish, f: Fact): Meaning
  {
    var ended := if how.CommitIt? then Kept(m) else Dropped(m);
    if f.Done? then Reopened(ended) else if f.Lost? then ended.(tx := Finished) else m
  }

  /** The AutoDDL checkpoint, by what became of the statement in front of it. */
  function CheckpointOf(f: Fact): Fact
    requires Succeeded(f)
  {
    if f.Done? then Done(false) else if f.DdlLost? then Lost else Refused(false)
  }

  /** One statement, in the light of what became of it. */
  function Step(m: Meaning, s: Statement, f: Fact): Meaning
  {
    match s.kind
    case Server(ddl) =>
      if Succeeded(f) then
        var ran := Ran(m, s, f.upgraded);
        if m.autoDdl && ddl then AfterFinish(ran, CommitIt, CheckpointOf(f)) else ran
      else if f.Refused? then m.(dirty := true, running := if f.upgraded then Writable(m.running) else m.running)
      else if f.Lost? then m.(dirty := true, tx := Broken, running := Writable(m.running))
      else m
    case Client(c) =>
      match c
      case Commit(retain) =>
        if retain then (if f.Done? then Kept(m).(dirty := false) else m) else AfterFinish(m, CommitIt, f)
      case Rollback(retain) =>
        if retain then (if f.Done? then Dropped(m).(dirty := false) else m) else AfterFinish(m, RollbackIt, f)
      case SetTransaction(options) =>
        if f.Rejected? then m else AfterFinish(m.(options := options), CommitIt, f)
      case Reconnect => AfterFinish(m, CommitIt, f)
      case SetAutoDdl(on) => if f.Done? then m.(autoDdl := on) else m
      case Unsupported => m
  }

  predicate Upgradable(options: Options) { options.readOnly && options.autoUpgrade }

  /** What the executor lets happen: `strict` is clientCommands: 'error'. */
  predicate Possible(m: Meaning, s: Statement, f: Fact, strict: bool) {
    match s.kind
    case Server(ddl) =>
      && !f.Rejected?
      && (m.tx != Open ==> f == Refused(false))
      && (Upgraded(f) || f.Lost? ==> Upgradable(m.running))
      && (f.DdlRefused? || f.DdlLost? ==> m.autoDdl && ddl)
    case Client(c) =>
      && !f.DdlRefused? && !f.DdlLost? && !Upgraded(f)
      && (f.Rejected? <==> strict || c.Unsupported? || (c.SetTransaction? && m.dirty))
      && match c
         case Commit(retain) => (m.tx != Open ==> f.Refused? || f.Rejected?) && (retain ==> !f.Lost?)
         case Rollback(retain) => (m.tx != Open ==> f.Refused? || f.Rejected?) && (retain ==> !f.Lost?)
         case SetTransaction(_) => m.tx != Open ==> f.Refused? || f.Rejected?
         case Reconnect => m.tx == Broken ==> f.Refused? || f.Rejected?
         case SetAutoDdl(_) => f.Done? || f.Rejected?
         case Unsupported => true
  }

  // ---- what is asked of the server ----------------------------------------------------

  /** The running transaction, read-only and empty, is committed and a writable one opened in its place. */
  function Upgrade(m: Meaning, s: Statement): seq<Ask>
  {
    [Sent(s, READ_ONLY), Ended(CommitIt, false, OK), Started(Writable(m.running), OK)]
  }

  /** A statement that ran: sent once, or a second time after the one upgrade. */
  function Running(m: Meaning, s: Statement, upgraded: bool): seq<Ask>
  {
    (if upgraded then Upgrade(m, s) else []) + [Sent(s, OK)]
  }

  /** A statement that failed, with the failure the caller is told. */
  predicate Failing(m: Meaning, s: Statement, f: Fact, asks: seq<Ask>, e: Failure) {
    if m.tx == Finished then asks == [] && (e == AlreadyFinished || e == Reconnected)
    else if f == Refused(false) then
      || (asks == [Sent(s, Thrown(e))] && !(Upgradable(m.running) && Thrown(e) == READ_ONLY))
      || (asks == [Sent(s, READ_ONLY), Ended(CommitIt, false, Thrown(e))] && Upgradable(m.running))
    else if f == Refused(true) then asks == Upgrade(m, s) + [Sent(s, Thrown(e))]
    else f.Lost? && asks == [Sent(s, READ_ONLY), Ended(CommitIt, false, OK), Started(Writable(m.running), Thrown(e))]
  }

  /** Finishing the running transaction for good and opening the next. */
  predicate Finishing(m: Meaning, how: Finish, f: Fact, asks: seq<Ask>, r: Reply) {
    if f.Done? then asks == [Ended(how, false, OK), Started(m.options, OK)] && r == OK
    else if f.Lost? then asks == [Ended(how, false, OK), Started(m.options, r)] && r.Thrown?
    else r.Thrown? && Unfinished(m, how, false, asks, r.error)
  }

  /** The finish was refused; a transaction that is finished already is not asked about. */
  predicate Unfinished(m: Meaning, how: Finish, retain: bool, asks: seq<Ask>, e: Failure) {
    if m.tx == Finished then asks == [] && (e == AlreadyFinished || e == Reconnected)
    else asks == [Ended(how, retain, Thrown(e))]
  }

  predicate Retaining(m: Meaning, how: Finish, f: Fact, asks: seq<Ask>, r: Reply) {
    if f.Done? then asks == [Ended(how, true, OK)] && r == OK
    else r.Thrown? && Unfinished(m, how, true, asks, r.error)
  }

  predicate Reconnecting(m: Meaning, f: Fact, asks: seq<Ask>, r: Reply) {
    var ended := if m.tx == Finished then [] else [Ended(CommitIt, false, OK)];
    if f.Done? then asks == ended + [Attached(OK), Started(m.options, OK)] && r == OK
    else if f.Lost? then r.Thrown? &&
      (asks == ended + [Attached(r)] || asks == ended + [Attached(OK), Started(m.options, r)])
    else asks == [Ended(CommitIt, false, r)] && r.Thrown?
  }

  /** What was asked for one statement, and the outcome its result shows. */
  predicate Exchange(m: Meaning, s: Statement, f: Fact, asks: seq<Ask>, r: Reply) {
    match s.kind
    case Server(ddl) =>
      if Succeeded(f) then
        var n := |Running(m, s, f.upgraded)|;
        && r == OK && n <= |asks| && asks[..n] == Running(m, s, f.upgraded)
        && if m.autoDdl && ddl then Checkpointing(Ran(m, s, f.upgraded), CheckpointOf(f), asks[n..]) else |asks| == n
      else r.Thrown? && Failing(m, s, f, asks, r.error)
    case Client(c) =>
      if f.Rejected? then asks == [] && r == Thrown(NotProcessed)
      else
        match c
        case Commit(retain) =>
          if retain then Retaining(m, CommitIt, f, asks, r) else Finishing(m, CommitIt, f, asks, r)
        case Rollback(retain) =>
          if retain then Retaining(m, RollbackIt, f, asks, r) else Finishing(m, RollbackIt, f, asks, r)
        case SetTransaction(options) => Finishing(m.(options := options), CommitIt, f, asks, r)
        case Reconnect => Reconnecting(m, f, asks, r)
        case SetAutoDdl(_) => asks == [] && r == OK
        case Unsupported => true
  }

  /** The checkpoint's own reply is the script's failure, not the statement's. */
  predicate Checkpointing(m: Meaning, f: Fact, asks: seq<Ask>) {
    |asks| > 0 && !asks[|asks| - 1].Sent? && Finishing(m, CommitIt, f, asks, asks[|asks| - 1].reply)
  }

  /** What was asked, statement by statement, and the outcomes shown. */
  predicate Conversation(script: seq<Statement>, facts: seq<Fact>, options: Options, talks: seq<seq<Ask>>,
        replies: seq<Reply>)
  {
    && |talks| == |replies| == |facts| <= |script|
    && forall k | 0 <= k < |facts| ::
      Exchange(After(script, facts[..k], options), script[k], facts[k], talks[k], replies[k])
  }

  /** The end of a script: a commit if all went through, a rollback if anything failed, that commit included. */
  predicate Closing(m: Meaning, through: bool, r: bool, asks: seq<Ask>) {
    if m.tx == Finished then asks == [] && r == through
    else if !through then |asks| == 1 && EndsBy(asks[0], RollbackIt) && !r
    else if r then asks == [Ended(CommitIt, false, OK)]
    else |asks| == 2 && EndsBy(asks[0], CommitIt) && asks[0].reply.Thrown? && EndsBy(asks[1], RollbackIt)
  }

  predicate EndsBy(a: Ask, how: Finish) { a.Ended? && a.how == how && !a.retain }

  function Flat(talks: seq<seq<Ask>>): seq<Ask>
  {
    if talks == [] then [] else Flat(talks[..|talks| - 1]) + talks[|talks| - 1]
  }

  /** One more exchange, at the end. */
  lemma OneMoreExchange(script: seq<Statement>, facts: seq<Fact>, options: Options, talks: seq<seq<Ask>>,
        replies: seq<Reply>)
    requires 0 < |facts| <= |script| && |talks| == |replies| == |facts|
    ensures var n := |facts| - 1;
      && Flat(talks) == Flat(talks[..n]) + talks[n]
      && (Conversation(script, facts, options, talks, replies) <==>
          && Conversation(script, facts[..n], options, talks[..n], replies[..n])
          && Exchange(After(script, facts[..n], options), script[n], facts[n], talks[n], replies[n]))
  {
    hide Exchange, After;
    var n := |facts| - 1;
    assert forall k | 0 <= k < n :: facts[..n][..k] == facts[..k];
    if Conversation(script, facts[..n], options, talks[..n], replies[..n])
       && Exchange(After(script, facts[..n], options), script[n], facts[n], talks[n], replies[n]) {
      forall k | 0 <= k < |facts|
        ensures Exchange(After(script, facts[..k], options), script[k], facts[k], talks[k], replies[k])
      {
        if k < n { assert facts[..n][k] == facts[k] && talks[..n][k] == talks[k] && replies[..n][k] == replies[k]; }
      }
    }
  }

  /** No client command is ever sent to the server, whatever the script and the server do. */
  lemma {:induction false} ClientCommandsStayHere(script: seq<Statement>, facts: seq<Fact>, options: Options,
      talks: seq<seq<Ask>>, replies: seq<Reply>, strict: bool)
    requires Conversation(script, facts, options, talks, replies) && Legal(script, facts, options, strict)
    ensures forall a | a in Flat(talks) && a.Sent? :: a.statement.kind.Server?
  {
    if facts != [] {
      var n := |facts| - 1;
      OneMore(script, facts, options, strict);
      OneMoreExchange(script, facts, options, talks, replies);
      ClientCommandsStayHere(script, facts[..n], options, talks[..n], replies[..n], strict);
      ExchangeStaysHere(After(script, facts[..n], options), script[n], facts[n], talks[n], replies[n], strict);
    }
  }

  lemma ExchangeStaysHere(m: Meaning, s: Statement, f: Fact, asks: seq<Ask>, r: Reply, strict: bool)
    requires Exchange(m, s, f, asks, r) && Possible(m, s, f, strict)
    ensures forall a | a in asks && a.Sent? :: a.statement == s && s.kind.Server?
  {
  }

  function After(script: seq<Statement>, facts: seq<Fact>, options: Options): Meaning
    requires |facts| <= |script|
  {
    if facts == [] then Start(options)
    else
      var n := |facts| - 1;
      Step(After(script, facts[..n], options), script[n], facts[n])
  }

  predicate Legal(script: seq<Statement>, facts: seq<Fact>, options: Options, strict: bool)
    requires |facts| <= |script|
  {
    facts == [] ||
    var n := |facts| - 1;
    && Legal(script, facts[..n], options, strict)
    && Possible(After(script, facts[..n], options), script[n], facts[n], strict)
  }

  /** A transaction without executed statements holds no work, and only an open one holds any. */
  lemma {:induction false} CleanHoldsNothing(script: seq<Statement>, facts: seq<Fact>, options: Options, strict: bool)
    requires |facts| <= |script| && Legal(script, facts, options, strict)
    ensures Clean(After(script, facts, options))
  {
    hide After, Legal, Possible, Step;
    if facts == [] {
      NothingYet(script, options);
    } else {
      var n := |facts| - 1;
      OneMore(script, facts, options, strict);
      CleanHoldsNothing(script, facts[..n], options, strict);
      StaysClean(After(script, facts[..n], options), script[n], facts[n], strict);
    }
  }

  predicate Clean(m: Meaning) {
    (!m.dirty ==> m.pending == []) && (m.tx != Open ==> m.pending == []) && (m.running.readOnly ==> m.pending == [])
  }

  lemma NothingYet(script: seq<Statement>, options: Options)
    ensures After(script, [], options) == Start(options)
  {
  }

  lemma StaysClean(m: Meaning, s: Statement, f: Fact, strict: bool)
    requires Clean(m) && Possible(m, s, f, strict)
    ensures Clean(Step(m, s, f))
  {
  }

  // ---- the fate of one statement's effect -----------------------------------------

  /** What a statement's fact does to the work that was pending before it. */
  datatype Verdict = Keeps | Drops | Passes

  function Judge(s: Statement, f: Fact, autoDdl: bool): Verdict
  {
    match s.kind
    case Server(ddl) => if f.DdlLost? || (f.Done? && autoDdl && ddl) then Keeps else Passes
    case Client(c) =>
      if !(f.Done? || f.Lost?) then Passes
      else if c.Commit? || c.Reconnect? then Keeps
      else if c.Rollback? then Drops
      else Passes
  }

  /** AUTODDL as the last effective SET AUTODDL before statement `k` left it. */
  function AutoDdlAt(script: seq<Statement>, facts: seq<Fact>, k: nat): bool
    requires k <= |facts| <= |script|
  {
    if k == 0 then false
    else
      var s := script[k - 1];
      if s.kind.Client? && s.kind.command.SetAutoDdl? && facts[k - 1].Done? then s.kind.command.on
      else AutoDdlAt(script, facts, k - 1)
  }

  /** The first verdict from statement `k` on, among the first `n`: the fate of what was pending there. */
  function Fate(script: seq<Statement>, facts: seq<Fact>, k: nat, n: nat): Verdict
    requires k <= n <= |facts| <= |script|
  {
    if n == k then Passes
    else
      var earlier := Fate(script, facts, k, n - 1);
      if earlier != Passes then earlier else Judge(script[n - 1], facts[n - 1], AutoDdlAt(script, facts, n - 1))
  }

  /** The running transaction is finished for good and another one opened. */
  predicate Reopens(s: Statement, f: Fact, autoDdl: bool) {
    f.Done? &&
    match s.kind
    case Server(ddl) => autoDdl && ddl
    case Client(c) => c.SetTransaction? || c.Reconnect? || ((c.Commit? || c.Rollback?) && !c.retain)
  }

  /** The options for transactions opened from statement `k` on: those of the last SET TRANSACTION not rejected. */
  function OptionsAt(script: seq<Statement>, facts: seq<Fact>, options: Options, k: nat): Options
    requires k <= |facts| <= |script|
  {
    if k == 0 then options
    else
      var s := script[k - 1];
      if s.kind.Client? && s.kind.command.SetTransaction? && !facts[k - 1].Rejected? then s.kind.command.options
      else OptionsAt(script, facts, options, k - 1)
  }

  /** Whether the transaction that statement `k` finds is read-only: it was opened so, and not upgraded since. */
  function ReadOnlyAt(script: seq<Statement>, facts: seq<Fact>, options: Options, k: nat): bool
    requires k <= |facts| <= |script|
  {
    if k == 0 then options.readOnly
    else if Reopens(script[k - 1], facts[k - 1], AutoDdlAt(script, facts, k - 1)) then
      OptionsAt(script, facts, options, k).readOnly
    else if script[k - 1].kind.Server? && (Upgraded(facts[k - 1]) || facts[k - 1].Lost?) then false
    else ReadOnlyAt(script, facts, options, k - 1)
  }

  /** Statement `k` left work behind: it succeeded, in a transaction that it may write in. */
  predicate Wrote(script: seq<Statement>, facts: seq<Fact>, options: Options, k: nat)
    requires k < |facts| <= |script|
  {
    && script[k].kind.Server? && Succeeded(facts[k])
    && (facts[k].upgraded || !ReadOnlyAt(script, facts, options, k))
  }

  /** The effects, in order, of the first `k` statements whose work has met fate `v` after `n`. */
  function Effects(script: seq<Statement>, facts: seq<Fact>, options: Options, k: nat, n: nat, v: Verdict): seq<int>
    requires k <= n <= |facts| <= |script|
  {
    if k == 0 then []
    else if Wrote(script, facts, options, k - 1) && Fate(script, facts, k - 1, n) == v then
      Effects(script, facts, options, k - 1, n, v) + [script[k - 1].text]
    else Effects(script, facts, options, k - 1, n, v)
  }

  lemma {:induction false} AutoDdlPrefix(script: seq<Statement>, facts: seq<Fact>, k: nat)
    requires k < |facts| <= |script|
    ensures AutoDdlAt(script, facts[..|facts| - 1], k) == AutoDdlAt(script, facts, k)
  {
    if k > 0 { AutoDdlPrefix(script, facts, k - 1); }
  }

  lemma {:induction false} OptionsPrefix(script: seq<Statement>, facts: seq<Fact>, options: Options, k: nat)
    requires k < |facts| <= |script|
    ensures OptionsAt(script, facts[..|facts| - 1], options, k) == OptionsAt(script, facts, options, k)
    ensures ReadOnlyAt(script, facts[..|facts| - 1], options, k) == ReadOnlyAt(script, facts, options, k)
  {
    if k > 0 {
      OptionsPrefix(script, facts, options, k - 1);
      AutoDdlPrefix(script, facts, k - 1);
    }
  }

  lemma {:induction false} FatePrefix(script: seq<Statement>, facts: seq<Fact>, k: nat, n: nat)
    requires k <= n < |facts| <= |script|
    ensures Fate(script, facts[..|facts| - 1], k, n) == Fate(script, facts, k, n)
  {
    if k < n {
      FatePrefix(script, facts, k, n - 1);
      AutoDdlPrefix(script, facts, n - 1);
    }
  }

  /** The executor's variables are what the script so far has set them to. */
  lemma {:induction false} VariablesAre(script: seq<Statement>, facts: seq<Fact>, options: Options, strict: bool)
    requires |facts| <= |script| && Legal(script, facts, options, strict)
    ensures var m := After(script, facts, options);
      && m.autoDdl == AutoDdlAt(script, facts, |facts|)
      && m.options == OptionsAt(script, facts, options, |facts|)
      && m.running.readOnly == ReadOnlyAt(script, facts, options, |facts|)
  {
    hide After, Legal, Possible, Step;
    if facts == [] {
      NothingYet(script, options);
    } else {
      var n := |facts| - 1;
      OneMore(script, facts, options, strict);
      VariablesAre(script, facts[..n], options, strict);
      AutoDdlPrefix(script, facts, n);
      OptionsPrefix(script, facts, options, n);
      StepVariables(After(script, facts[..n], options), script[n], facts[n], strict);
    }
  }

  lemma StepVariables(m: Meaning, s: Statement, f: Fact, strict: bool)
    requires Possible(m, s, f, strict)
    ensures var m' := Step(m, s, f);
      && m'.autoDdl == (if s.kind.Client? && s.kind.command.SetAutoDdl? && f.Done? then s.kind.command.on
        else m.autoDdl)
      && m'.options ==
        (if s.kind.Client? && s.kind.command.SetTransaction? && !f.Rejected? then s.kind.command.options else m.options)
      && m'.running.readOnly ==
        if Reopens(s, f, m.autoDdl) then m'.options.readOnly
        else if s.kind.Server? && (Upgraded(f) || f.Lost?) then false
        else m.running.readOnly
  {
  }

  /** What the statement adds to the work of the running transaction. */
  function Own(m: Meaning, s: Statement, f: Fact): seq<int> {
    if s.kind.Server? && Succeeded(f) && (f.upgraded || !m.running.readOnly) then [s.text] else []
  }

  /** One step, by its verdict on the work before it. */
  lemma StepByVerdict(m: Meaning, s: Statement, f: Fact, strict: bool)
    requires Possible(m, s, f, strict) && (!m.dirty ==> m.pending == []) && (m.tx != Open ==> m.pending == [])
    ensures var m' := Step(m, s, f);
      match Judge(s, f, m.autoDdl)
      case Keeps => m'.durable == m.durable + m.pending + Own(m, s, f) && m'.pending == []
      case Drops => m'.durable == m.durable && m'.pending == [] && Own(m, s, f) == []
      case Passes => m'.durable == m.durable && m'.pending == m.pending + Own(m, s, f)
  {
    assert m.durable + (m.pending + Own(m, s, f)) == m.durable + m.pending + Own(m, s, f);
    assert m.durable + [] == m.durable && m.pending + [] == m.pending;
    assert m.durable + m.pending + [] == m.durable + m.pending;
  }

  /** Work still undecided after `n` statements is younger than all work decided by then. */
  lemma {:induction false} UndecidedIsYoungest(script: seq<Statement>, facts: seq<Fact>, j: nat, k: nat, n: nat)
    requires j <= k <= n <= |facts| <= |script| && Fate(script, facts, j, n) == Passes
    ensures Fate(script, facts, k, n) == Passes
  {
    if k < n { UndecidedIsYoungest(script, facts, j, k, n - 1); }
  }

  lemma {:induction false} NoneUndecided(script: seq<Statement>, facts: seq<Fact>, options: Options, k: nat, n: nat)
    requires k < n <= |facts| <= |script| && Fate(script, facts, k, n) != Passes
    ensures Effects(script, facts, options, k, n, Passes) == []
  {
    if k > 0 {
      if Fate(script, facts, k - 1, n) == Passes { UndecidedIsYoungest(script, facts, k - 1, k, n); }
      NoneUndecided(script, facts, options, k - 1, n);
    }
  }

  /** How one more verdict moves the effects of the first `k` statements. */
  lemma {:induction false} EffectsStep(script: seq<Statement>, facts: seq<Fact>, options: Options, k: nat, n: nat)
    requires k <= n < |facts| <= |script|
    ensures var v := Judge(script[n], facts[n], AutoDdlAt(script, facts, n));
      var undecided := Effects(script, facts, options, k, n, Passes);
      && Effects(script, facts, options, k, n + 1, Keeps) ==
           Effects(script, facts, options, k, n, Keeps) + (if v == Keeps then undecided else [])
      && Effects(script, facts, options, k, n + 1, Passes) == if v == Passes then undecided else []
  {
    if k > 0 {
      EffectsStep(script, facts, options, k - 1, n);
      if Fate(script, facts, k - 1, n) != Passes { NoneUndecided(script, facts, options, k - 1, n); }
    }
  }

  lemma {:induction false} EffectsPrefix(script: seq<Statement>, facts: seq<Fact>, options: Options, k: nat, n: nat,
        v: Verdict)
    requires k <= n < |facts| <= |script|
    ensures Effects(script, facts[..|facts| - 1], options, k, n, v) == Effects(script, facts, options, k, n, v)
  {
    if k > 0 {
      EffectsPrefix(script, facts, options, k - 1, n, v);
      FatePrefix(script, facts, k - 1, n);
      OptionsPrefix(script, facts, options, k - 1);
    }
  }

  /**
   * Durable is exactly what a commit, a reconnect or an AutoDDL checkpoint reached
   * first; pending is exactly what no checkpoint has reached yet; the rest is gone.
   */
  lemma {:induction false} DurableExactly(script: seq<Statement>, facts: seq<Fact>, options: Options, strict: bool)
    requires |facts| <= |script| && Legal(script, facts, options, strict)
    ensures After(script, facts, options).durable == Effects(script, facts, options, |facts|, |facts|, Keeps)
    ensures After(script, facts, options).pending == Effects(script, facts, options, |facts|, |facts|, Passes)
  {
    if facts != [] {
      var n := |facts| - 1;
      var before := facts[..n];
      var m := After(script, before, options);
      hide After, Effects, Legal, Step;
      OneMore(script, facts, options, strict);
      DurableExactly(script, before, options, strict);
      CleanHoldsNothing(script, before, options, strict);
      VariablesAre(script, before, options, strict);
      AutoDdlPrefix(script, facts, n);
      OptionsPrefix(script, facts, options, n);
      StepByVerdict(m, script[n], facts[n], strict);
      EffectsPrefix(script, facts, options, n, n, Keeps);
      EffectsPrefix(script, facts, options, n, n, Passes);
      EffectsStep(script, facts, options, n, n);
      LastEffect(script, facts, options, n, Keeps);
      LastEffect(script, facts, options, n, Passes);
    } else {
      assert Start(options).durable == Start(options).pending == [];
    }
  }

  /** One more statement, in the light of one more fact. */
  lemma OneMore(script: seq<Statement>, facts: seq<Fact>, options: Options, strict: bool)
    requires 0 < |facts| <= |script|
    ensures var n := |facts| - 1;
      && After(script, facts, options) == Step(After(script, facts[..n], options), script[n], facts[n])
      && (Legal(script, facts, options, strict) <==>
          && Legal(script, facts[..n], options, strict)
          && Possible(After(script, facts[..n], options), script[n], facts[n], strict))
  {
  }

  lemma LastEffect(script: seq<Statement>, facts: seq<Fact>, options: Options, n: nat, v: Verdict)
    requires n < |facts| <= |script|
    ensures Effects(script, facts, options, n + 1, n + 1, v) == Effects(script, facts, options, n, n + 1, v) +
      (if v == Judge(script[n], facts[n], AutoDdlAt(script, facts, n)) && Wrote(script, facts, options, n)
       then [script[n].text] else [])
  {
    assert Fate(script, facts, n, n) == Passes;
  }
}
