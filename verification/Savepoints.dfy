/**
 * Nested transactions over savepoints (`Transaction.transaction`, api/transaction.ts):
 * names come from the nesting depth, errors roll back to them.
 */
module Savepoints {

  /** A unit of work, with the server's decisions in it: refused, or not. */
  datatype Step =
    | Work(effect: int, ok: bool)
    | Throw                      // the callback's own error
    | Restart(ok: bool)          // the transaction committed and started afresh
    | Scope(saveOk: bool, body: Steps, releaseOk: bool, rollbackOk: bool, caught: bool)

  datatype Steps = Nil | Cons(head: Step, tail: Steps)

  /** A savepoint the server has, and how many effects there were when it was set. */
  datatype Mark = Mark(name: int, at: nat)

  datatype State = State(effects: seq<int>, marks: seq<Mark>, depth: int)

  // ---- the server -----------------------------------------------------------------------------

  function Find(marks: seq<Mark>, name: int): (i: nat)
    ensures i <= |marks| && (i < |marks| ==> marks[i].name == name) && forall k | 0 <= k < i :: marks[k].name != name
  {
    if marks == [] || marks[0].name == name then 0 else 1 + Find(marks[1..], name)
  }

  /** SAVEPOINT: one of the same name gives way to the new one. */
  function Set(st: State, name: int): State
  {
    var i := Find(st.marks, name);
    var rest := if i < |st.marks| then st.marks[..i] + st.marks[i + 1..] else st.marks;
    st.(marks := rest + [Mark(name, |st.effects|)])
  }

  /** ROLLBACK TO SAVEPOINT: what came later is gone, the savepoint stays. Without such a savepoint nothing happens. */
  function Undo(st: State, name: int): State
  {
    var i := Find(st.marks, name);
    if i == |st.marks| || st.marks[i].at > |st.effects| then st
    else st.(effects := st.effects[..st.marks[i].at], marks := st.marks[..i + 1])
  }

  // ---- the driver -----------------------------------------------------------------------------

  /** Runs the steps; true when an error comes out. */
  function Run(steps: Steps, st: State): (State, bool)
    decreases steps, 1
  {
    if steps.Nil? then (st, false)
    else
      var (next, threw) := RunStep(steps.head, st);
      if threw then (next, true) else Run(steps.tail, next)
  }

  function RunStep(s: Step, st: State): (State, bool)
    decreases s, 0
  {
    match s
    case Work(e, ok) => if ok then (st.(effects := st.effects + [e]), false) else (st, true)
    case Throw => (st, true)
    case Restart(ok) => if ok then (State([], [], 0), false) else (st, true)
    case Scope(saveOk, body, releaseOk, rollbackOk, caught) =>
      var name := st.depth + 1;
      var inner := st.(depth := name);
      var (after, threw) := if saveOk && name >= 0 then Run(body, Set(inner, name)) else (inner, true);
      Leave(after, name, !threw && releaseOk, rollbackOk, caught)
  }

  /** The end of a scope: released if the server has its savepoint, and else rolled back. */
  function Leave(after: State, name: int, release: bool, rollbackOk: bool, caught: bool): (State, bool)
  {
    var i := Find(after.marks, name);
    if release && i < |after.marks| then (after.(marks := after.marks[..i], depth := after.depth - 1), false)
    else
      var undone := if rollbackOk then Undo(after, name) else after;
      (undone.(depth := undone.depth - 1), !caught)
  }

  // ---- what is meant --------------------------------------------------------------------------

  /** A scope adds its effects, or, after an error, none. */
  function Meant(steps: Steps, effects: seq<int>): (seq<int>, bool)
    decreases steps, 1
  {
    if steps.Nil? then (effects, false)
    else
      var (next, threw) := MeantStep(steps.head, effects);
      if threw then (next, true) else Meant(steps.tail, next)
  }

  function MeantStep(s: Step, effects: seq<int>): (seq<int>, bool)
    decreases s, 0
  {
    match s
    case Work(e, ok) => if ok then (effects + [e], false) else (effects, true)
    case Throw => (effects, true)
    case Restart(ok) => if ok then ([], false) else (effects, true)
    case Scope(saveOk, body, releaseOk, _, caught) =>
      var (after, threw) := Meant(body, effects);
      if saveOk && !threw && releaseOk then (after, false) else (effects, !caught)
  }

  /**
   * Without harm to anybody: a scope whose SAVEPOINT was refused rolls back to no
   * savepoint, or to one left behind since which nothing was done.
   */
  predicate Harmless(st: State, rollbackOk: bool) {
    var i := Find(st.marks, st.depth + 1);
    !rollbackOk || i == |st.marks| || st.marks[i].at == |st.effects|
  }

  /**
   * Within reach of the law: no restart but a refused one, a rollback of a scope that was set is
   * carried out if it is asked for, and one of a scope that was not is harmless.
   */
  predicate Regular(steps: Steps, st: State)
    decreases steps, 1
  {
    steps.Nil? ||
    (RegularStep(steps.head, st) &&
     var (next, threw) := RunStep(steps.head, st); threw || Regular(steps.tail, next))
  }

  predicate RegularStep(s: Step, st: State)
    decreases s, 0
  {
    match s
    case Work(_, _) => true
    case Throw => true
    case Restart(ok) => !ok
    case Scope(saveOk, body, releaseOk, rollbackOk, _) =>
      var (name, inner) := (st.depth + 1, st.(depth := st.depth + 1));
      if saveOk then
        var (_, threw) := Run(body, Set(inner, name));
        Regular(body, Set(inner, name)) && ((!threw && releaseOk) || rollbackOk)
      else Harmless(st, rollbackOk)
  }

  /** Savepoints are set in the order of their names, none deeper than one left over below the current scope. */
  predicate Valid(st: State) {
    && st.depth >= 0
    && (forall i, j | 0 <= i < j < |st.marks| ::
      st.marks[i].name < st.marks[j].name && st.marks[i].at <= st.marks[j].at)
    && (forall i | 0 <= i < |st.marks| :: st.marks[i].name <= st.depth + 1 && st.marks[i].at <= |st.effects|)
  }

  /** An open scope's savepoint is where it was, and so are the effects before it. */
  predicate KeepsMark(a: State, b: State, i: int) {
    0 <= i < |a.marks| ==>
      && i < |b.marks| && b.marks[i] == a.marks[i]
      && a.marks[i].at <= |a.effects| && a.marks[i].at <= |b.effects| &&
        b.effects[..a.marks[i].at] == a.effects[..a.marks[i].at]
  }

  predicate KeepsOpen(a: State, b: State) {
    b.depth == a.depth && forall i | 0 <= i < |a.marks| && a.marks[i].name <= a.depth :: KeepsMark(a, b, i)
  }

  lemma FindName(marks: seq<Mark>, i: nat)
    requires i < |marks| && forall j, k | 0 <= j < k < |marks| :: marks[j].name < marks[k].name
    ensures Find(marks, marks[i].name) == i
  {
  }

  lemma DeepestIsLast(marks: seq<Mark>, i: nat, name: int)
    requires i < |marks| && marks[i].name == name && forall k | 0 <= k < |marks| :: marks[k].name <= name
    requires forall j, k | 0 <= j < k < |marks| :: marks[j].name < marks[k].name
    ensures i + 1 == |marks| && marks[i + 1..] == []
  {
    if i + 1 < |marks| {
      Deeper(marks, i, i + 1);
      assert false;
    }
  }

  lemma Deeper(marks: seq<Mark>, i: nat, j: nat)
    requires i < j < |marks| && forall j, k | 0 <= j < k < |marks| :: marks[j].name < marks[k].name
    ensures marks[i].name < marks[j].name
  {
  }

  /** Setting a scope's own savepoint: it is the last, and the open ones are where they were. */
  lemma SetValid(st: State, name: int)
    requires Valid(st) && name == st.depth + 1
    ensures var t := Set(st.(depth := name), name); var i := |t.marks| - 1;
      && Valid(t) && t.effects == st.effects && t.marks[i] == Mark(name, |st.effects|) && Find(t.marks, name) == i
      && forall k | 0 <= k < |st.marks| && st.marks[k].name <= st.depth :: k < i && t.marks[k] == st.marks[k]
  {
    var i := Find(st.marks, name);
    if i < |st.marks| { DeepestIsLast(st.marks, i, name); }
    SetAtEnd(st, name, i);
  }

  lemma SetAtEnd(st: State, name: int, i: nat)
    requires Valid(st) && name == st.depth + 1 && i == Find(st.marks, name) && (i < |st.marks| ==> i + 1 == |st.marks|)
    ensures var t := Set(st.(depth := name), name);
      && Valid(t) && t.effects == st.effects && |t.marks| == i + 1 && t.marks[i] == Mark(name, |st.effects|)
      && Find(t.marks, name) == i
      && forall k | 0 <= k < |st.marks| && st.marks[k].name <= st.depth :: k < i && t.marks[k] == st.marks[k]
  {
    var m := Mark(name, |st.effects|);
    assert Set(st.(depth := name), name) == State(st.effects, st.marks[..i] + [m], name);
    hide Set;
    PushValid(st, i, name);
    FindName(st.marks[..i] + [m], i);
  }

  lemma PushValid(st: State, i: nat, name: int)
    requires Valid(st) && name == st.depth + 1 && i <= |st.marks| && forall k | 0 <= k < i :: st.marks[k].name != name
    ensures Valid(State(st.effects, st.marks[..i] + [Mark(name, |st.effects|)], name))
  {
    var t := State(st.effects, st.marks[..i] + [Mark(name, |st.effects|)], name);
    assert forall k | 0 <= k < i :: t.marks[k] == st.marks[k] && t.marks[k].name < name;
  }

  /** Leaving a scope by its rollback: its effects are gone, the rest is as before it. */
  lemma ScopeUndone(st: State, name: int, after: State)
    requires Valid(st) && name == st.depth + 1
    requires Valid(after) && KeepsOpen(Set(st.(depth := name), name), after)
    ensures var u := Undo(after, name); var end := u.(depth := u.depth - 1);
      end.effects == st.effects && Valid(end) && KeepsOpen(st, end)
  {
    var i := OwnMark(st, name, after);
    var u := Undo(after, name);
    var end := u.(depth := u.depth - 1);
    hide Set, Find, Undo;
    forall k | 0 <= k < |st.marks| && st.marks[k].name <= st.depth
      ensures KeepsMark(st, end, k)
    {
      OuterMark(st, name, after, k);
    }
  }

  /** Inside a scope its own savepoint stands where it was set, before the effects of the scope. */
  lemma OwnMark(st: State, name: int, after: State) returns (i: nat)
    requires Valid(st) && name == st.depth + 1
    requires Valid(after) && KeepsOpen(Set(st.(depth := name), name), after)
    ensures i < |after.marks| && Find(after.marks, name) == i && after.marks[i] == Mark(name, |st.effects|)
    ensures |st.effects| <= |after.effects| && after.effects[..|st.effects|] == st.effects
    ensures forall k | 0 <= k < |st.marks| && st.marks[k].name <= st.depth :: k < i
  {
    SetValid(st, name);
    var marked := Set(st.(depth := name), name);
    i := |marked.marks| - 1;
    hide Set, Find;
    assert KeepsMark(marked, after, i);
    FindName(after.marks, i);
  }

  lemma OuterMark(st: State, name: int, after: State, k: nat)
    requires Valid(st) && name == st.depth + 1 && k < |st.marks| && st.marks[k].name <= st.depth
    requires KeepsOpen(Set(st.(depth := name), name), after)
    ensures KeepsMark(st, after, k)
  {
    SetValid(st, name);
    var marked := Set(st.(depth := name), name);
    hide Set, Find;
    assert KeepsMark(marked, after, k);
  }

  /** Leaving a scope by its release: its effects stay, its savepoint goes. */
  lemma ScopeReleased(st: State, name: int, after: State)
    requires Valid(st) && name == st.depth + 1
    requires Valid(after) && KeepsOpen(Set(st.(depth := name), name), after)
    ensures var i := Find(after.marks, name); var end := after.(marks := after.marks[..i], depth := after.depth - 1);
      i < |after.marks| && Valid(end) && KeepsOpen(st, end)
  {
    var i := OwnMark(st, name, after);
    var end := after.(marks := after.marks[..i], depth := after.depth - 1);
    hide Set, Find;
    assert forall k | 0 <= k < i :: after.marks[k].name < after.marks[i].name;
    forall k | 0 <= k < |st.marks| && st.marks[k].name <= st.depth
      ensures KeepsMark(st, end, k)
    {
      OuterMark(st, name, after, k);
    }
  }

  /**
   * The scope law: whatever the program and the server's decisions, as far as they
   * are regular the effects are exactly those meant, and an error comes out exactly
   * where one should; the depth and the enclosing savepoints are left as they were.
   */
  lemma {:induction false} ScopesAsMeant(steps: Steps, st: State)
    requires Valid(st) && Regular(steps, st)
    ensures var (end, threw) := Run(steps, st);
      Meant(steps, st.effects) == (end.effects, threw) && Valid(end) && KeepsOpen(st, end)
    decreases steps, 2
  {
    if steps.Cons? {
      StepAsMeant(steps.head, st);
      var (next, threw) := RunStep(steps.head, st);
      if !threw { ScopesAsMeant(steps.tail, next); }
    }
  }

  lemma {:induction false} StepAsMeant(s: Step, st: State)
    requires Valid(st) && RegularStep(s, st)
    ensures var (end, threw) := RunStep(s, st);
      MeantStep(s, st.effects) == (end.effects, threw) && Valid(end) && KeepsOpen(st, end)
    decreases s, 1
  {
    if s.Scope? { ScopeAsMeant(s, st); }
  }

  lemma {:induction false} ScopeAsMeant(s: Step, st: State)
    requires s.Scope? && Valid(st) && RegularStep(s, st)
    ensures var (end, threw) := RunStep(s, st);
      MeantStep(s, st.effects) == (end.effects, threw) && Valid(end) && KeepsOpen(st, end)
    decreases s, 0
  {
    hide Set, Undo, Valid, KeepsOpen, Run, Meant, Regular, Find;
    var name := st.depth + 1;
    if s.saveOk {
      SetValid(st, name);
      ScopesAsMeant(s.body, Set(st.(depth := name), name));
      var (after, threw) := Run(s.body, Set(st.(depth := name), name));
      ScopeReleased(st, name, after);
      ScopeUndone(st, name, after);
    } else {
      RefusedScope(st, s.rollbackOk);
    }
    DepthsFit(st);
  }

  /** A scope that was never set, and its rollback: nothing is lost exactly when it is harmless. */
  lemma RefusedScope(st: State, rollbackOk: bool)
    requires Valid(st)
    ensures var name := st.depth + 1; var inner := st.(depth := name);
      var undone := if rollbackOk then Undo(inner, name) else inner; var end := undone.(depth := undone.depth - 1);
      && (end.effects == st.effects <==> Harmless(st, rollbackOk))
      && (Harmless(st, rollbackOk) ==> Valid(end) && KeepsOpen(st, end))
  {
    var i := Find(st.marks, st.depth + 1);
    if i < |st.marks| {
      assert st.marks[i].at <= |st.effects|;
      assert |st.effects[..st.marks[i].at]| == st.marks[i].at;
    }
  }

  lemma DepthsFit(st: State)
    requires Valid(st)
    ensures st.depth >= 0
  {
  }

  // ---- where the law ends ---------------------------------------------------------------------

  /**
   * The refused SAVEPOINT, exactly: the scope leaves the work of the enclosing
   * transaction alone if and only if its rollback is harmless. It is not when an
   * earlier scope of the same depth failed, which leaves its savepoint behind, and
   * work was done since: the rollback goes to the old savepoint and takes that work.
   */
  lemma RefusedSavepointExactly(s: Step, st: State)
    requires s.Scope? && !s.saveOk && Valid(st)
    ensures var (end, threw) := RunStep(s, st);
      MeantStep(s, st.effects) == (end.effects, threw) <==> Harmless(st, s.rollbackOk)
  {
    hide Undo, Find, Harmless;
    RefusedScope(st, s.rollbackOk);
  }

  /** The body of a scope, run to its end or its error, in the scope that was set for it. */
  function Body(s: Step, st: State): (State, bool)
    requires s.Scope?
  {
    Run(s.body, Set(st.(depth := st.depth + 1), st.depth + 1))
  }

  /**
   * The refused ROLLBACK TO SAVEPOINT, exactly: a scope whose body is regular does
   * what it should if and only if it needs no rollback, or is granted it, or its
   * body has left no effects.
   */
  lemma RefusedRollbackExactly(s: Step, st: State)
    requires s.Scope? && s.saveOk && Valid(st)
    requires Regular(s.body, Set(st.(depth := st.depth + 1), st.depth + 1))
    ensures var (end, threw) := RunStep(s, st);
      var (after, failed) := Body(s, st);
      MeantStep(s, st.effects) == (end.effects, threw) <==>
      (!failed && s.releaseOk) || s.rollbackOk || after.effects == st.effects
  {
    hide Set, Undo, Valid, KeepsOpen, Run, Meant, Regular, Find;
    var name := st.depth + 1;
    SetValid(st, name);
    ScopesAsMeant(s.body, Set(st.(depth := name), name));
    var (after, threw) := Run(s.body, Set(st.(depth := name), name));
    ScopeReleased(st, name, after);
    ScopeUndone(st, name, after);
    DepthsFit(st);
  }

  /** The program restarts the transaction somewhere, and the server lets it. */
  predicate Restarts(steps: Steps, st: State)
    decreases steps, 1
  {
    steps.Cons? &&
    (RestartsStep(steps.head, st) ||
     var (next, threw) := RunStep(steps.head, st); !threw && Restarts(steps.tail, next))
  }

  predicate RestartsStep(s: Step, st: State)
    decreases s, 0
  {
    match s
    case Restart(ok) => ok
    case Scope(saveOk, body, _, _, _) =>
      saveOk && st.depth >= -1 && Restarts(body, Set(st.(depth := st.depth + 1), st.depth + 1))
    case _ => false
  }

  /** The depth is kept as long as nothing restarts, and is at most zero once something did. */
  lemma {:induction false} DepthAfter(steps: Steps, st: State)
    ensures var end := Run(steps, st).0;
      if Restarts(steps, st) then end.depth <= 0 else end.depth == st.depth
    decreases steps, 2
  {
    if steps.Cons? {
      DepthAfterStep(steps.head, st);
      var (next, threw) := RunStep(steps.head, st);
      if !threw { DepthAfter(steps.tail, next); }
    }
  }

  lemma {:induction false} DepthAfterStep(s: Step, st: State)
    ensures var end := RunStep(s, st).0;
      if RestartsStep(s, st) then end.depth <= (if s.Scope? then -1 else 0) else end.depth == st.depth
    decreases s, 1
  {
    if s.Scope? {
      hide Set, Find, Run, Restarts;
      var name := st.depth + 1;
      var inner := st.(depth := name);
      if s.saveOk && name >= 0 {
        SetKeepsDepth(inner, name);
        DepthAfter(s.body, Set(inner, name));
      }
    }
  }

  lemma SetKeepsDepth(st: State, name: int)
    ensures Set(st, name).depth == st.depth
  {
  }

  /**
   * The restart inside a scope, exactly: a scope leaves the depth as it found it if
   * and only if nothing in it restarted the transaction. Otherwise the depth goes
   * below zero, and the names of later savepoints with it.
   */
  lemma DepthKeptExactly(s: Step, st: State)
    requires s.Scope? && st.depth >= 0
    ensures RunStep(s, st).0.depth == st.depth <==> !RestartsStep(s, st)
    ensures RestartsStep(s, st) ==> RunStep(s, st).0.depth < 0
  {
    DepthAfterStep(s, st);
  }

  const FAILED := Scope(true, Cons(Throw, Nil), true, true, true)
  const REFUSED := Scope(false, Nil, true, true, true)

  /** A program that loses work: a failed scope, one effect outside, a refused SAVEPOINT. */
  lemma StaleSavepoint(effect: int)
    ensures var left := RunStep(FAILED, State([], [], 0)).0; var worked := RunStep(Work(effect, true), left).0;
      worked.effects == [effect] && !Harmless(worked, true) && RunStep(REFUSED, worked).0.effects == []
  {
    var marked := Set(State([], [], 1), 1);
    assert marked == State([], [Mark(1, 0)], 1);
    assert Run(Cons(Throw, Nil), marked) == (marked, true);
    assert Find([Mark(1, 0)], 1) == 0;
    assert Undo(marked, 1) == marked;
    var inner := State([effect], [Mark(1, 0)], 1);
    assert Undo(inner, 1) == State([], [Mark(1, 0)], 1);
    assert [] + [effect] == [effect];
  }

  const THROWING := Cons(Throw, Nil)

  /** A failed inner scope with an effect, whose rollback is refused, and an outer one that fails as well. */
  function Inner(effect: int): Step { Scope(true, Cons(Work(effect, true), THROWING), true, false, true) }

  function Outer(effect: int): Step { Scope(true, Cons(Inner(effect), THROWING), true, true, true) }

  /** What the steps of the inner scope come to, wherever it starts. */
  lemma InnerRuns(effect: int, st: State)
    requires st.depth >= 0
    ensures var name := st.depth + 1; var inner := Set(st.(depth := name), name);
      RunStep(Inner(effect), st) == (inner.(effects := inner.effects + [effect], depth := name - 1), false)
    ensures MeantStep(Inner(effect), st.effects) == (st.effects, false)
  {
    var name := st.depth + 1;
    var inner := Set(st.(depth := name), name);
    var worked := inner.(effects := inner.effects + [effect]);
    assert Run(THROWING, worked) == (worked, true);
    assert Run(Cons(Work(effect, true), THROWING), inner) == (worked, true);
    assert Meant(THROWING, st.effects + [effect]) == (st.effects + [effect], true);
    assert Meant(Cons(Work(effect, true), THROWING), st.effects) == (st.effects + [effect], true);
  }

  /**
   * Why the law goes step by step, and not by whole programs: an outer scope that
   * fails takes with it what a refused rollback left in an inner one, so the program
   * does what it should although a step of it does not.
   */
  lemma MadeGood(effect: int)
    ensures var (st, within) := (State([], [], 0), State([], [Mark(1, 0)], 1));
      && RunStep(Inner(effect), within).0.effects != MeantStep(Inner(effect), within.effects).0
      && MeantStep(Outer(effect), st.effects) == (RunStep(Outer(effect), st).0.effects, RunStep(Outer(effect), st).1)
  {
    hide RunStep, MeantStep;
    var (st, within) := (State([], [], 0), State([], [Mark(1, 0)], 1));
    InnerRuns(effect, within);
    assert Find([Mark(1, 0)], 2) == 1 && Find([], 1) == 0;
    assert Set(within.(depth := 2), 2) == State([], [Mark(1, 0), Mark(2, 0)], 2);
    OuterRuns(effect);
  }

  lemma OuterRuns(effect: int)
    ensures RunStep(Outer(effect), State([], [], 0)) == (State([], [Mark(1, 0)], 0), false)
    ensures MeantStep(Outer(effect), []) == ([], false)
  {
    var within := State([], [Mark(1, 0)], 1);
    assert Set(State([], [], 1), 1) == within;
    InnerRuns(effect, within);
    assert Find([Mark(1, 0)], 2) == 1;
    assert Set(within.(depth := 2), 2) == State([], [Mark(1, 0), Mark(2, 0)], 2);
    var after := State([effect], [Mark(1, 0), Mark(2, 0)], 1);
    assert [] + [effect] == [effect];
    assert RunStep(Inner(effect), within) == (after, false);
    assert Run(THROWING, after) == (after, true) && Meant(THROWING, []) == ([], true);
    assert Run(Cons(Inner(effect), THROWING), within) == (after, true);
    assert Meant(Cons(Inner(effect), THROWING), []) == ([], true);
    assert Find(after.marks, 1) == 0;
    assert Undo(after, 1) == State([], [Mark(1, 0)], 1);
  }
}
