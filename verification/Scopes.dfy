/** The two accounts of a UnitOfWork put together: its statements in Session.dfy, where every await has
    a fate, and its permit operations in Permits.dfy, where it is part of one task among many. */
module Scopes {
  import opened Permits
  import opened Programs
  import Session

  /** The fates of one scope, and whether there was a sessionmaker. */
  datatype Fate = Fate(connected: bool, enter: Session.EnterFate, exit: Session.ExitFate) {
    predicate Leaks() { Session.Leaks(connected, enter, exit) }
  }

  /** The ways through a scope, as its task's steps show them. */
  datatype Course = NeverEntered | EntryFailed | Left(closeOk: bool)

  function CourseOf(f: Fate): Course {
    if f.enter.CancelledWaiting? then NeverEntered
    else if !f.connected || f.enter.BeginFails? then EntryFailed
    else Left(f.exit.closeOk)
  }

  const HELD := Held(Db, true)

  /** What a task holds before the scope, what it does in it, and what it means to do after. */
  datatype Context = Context(held: seq<Held>, body: seq<Op>, rest: seq<Op>) {
    function Depth(): nat { |held| }
    ghost predicate Ok(limits: map<Sem, nat>) {
      Disciplined(limits, [], body) && Disciplined(limits, held, rest)
    }
  }

  // ---------------------------------------------------------------- where a task is

  predicate AtEntry(c: Context, t: Task) { t == Task(c.held, InUnitOfWork(c.body) + c.rest) }

  predicate AtBegin(c: Context, t: Task) {
    t == Task(c.held + [HELD], [Begin] + c.body + [Release] + c.rest)
  }

  /** In the body with `inner` held on top and `todo` of it left, or on the way out. */
  ghost predicate InBodyAs(limits: map<Sem, nat>, c: Context, t: Task, inner: seq<Held>, todo: seq<Op>) {
    && t.held == c.held + [HELD] + inner
    && (t.todo == Releases(|t.held|)
        || (t.todo == todo + [Release] + c.rest && Disciplined(limits, inner, todo)))
  }

  ghost predicate InBody(limits: map<Sem, nat>, c: Context, t: Task) {
    exists inner, todo :: InBodyAs(limits, c, t, inner, todo)
  }

  lemma {:induction false} EntryOps(c: Context)
    ensures (InUnitOfWork(c.body) + c.rest)[0] == Acquire(Db, true)
    ensures (InUnitOfWork(c.body) + c.rest)[1..] == [Begin] + c.body + [Release] + c.rest
    ensures ([Begin] + c.body + [Release] + c.rest)[0] == Begin
    ensures ([Begin] + c.body + [Release] + c.rest)[1..] == c.body + [Release] + c.rest
    ensures (c.held + [HELD])[..|c.held|] == c.held && (c.held + [HELD])[|c.held|] == HELD
  {
  }

  ghost predicate Present(st: State, k: nat) { k < |st.tasks| && Db in st.free && Db in st.lost }

  /** Entering: the acquire goes through and Begin is next, or the wait for it is cut short. */
  lemma {:induction false} EntryStep(c: Context, st: State, step: Step)
    requires Present(st, step.task) && AtEntry(c, st.tasks[step.task]) && Enabled(st, step)
    ensures step.Advance? || step.Unwind?
    ensures step.Advance? ==> AtBegin(c, Next(st, step).tasks[step.task])
    ensures step.Unwind? ==> Next(st, step).tasks[step.task] == Task(c.held, Releases(|c.held|))
  {
    EntryOps(c);
  }

  /** Begin: it succeeds and the body is next, or it fails and the permit is lost. */
  lemma {:induction false} BeginStep(limits: map<Sem, nat>, c: Context, st: State, step: Step)
    requires c.Ok(limits) && Present(st, step.task) && AtBegin(c, st.tasks[step.task]) && Enabled(st, step)
    ensures step.Advance? || step.EnterFails?
    ensures step.Advance? ==> InBody(limits, c, Next(st, step).tasks[step.task])
    ensures step.EnterFails? ==> Next(st, step).tasks[step.task] == Task(c.held, Releases(|c.held|))
  {
    EntryOps(c);
    if step.Advance? {
      assert c.held + [HELD] + [] == c.held + [HELD];
      assert InBodyAs(limits, c, Next(st, step).tasks[step.task], [], c.body);
    }
  }

  lemma {:induction false} InnerTop(c: Context, inner: seq<Held>)
    ensures inner != [] ==>
              var held := c.held + [HELD] + inner;
              held[|held| - 1] == inner[|inner| - 1] && held[..|held| - 1] == c.held + [HELD] + inner[..|inner| - 1]
  {
    if inner != [] {
      var held := c.held + [HELD] + inner;
      assert held[..|held| - 1] == c.held + [HELD] + inner[..|inner| - 1];
    }
  }

  lemma {:induction false} ReleasesTail(n: nat)
    ensures n > 0 ==> Releases(n)[0] == Release && Releases(n)[1..] == Releases(n - 1)
  {
  }

  /** A step on the way out of the body: one permit further, until only the scope's own is left. */
  lemma {:induction false} UnwoundStep(limits: map<Sem, nat>, c: Context, st: State, step: Step, inner: seq<Held>)
    requires Present(st, step.task) && Enabled(st, step)
    requires var t := st.tasks[step.task]; t.held == c.held + [HELD] + inner && t.todo == Releases(|t.held|)
    ensures step.Advance? || step.CloseFails?
    ensures var t' := Next(st, step).tasks[step.task];
      if inner == [] then t'.held == c.held else InBodyAs(limits, c, t', inner[..|inner| - 1], [])
  {
    var t := st.tasks[step.task];
    ReleasesTail(|t.held|);
    InnerTop(c, inner);
    if inner == [] {
      EntryOps(c);
      assert t.held == c.held + [HELD];
    }
  }

  /** A step of the body itself, with something of it left to do. */
  lemma {:induction false} InnerStep(limits: map<Sem, nat>, c: Context, st: State, step: Step, inner: seq<Held>,
                                     todo: seq<Op>)
    requires Present(st, step.task) && Enabled(st, step) && todo != [] && Disciplined(limits, inner, todo)
    requires var t := st.tasks[step.task]; t.held == c.held + [HELD] + inner && t.todo == todo + [Release] + c.rest
    ensures InBody(limits, c, Next(st, step).tasks[step.task])
    ensures step.Leaks() ==> inner != []
  {
    var t, t' := st.tasks[step.task], Next(st, step).tasks[step.task];
    assert t.todo[0] == todo[0] && t.todo[1..] == todo[1..] + [Release] + c.rest;
    InnerTop(c, inner);
    match step
    case Advance(_) =>
      match todo[0] {
        case Acquire(s, m) =>
          assert t'.held == c.held + [HELD] + (inner + [Held(s, m)]);
          assert InBodyAs(limits, c, t', inner + [Held(s, m)], todo[1..]);
        case Begin =>
          assert InBodyAs(limits, c, t', inner, todo[1..]);
        case Release =>
          assert InBodyAs(limits, c, t', inner[..|inner| - 1], todo[1..]);
      }
    case Unwind(_) =>
      assert InBodyAs(limits, c, t', inner, []);
    case _ =>
      assert InBodyAs(limits, c, t', inner[..|inner| - 1], []);
  }

  /** The scope's own permit is the last to go. */
  predicate Leaves(c: Context, t: Task, t': Task) { |t.held| == c.Depth() + 1 && |t'.held| == c.Depth() }

  /** In the body the scope's permit only goes at the very end: released, or lost because close() raised. */
  lemma {:induction false} BodyStep(limits: map<Sem, nat>, c: Context, st: State, step: Step)
    requires Present(st, step.task) && InBody(limits, c, st.tasks[step.task]) && Enabled(st, step)
    ensures var t, t' := st.tasks[step.task], Next(st, step).tasks[step.task];
      if Leaves(c, t, t') then t'.held == c.held && (step.Advance? || step.CloseFails?)
      else InBody(limits, c, t') && (step.Leaks() ==> |t.held| > c.Depth() + 1)
  {
    var t, t' := st.tasks[step.task], Next(st, step).tasks[step.task];
    var inner, todo :| InBodyAs(limits, c, t, inner, todo);
    if t.todo == Releases(|t.held|) {
      UnwoundStep(limits, c, st, step, inner);
    } else if todo != [] {
      InnerStep(limits, c, st, step, inner, todo);
      InBodyDepth(limits, c, t');
    } else {
      LastStep(limits, c, st, step);
    }
  }

  lemma {:induction false} InBodyDepth(limits: map<Sem, nat>, c: Context, t: Task)
    requires InBody(limits, c, t)
    ensures |t.held| > c.Depth() && t.todo != []
  {
  }

  lemma {:induction false} LastStep(limits: map<Sem, nat>, c: Context, st: State, step: Step)
    requires Present(st, step.task) && Enabled(st, step)
    requires var t := st.tasks[step.task]; t.held == c.held + [HELD] && t.todo == [] + [Release] + c.rest
    ensures var t, t' := st.tasks[step.task], Next(st, step).tasks[step.task];
      if Leaves(c, t, t') then t'.held == c.held && (step.Advance? || step.CloseFails?)
      else InBody(limits, c, t') && !step.Leaks()
  {
    var t, t' := st.tasks[step.task], Next(st, step).tasks[step.task];
    EntryOps(c);
    assert t.todo[0] == Release;
    if step.Unwind? {
      assert t'.held == c.held + [HELD] + [];
      assert InBodyAs(limits, c, t', [], []);
    }
  }

  // ---------------------------------------------------------------- runs through a scope

  datatype Stage = Entry | Beginning | Body

  /** The steps take task k, among any others' steps, from this stage of a scope at depth d to the step
      with which it is out of it, on this course. */
  ghost predicate Takes(st: State, steps: seq<Step>, k: nat, d: nat, stage: Stage, course: Course)
    requires k < |st.tasks|
    decreases |steps|
  {
    steps != [] && Enabled(st, steps[0]) &&
    var step, st', rest := steps[0], Next(st, steps[0]), steps[1..];
    if step.task != k then Takes(st', rest, k, d, stage, course)
    else match stage
      case Entry =>
        if step.Unwind? then rest == [] && course == NeverEntered
        else step.Advance? && Takes(st', rest, k, d, Beginning, course)
      case Beginning =>
        if step.EnterFails? then rest == [] && course == EntryFailed
        else step.Advance? && Takes(st', rest, k, d, Body, course)
      case Body =>
        if |st.tasks[k].held| == d + 1 && |st'.tasks[k].held| == d
        then rest == [] && (step.Advance? || step.CloseFails?) && course == Left(step.Advance?)
        else Takes(st', rest, k, d, Body, course)
  }

  /** How often task k loses the permit it holds at depth d. */
  ghost function OwnLeaks(st: State, steps: seq<Step>, k: nat, d: nat): nat
    decreases |steps|
  {
    if steps == [] || !Enabled(st, steps[0]) then 0
    else
      (if steps[0].task == k && steps[0].Leaks() && |st.tasks[k].held| == d + 1 then 1 else 0)
      + OwnLeaks(Next(st, steps[0]), steps[1..], k, d)
  }

  function LeaksOn(course: Course): nat {
    if course == EntryFailed || course == Left(false) then 1 else 0
  }

  lemma {:induction false} FatesAndCourses(f: Fate)
    ensures LeaksOn(CourseOf(f)) == if f.Leaks() then 1 else 0
  {
  }

  lemma {:induction false} OtherStep(st: State, step: Step, k: nat)
    requires Present(st, k) && Enabled(st, step)
    ensures Present(Next(st, step), k)
    ensures step.task != k ==> Next(st, step).tasks[k] == st.tasks[k]
  {
  }

  /** Takes and the ledger together, one step longer. */
  ghost predicate Goes(st: State, steps: seq<Step>, k: nat, d: nat, stage: Stage, course: Course)
    requires k < |st.tasks|
  {
    Takes(st, steps, k, d, stage, course) && OwnLeaks(st, steps, k, d) == LeaksOn(course)
  }

  lemma {:induction false} GoesOn(st: State, steps: seq<Step>, n: nat, k: nat, d: nat, stage: Stage, stage': Stage,
                                  course: Course)
    requires Present(st, k) && 0 < n <= |steps| && Enabled(st, steps[0])
    requires k < |Next(st, steps[0]).tasks| && Goes(Next(st, steps[0]), steps[1..][..n - 1], k, d, stage', course)
    requires if steps[0].task != k then stage == stage'
             else match stage
               case Entry => steps[0].Advance? && stage' == Beginning
               case Beginning => steps[0].Advance? && stage' == Body
               case Body =>
                 stage' == Body && !(|st.tasks[k].held| == d + 1 && |Next(st, steps[0]).tasks[k].held| == d)
                 && (steps[0].Leaks() ==> |st.tasks[k].held| > d + 1)
    ensures Goes(st, steps[..n], k, d, stage, course)
  {
    assert steps[..n][1..] == steps[1..][..n - 1];
    assert steps[..n][0] == steps[0];
  }

  lemma {:induction false} GoesOut(st: State, steps: seq<Step>, k: nat, d: nat, stage: Stage, course: Course)
    requires Present(st, k) && steps != [] && Enabled(st, steps[0]) && steps[0].task == k
    requires match stage
      case Entry => steps[0].Unwind? && course == NeverEntered
      case Beginning => steps[0].EnterFails? && course == EntryFailed && |st.tasks[k].held| == d + 1
      case Body =>
        && |st.tasks[k].held| == d + 1 && |Next(st, steps[0]).tasks[k].held| == d
        && (steps[0].Advance? || steps[0].CloseFails?) && course == Left(steps[0].Advance?)
    ensures Goes(st, steps[..1], k, d, stage, course)
  {
    assert steps[..1][1..] == [] && steps[..1][0] == steps[0];
    assert OwnLeaks(Next(st, steps[0]), [], k, d) == 0;
  }

  /** A run from st in which task k comes to its end. */
  ghost predicate Completes(st: State, steps: seq<Step>, end: State, k: nat) {
    Path(st, steps, end) && k < |end.tasks| && end.tasks[k].todo == []
  }

  lemma {:induction false} FromBody(limits: map<Sem, nat>, c: Context, st: State, steps: seq<Step>, end: State, k: nat)
    returns (n: nat, course: Course)
    requires Present(st, k) && InBody(limits, c, st.tasks[k]) && Completes(st, steps, end, k)
    ensures n <= |steps| && course.Left? && Goes(st, steps[..n], k, c.Depth(), Body, course)
    decreases |steps|
  {
    InBodyDepth(limits, c, st.tasks[k]);
    var st' := Next(st, steps[0]);
    OtherStep(st, steps[0], k);
    if steps[0].task == k { BodyStep(limits, c, st, steps[0]); }
    if steps[0].task == k && Leaves(c, st.tasks[k], st'.tasks[k]) {
      n, course := 1, Left(steps[0].Advance?);
      GoesOut(st, steps, k, c.Depth(), Body, course);
    } else {
      n, course := FromBody(limits, c, st', steps[1..], end, k);
      n := n + 1;
      GoesOn(st, steps, n, k, c.Depth(), Body, Body, course);
    }
  }

  lemma {:induction false} FromBegin(limits: map<Sem, nat>, c: Context, st: State, steps: seq<Step>, end: State, k: nat)
    returns (n: nat, course: Course)
    requires c.Ok(limits) && Present(st, k) && AtBegin(c, st.tasks[k]) && Completes(st, steps, end, k)
    ensures n <= |steps| && (course.Left? || course.EntryFailed?)
    ensures Goes(st, steps[..n], k, c.Depth(), Beginning, course)
    decreases |steps|
  {
    EntryOps(c);
    var st' := Next(st, steps[0]);
    OtherStep(st, steps[0], k);
    if steps[0].task != k {
      n, course := FromBegin(limits, c, st', steps[1..], end, k);
      n := n + 1;
      GoesOn(st, steps, n, k, c.Depth(), Beginning, Beginning, course);
    } else {
      BeginStep(limits, c, st, steps[0]);
      if steps[0].EnterFails? {
        n, course := 1, EntryFailed;
        GoesOut(st, steps, k, c.Depth(), Beginning, course);
      } else {
        n, course := FromBody(limits, c, st', steps[1..], end, k);
        n := n + 1;
        GoesOn(st, steps, n, k, c.Depth(), Beginning, Body, course);
      }
    }
  }

  lemma {:induction false} FromEntry(limits: map<Sem, nat>, c: Context, st: State, steps: seq<Step>, end: State, k: nat)
    returns (n: nat, course: Course)
    requires c.Ok(limits) && Present(st, k) && AtEntry(c, st.tasks[k]) && Completes(st, steps, end, k)
    ensures n <= |steps| && Goes(st, steps[..n], k, c.Depth(), Entry, course)
    decreases |steps|
  {
    EntryOps(c);
    var st' := Next(st, steps[0]);
    OtherStep(st, steps[0], k);
    if steps[0].task != k {
      n, course := FromEntry(limits, c, st', steps[1..], end, k);
      n := n + 1;
      GoesOn(st, steps, n, k, c.Depth(), Entry, Entry, course);
    } else {
      EntryStep(c, st, steps[0]);
      if steps[0].Unwind? {
        n, course := 1, NeverEntered;
        GoesOut(st, steps, k, c.Depth(), Entry, course);
      } else {
        n, course := FromBegin(limits, c, st', steps[1..], end, k);
        n := n + 1;
        GoesOn(st, steps, n, k, c.Depth(), Entry, Beginning, course);
      }
    }
  }

  const FINE := Session.ExitFate(Session.CommitOk, true, true)

  function SomeFate(course: Course): (f: Fate)
    ensures CourseOf(f) == course
  {
    match course
    case NeverEntered => Fate(true, Session.CancelledWaiting, FINE)
    case EntryFailed => Fate(true, Session.BeginFails, FINE)
    case Left(closeOk) => Fate(true, Session.Begins, FINE.(closeOk := closeOk))
  }

  /** Whatever a task holds, does in the scope and does after it, and whatever the others do meanwhile: a
      run in which it comes to its end takes it through the scope on the course of some fate, and it
      loses the scope's permit on the way exactly when Session.Leaks holds of that fate. */
  lemma {:induction false} RunIsAFate(limits: map<Sem, nat>, c: Context, st: State, steps: seq<Step>, end: State,
                                      k: nat)
    returns (n: nat, f: Fate)
    requires c.Ok(limits) && Present(st, k) && AtEntry(c, st.tasks[k]) && Completes(st, steps, end, k)
    ensures n <= |steps| && Takes(st, steps[..n], k, c.Depth(), Entry, CourseOf(f))
    ensures OwnLeaks(st, steps[..n], k, c.Depth()) == if f.Leaks() then 1 else 0
  {
    var course;
    n, course := FromEntry(limits, c, st, steps, end, k);
    f := SomeFate(course);
    FatesAndCourses(f);
  }

  // ---------------------------------------------------------------- every fate has a run

  /** The states a scope passes through on its own; with a body, it raises at its first await. */
  function Holding(c: Context, st: State, k: nat, todo: seq<Op>): State
    requires Present(st, k)
  {
    st.(free := st.free[Db := st.free[Db] - 1], tasks := st.tasks[k := Task(c.held + [HELD], todo)])
  }

  /** Out of it again, with the permit back or lost. */
  function Out(c: Context, st: State, k: nat, todo: seq<Op>, lost: nat): State
    requires Present(st, k)
  {
    State(st.free[Db := st.free[Db] - lost], st.lost[Db := st.lost[Db] + lost], st.tasks[k := Task(c.held, todo)])
  }

  ghost predicate Moves(st: State, step: Step, st': State) { Enabled(st, step) && Next(st, step) == st' }

  lemma {:induction false} EntryMoves(limits: map<Sem, nat>, c: Context, st: State, k: nat)
    requires c.Ok(limits) && Present(st, k) && AtEntry(c, st.tasks[k]) && st.free[Db] > 0
    ensures Moves(st, Advance(k), Holding(c, st, k, [Begin] + c.body + [Release] + c.rest))
    ensures Moves(st, Unwind(k), Out(c, st, k, Releases(|c.held|), 0))
  {
    EntryOps(c);
    OpsCoverHeld(limits, c.held, c.rest);
    assert Next(st, Unwind(k)).tasks == Out(c, st, k, Releases(|c.held|), 0).tasks;
  }

  lemma {:induction false} BeginMoves(c: Context, st: State, k: nat)
    requires Present(st, k)
    ensures var st' := Holding(c, st, k, [Begin] + c.body + [Release] + c.rest);
      && Moves(st', Advance(k), Holding(c, st, k, c.body + [Release] + c.rest))
      && Moves(st', EnterFails(k), Out(c, st, k, Releases(|c.held|), 1))
  {
    EntryOps(c);
    var st' := Holding(c, st, k, [Begin] + c.body + [Release] + c.rest);
    assert st'.tasks[k] == Task(c.held + [HELD], [Begin] + c.body + [Release] + c.rest);
    assert Next(st', Advance(k)).tasks == Holding(c, st, k, c.body + [Release] + c.rest).tasks;
    assert Next(st', EnterFails(k)).tasks == Out(c, st, k, Releases(|c.held|), 1).tasks;
  }

  lemma {:induction false} RaiseMoves(limits: map<Sem, nat>, c: Context, st: State, k: nat)
    requires c.Ok(limits) && Present(st, k) && c.body != []
    ensures Moves(Holding(c, st, k, c.body + [Release] + c.rest), Unwind(k),
                  Holding(c, st, k, Releases(|c.held| + 1)))
  {
    OpsCoverHeld(limits, c.held, c.rest);
    var st' := Holding(c, st, k, c.body + [Release] + c.rest);
    assert st'.tasks[k] == Task(c.held + [HELD], c.body + [Release] + c.rest);
    assert Next(st', Unwind(k)).tasks == Holding(c, st, k, Releases(|c.held| + 1)).tasks;
  }

  lemma {:induction false} ExitMoves(c: Context, st: State, k: nat, todo: seq<Op>)
    requires Present(st, k) && todo != [] && todo[0] == Release
    ensures Moves(Holding(c, st, k, todo), Advance(k), Out(c, st, k, todo[1..], 0))
    ensures Moves(Holding(c, st, k, todo), CloseFails(k), Out(c, st, k, Releases(|c.held|), 1))
  {
    EntryOps(c);
    var st' := Holding(c, st, k, todo);
    assert st'.tasks[k] == Task(c.held + [HELD], todo);
    assert Next(st', Advance(k)).tasks == Out(c, st, k, todo[1..], 0).tasks;
    assert Next(st', Advance(k)).free == Out(c, st, k, todo[1..], 0).free;
    assert Next(st', CloseFails(k)).tasks == Out(c, st, k, Releases(|c.held|), 1).tasks;
  }

  /** A run that takes a course and ends in a given state. */
  ghost predicate Runs(st: State, steps: seq<Step>, end: State, k: nat, d: nat, stage: Stage, course: Course)
    requires k < |st.tasks|
  {
    Path(st, steps, end) && Goes(st, steps, k, d, stage, course)
  }

  lemma {:induction false} RunsOut(st: State, step: Step, end: State, k: nat, d: nat, stage: Stage, course: Course)
    requires Present(st, k) && Moves(st, step, end) && step.task == k
    requires match stage
      case Entry => step.Unwind? && course == NeverEntered
      case Beginning => step.EnterFails? && course == EntryFailed && |st.tasks[k].held| == d + 1
      case Body =>
        && |st.tasks[k].held| == d + 1 && |end.tasks| == |st.tasks| && |end.tasks[k].held| == d
        && (step.Advance? || step.CloseFails?) && course == Left(step.Advance?)
    ensures Runs(st, [step], end, k, d, stage, course)
  {
    GoesOut(st, [step], k, d, stage, course);
    assert [step][..1] == [step] && [step][1..] == [];
    assert Path(end, [], end);
  }

  lemma {:induction false} RunsOn(st: State, step: Step, mid: State, steps: seq<Step>, end: State, k: nat, d: nat,
                                  stage: Stage, stage': Stage, course: Course)
    requires Present(st, k) && Moves(st, step, mid) && step.task == k && !step.Leaks() && k < |mid.tasks|
    requires Runs(mid, steps, end, k, d, stage', course)
    requires match stage
      case Entry => step.Advance? && stage' == Beginning
      case Beginning => step.Advance? && stage' == Body
      case Body => stage' == Body && |st.tasks[k].held| == |mid.tasks[k].held|
    ensures Runs(st, [step] + steps, end, k, d, stage, course)
  {
    var all := [step] + steps;
    assert all[1..] == steps && all[1..][..|all| - 1] == steps && all[..|all|] == all;
    GoesOn(st, all, |all|, k, d, stage, stage', course);
  }

  lemma {:induction false} ExitRun(c: Context, st: State, k: nat, before: seq<Op>, closeOk: bool)
    returns (steps: seq<Step>, todo: seq<Op>)
    requires Present(st, k) && before != [] && before[0] == Release
    ensures Runs(Holding(c, st, k, before), steps, Out(c, st, k, todo, if closeOk then 0 else 1), k, c.Depth(),
                 Body, Left(closeOk))
  {
    var last := if closeOk then Advance(k) else CloseFails(k);
    todo := if closeOk then before[1..] else Releases(|c.held|);
    var end := Out(c, st, k, todo, if closeOk then 0 else 1);
    ExitMoves(c, st, k, before);
    RunsOut(Holding(c, st, k, before), last, end, k, c.Depth(), Body, Left(closeOk));
    steps := [last];
  }

  lemma {:induction false} BodyRun(limits: map<Sem, nat>, c: Context, st: State, k: nat, closeOk: bool)
    returns (steps: seq<Step>, todo: seq<Op>)
    requires c.Ok(limits) && Present(st, k)
    ensures Runs(Holding(c, st, k, c.body + [Release] + c.rest), steps,
                 Out(c, st, k, todo, if closeOk then 0 else 1), k, c.Depth(), Body, Left(closeOk))
  {
    var before := if c.body == [] then [Release] + c.rest else Releases(|c.held| + 1);
    ReleasesTail(|c.held| + 1);
    steps, todo := ExitRun(c, st, k, before, closeOk);
    var end := Out(c, st, k, todo, if closeOk then 0 else 1);
    if c.body == [] {
      assert c.body + [Release] + c.rest == before;
    } else {
      RaiseMoves(limits, c, st, k);
      RunsOn(Holding(c, st, k, c.body + [Release] + c.rest), Unwind(k), Holding(c, st, k, before), steps, end,
             k, c.Depth(), Body, Body, Left(closeOk));
      steps := [Unwind(k)] + steps;
    }
  }

  lemma {:induction false} EnteredRun(limits: map<Sem, nat>, c: Context, st: State, k: nat, course: Course)
    returns (steps: seq<Step>, todo: seq<Op>)
    requires c.Ok(limits) && Present(st, k) && !course.NeverEntered?
    ensures Runs(Holding(c, st, k, [Begin] + c.body + [Release] + c.rest), steps,
                 Out(c, st, k, todo, LeaksOn(course)), k, c.Depth(), Beginning, course)
  {
    var begun := Holding(c, st, k, [Begin] + c.body + [Release] + c.rest);
    BeginMoves(c, st, k);
    if course.EntryFailed? {
      todo := Releases(|c.held|);
      RunsOut(begun, EnterFails(k), Out(c, st, k, todo, 1), k, c.Depth(), Beginning, course);
      steps := [EnterFails(k)];
    } else {
      steps, todo := BodyRun(limits, c, st, k, course.closeOk);
      RunsOn(begun, Advance(k), Holding(c, st, k, c.body + [Release] + c.rest), steps,
             Out(c, st, k, todo, LeaksOn(course)), k, c.Depth(), Beginning, Body, course);
      steps := [Advance(k)] + steps;
    }
  }

  /** And every fate of the statements has such a run, which moves the pools as they do: one permit fewer,
      and counted as lost, exactly when Session.Leaks holds. */
  lemma {:induction false} FateIsARun(limits: map<Sem, nat>, c: Context, st: State, k: nat, f: Fate)
    returns (steps: seq<Step>, todo: seq<Op>)
    requires c.Ok(limits) && Present(st, k) && AtEntry(c, st.tasks[k]) && st.free[Db] > 0
    ensures var lost := if f.Leaks() then 1 else 0;
      && Path(st, steps, Out(c, st, k, todo, lost))
      && Takes(st, steps, k, c.Depth(), Entry, CourseOf(f)) && OwnLeaks(st, steps, k, c.Depth()) == lost
  {
    FatesAndCourses(f);
    EntryMoves(limits, c, st, k);
    var course, begun := CourseOf(f), Holding(c, st, k, [Begin] + c.body + [Release] + c.rest);
    if course.NeverEntered? {
      todo := Releases(|c.held|);
      RunsOut(st, Unwind(k), Out(c, st, k, todo, 0), k, c.Depth(), Entry, course);
      steps := [Unwind(k)];
    } else {
      steps, todo := EnteredRun(limits, c, st, k, course);
      RunsOn(st, Advance(k), begun, steps, Out(c, st, k, todo, LeaksOn(course)), k, c.Depth(),
             Entry, Beginning, course);
      steps := [Advance(k)] + steps;
    }
  }
}
