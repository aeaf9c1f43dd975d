/** BackgroundTaskSupervisor: strong references to spawned tasks, one log line per failure, and a
    close that cancels what is left. The event loop runs a task's done callback some time after the
    task has settled. */
module Supervisor {

  datatype Status = Pending | Succeeded | Failed | Cancelled

  /** Progress of aclose; the set is the list of tasks it took and cancelled. Overdue: the grace period
      is over, wait_for has cancelled the gather and waits until it is really done. */
  datatype Closing =
    | NotClosing
    | Draining(pending: set<nat>)
    | Overdue(pending: set<nat>)
    | Returned(pending: set<nat>, late: bool)
  {
    predicate Waiting() { Draining? || Overdue? }
  }

  /** `tasks`, `closed` and `errors` belong to the supervisor and its logger; `status` (of every task it
      created), `callbacks` (scheduled, not yet run), `asked` and `askedAgain` (cancel requested, and once
      more) to the loop. */
  datatype State = State(tasks: set<nat>, closed: bool, errors: seq<nat>, status: map<nat, Status>,
                         callbacks: set<nat>, asked: set<nat>, askedAgain: set<nat>, closing: Closing)

  datatype Step =
    | Spawn(task: nat)
    | Settle(task: nat, outcome: Status)
    | OnDone(task: nat)
    | BeginClose
    | GatherDone
    | GraceOver

  const EMPTY := State({}, false, [], map[], {}, {}, {}, NotClosing)

  /** The done callback of t has run. */
  predicate Reaped(st: State, t: nat) {
    t in st.status && !st.status[t].Pending? && t !in st.callbacks
  }

  /** The tasks aclose waits for that are still running. */
  function Unsettled(st: State): set<nat>
    requires !st.closing.NotClosing?
  {
    set t | t in st.closing.pending && t in st.status && st.status[t].Pending?
  }

  predicate Enabled(st: State, step: Step) {
    match step
    case Spawn(t) => t !in st.status
    case Settle(t, outcome) => t in st.status && st.status[t].Pending? && !outcome.Pending?
    case OnDone(t) => t in st.callbacks && t in st.status
    case BeginClose => !st.closing.Waiting()
    // with return_exceptions the gather is done when every child is, cancelled or not; its own callback
    // on a task comes after the supervisor's, which was added first
    case GatherDone => st.closing.Waiting() && forall t :: t in st.closing.pending ==> Reaped(st, t)
    case GraceOver => st.closing.Draining?
  }

  function Next(st: State, step: Step): State
    requires Enabled(st, step)
  {
    match step
    case Spawn(t) =>
      if st.closed then st
      else st.(tasks := st.tasks + {t}, status := st.status[t := Pending])
    case Settle(t, outcome) =>
      st.(status := st.status[t := outcome], callbacks := st.callbacks + {t})
    case OnDone(t) =>
      st.(tasks := st.tasks - {t}, callbacks := st.callbacks - {t},
          errors := if st.status[t].Failed? then st.errors + [t] else st.errors)
    case BeginClose =>
      st.(closed := true, asked := st.asked + st.tasks,
          closing := if st.tasks == {} then Returned({}, false) else Draining(st.tasks))
    case GatherDone => st.(closing := Returned(st.closing.pending, st.closing.Overdue?))
    case GraceOver =>
      st.(askedAgain := st.askedAgain + Unsettled(st), closing := Overdue(st.closing.pending))
  }

  ghost predicate Path(st: State, steps: seq<Step>, end: State)
    decreases |steps|
  {
    if steps == [] then end == st
    else Enabled(st, steps[0]) && Path(Next(st, steps[0]), steps[1..], end)
  }

  ghost predicate Inv(st: State) {
    && (forall t :: t in st.tasks <==> t in st.status && !Reaped(st, t))
    && (forall t :: t in st.callbacks ==> t in st.status && !st.status[t].Pending?)
    && (forall i, j :: 0 <= i < j < |st.errors| ==> st.errors[i] != st.errors[j])
    && (forall t :: t in st.errors <==> Reaped(st, t) && st.status[t].Failed?)
    && (!st.closing.NotClosing? ==> st.closed && st.tasks <= st.closing.pending <= st.asked)
    && (st.closing.Returned? ==> st.tasks == {})
    && (!st.closing.NotClosing? ==> st.closing.pending <= st.status.Keys)
    && (st.closed ==> !st.closing.NotClosing?)
  }

  lemma {:induction false} StepInv(st: State, step: Step)
    requires Inv(st) && Enabled(st, step)
    ensures Inv(Next(st, step))
  {
    var st' := Next(st, step);
    match step
    case Spawn(t) =>
    case Settle(t, outcome) =>
      forall u | u in st'.status ensures Reaped(st', u) <==> Reaped(st, u) { }
    case OnDone(t) =>
      forall u | u in st'.status && u != t ensures Reaped(st', u) <==> Reaped(st, u) { }
      assert Reaped(st', t) && !Reaped(st, t);
      if st.status[t].Failed? {
        forall u ensures u in st'.errors <==> u in st.errors || u == t { }
      }
    case BeginClose =>
      forall u ensures Reaped(st', u) <==> Reaped(st, u) { }
    case GatherDone =>
      forall u ensures Reaped(st', u) <==> Reaped(st, u) { }
    case GraceOver =>
      forall u ensures Reaped(st', u) <==> Reaped(st, u) { }
  }

  lemma {:induction false} PathInv(st: State, steps: seq<Step>, end: State)
    requires Inv(st) && Path(st, steps, end)
    ensures Inv(end)
    decreases |steps|
  {
    if steps != [] {
      StepInv(st, steps[0]);
      PathInv(Next(st, steps[0]), steps[1..], end);
    }
  }

  /** In every run the supervisor holds exactly the tasks it created whose done callback has not run,
      and the log names exactly the failed tasks whose callback has, each once. */
  lemma {:induction false} TracksExactly(steps: seq<Step>, end: State)
    requires Path(EMPTY, steps, end)
    ensures end.tasks == set t | t in end.status && !Reaped(end, t)
    ensures forall t :: t in end.status ==>
              multiset(end.errors)[t] == if Reaped(end, t) && end.status[t].Failed? then 1 else 0
  {
    PathInv(EMPTY, steps, end);
    forall t | t in end.status
      ensures multiset(end.errors)[t] == if Reaped(end, t) && end.status[t].Failed? then 1 else 0
    {
      DistinctOnce(end.errors, t);
    }
  }

  lemma {:induction false} DistinctOnce(s: seq<nat>, t: nat)
    requires forall i, j :: 0 <= i < j < |s| ==> s[i] != s[j]
    ensures multiset(s)[t] == if t in s then 1 else 0
  {
    if s != [] {
      assert s == [s[0]] + s[1..];
      DistinctOnce(s[1..], t);
    }
  }

  /** Whatever way a held task ends, the loop can report it: it leaves, and is logged exactly if it failed. */
  lemma {:induction false} EveryEndIsReported(st: State, t: nat, outcome: Status)
    requires t in st.status && st.status[t].Pending? && !outcome.Pending?
    ensures Enabled(st, Settle(t, outcome)) && Enabled(Next(st, Settle(t, outcome)), OnDone(t))
    ensures var st' := Next(Next(st, Settle(t, outcome)), OnDone(t));
      && st'.tasks == st.tasks - {t} && st'.status == st.status[t := outcome]
      && st'.errors == if outcome == Failed then st.errors + [t] else st.errors
  {
  }

  /** Once closing has begun nothing joins any more: the tasks only shrink, inside what was cancelled. */
  lemma {:induction false} OnlyShrinks(st: State, steps: seq<Step>, end: State)
    requires Inv(st) && st.closed && Path(st, steps, end)
    ensures end.closed && end.tasks <= st.tasks && end.status.Keys == st.status.Keys
    ensures !end.closing.NotClosing? && end.tasks <= end.closing.pending <= end.asked
    decreases |steps|
  {
    if steps != [] {
      StepInv(st, steps[0]);
      OnlyShrinks(Next(st, steps[0]), steps[1..], end);
    }
  }

  /** However long it took, when aclose has returned nothing is held any more: every task it cancelled
      has settled and been reaped. */
  lemma {:induction false} AfterClose(steps: seq<Step>, end: State)
    requires Path(EMPTY, steps, end) && end.closing.Returned?
    ensures end.tasks == {}
    ensures forall t :: t in end.status ==> Reaped(end, t)
    ensures forall t :: t in end.closing.pending ==> t in end.asked && Reaped(end, t)
  {
    PathInv(EMPTY, steps, end);
  }

  /** While a drain is on, the loop alone can finish it: some task is still running or some callback
      is still due, unless gather may return at once. */
  lemma {:induction false} DrainCanFinish(steps: seq<Step>, end: State)
    requires Path(EMPTY, steps, end) && end.closing.Waiting()
    ensures Enabled(end, GatherDone)
         || (exists t :: t in end.closing.pending && Enabled(end, OnDone(t)))
         || (exists t :: t in end.closing.pending && Enabled(end, Settle(t, Cancelled)))
  {
    PathInv(EMPTY, steps, end);
    if !Enabled(end, GatherDone) {
      var t :| t in end.closing.pending && !Reaped(end, t);
      assert Enabled(end, OnDone(t)) || Enabled(end, Settle(t, Cancelled));
    }
  }

  // ---------------------------------------------------------------- the grace period

  /** Only callbacks run and gather returns; no task settles. */
  ghost predicate JustCallbacks(steps: seq<Step>) {
    forall k :: 0 <= k < |steps| ==> steps[k].OnDone? || steps[k].GatherDone?
  }

  /** A task that has not settled holds aclose back, for as long as it takes and grace or not. */
  lemma {:induction false} UnsettledHoldsBack(st: State, steps: seq<Step>, end: State, t: nat)
    requires Inv(st) && Path(st, steps, end) && st.closing.Waiting() && t in Unsettled(st)
    requires forall k :: 0 <= k < |steps| ==> !(steps[k].Settle? && steps[k].task == t)
    ensures end.closing.Waiting() && t in Unsettled(end) && end.closing.pending == st.closing.pending
    decreases |steps|
  {
    if steps != [] {
      StepInv(st, steps[0]);
      UnsettledHoldsBack(Next(st, steps[0]), steps[1..], end, t);
    }
  }

  lemma {:induction false} Then(st: State, step: Step, steps: seq<Step>, end: State)
    requires Enabled(st, step) && Path(Next(st, step), steps, end)
    ensures Path(st, [step] + steps, end)
  {
    assert ([step] + steps)[1..] == steps;
  }

  /** Once all have settled, callbacks that are already due let aclose return. */
  lemma {:induction false} CallbacksFinish(st: State) returns (steps: seq<Step>, end: State)
    requires Inv(st) && st.closing.Waiting() && Unsettled(st) == {}
    ensures Path(st, steps, end) && JustCallbacks(steps)
    ensures end.closing == Returned(st.closing.pending, st.closing.Overdue?)
    decreases |st.callbacks|
  {
    if t :| t in st.closing.pending && t in st.callbacks {
      var st' := Next(st, OnDone(t));
      StepInv(st, OnDone(t));
      steps, end := CallbacksFinish(st');
      Then(st, OnDone(t), steps, end);
      steps := [OnDone(t)] + steps;
    } else {
      forall t | t in st.closing.pending ensures Reaped(st, t) { assert t !in Unsettled(st) && t in st.status; }
      end := Next(st, GatherDone);
      assert Path(end, [], end);
      Then(st, GatherDone, [], end);
      steps := [GatherDone] + [];
    }
  }

  /** From here aclose returns without any further task having to settle. */
  ghost predicate ReturnsByItself(st: State) {
    exists steps, end :: Path(st, steps, end) && JustCallbacks(steps) && end.closing.Returned?
  }

  /** The grace period is kept exactly when every cancelled task has settled by its end: the deadline asks
      those that have not once more, and aclose then waits for them all the same. */
  lemma {:induction false} GraceIsExact(st: State)
    requires Inv(st) && st.closing.Draining?
    ensures ReturnsByItself(Next(st, GraceOver)) <==> Unsettled(st) == {}
    ensures Next(st, GraceOver).askedAgain >= Unsettled(st) && Next(st, GraceOver).tasks == st.tasks
  {
    var st' := Next(st, GraceOver);
    StepInv(st, GraceOver);
    if Unsettled(st) == {} {
      var steps, end := CallbacksFinish(st');
    } else {
      var t :| t in Unsettled(st);
      forall steps, end | Path(st', steps, end) && JustCallbacks(steps) ensures !end.closing.Returned? {
        UnsettledHoldsBack(st', steps, end, t);
      }
    }
  }

  /** A task that will not stop: a run in which the grace period passes and aclose goes on waiting. */
  lemma {:induction false} GraceCanPass() returns (steps: seq<Step>, end: State)
    ensures Path(EMPTY, steps, end) && end.closing.Overdue? && end.tasks == {0} && !ReturnsByItself(end)
  {
    var st1 := Next(EMPTY, Spawn(0));
    var st2 := Next(st1, BeginClose);
    end := Next(st2, GraceOver);
    assert Path(end, [], end);
    Then(st2, GraceOver, [], end);
    Then(st1, BeginClose, [GraceOver] + [], end);
    Then(EMPTY, Spawn(0), [BeginClose] + ([GraceOver] + []), end);
    steps := [Spawn(0)] + ([BeginClose] + ([GraceOver] + []));
    assert Path(st2, [], st2);
    Then(st1, BeginClose, [], st2);
    Then(EMPTY, Spawn(0), [BeginClose] + [], st2);
    PathInv(EMPTY, [Spawn(0)] + ([BeginClose] + []), st2);
    assert 0 in Unsettled(st2);
    GraceIsExact(st2);
  }

  // ---------------------------------------------------------------- the object

  class BackgroundTaskSupervisor {
    var tasks: set<nat>
    var closed: bool
    var errors: seq<nat>
    var status: map<nat, Status>
    var callbacks: set<nat>
    var asked: set<nat>
    var askedAgain: set<nat>
    var closing: Closing

    ghost function View(): State
      reads this
    {
      State(tasks, closed, errors, status, callbacks, asked, askedAgain, closing)
    }

    constructor ()
      ensures View() == EMPTY
    {
      tasks, closed, errors := {}, false, [];
      status, callbacks, asked, askedAgain, closing := map[], {}, {}, {}, NotClosing;
    }

    /** create_task gives a task nobody has seen; refused with a RuntimeError once closed. */
    method Spawn(task: nat) returns (ok: bool)
      requires Enabled(View(), Step.Spawn(task))
      modifies this
      ensures View() == Next(old(View()), Step.Spawn(task))
      ensures ok <==> !old(closed)
      ensures ok ==> task in tasks
    {
      if closed {
        return false;
      }
      status := status[task := Pending];
      tasks := tasks + {task};
      return true;
    }

    /** The done callback. */
    method OnDone(task: nat)
      requires Enabled(View(), Step.OnDone(task))
      modifies this
      ensures View() == Next(old(View()), Step.OnDone(task))
    {
      callbacks := callbacks - {task};
      tasks := tasks - {task};
      if status[task] == Cancelled {
        return;
      }
      if status[task] == Failed {
        errors := errors + [task];
      }
    }

    /** aclose up to its await: refuse newcomers, take the list, cancel its members one by one. */
    method BeginClose() returns (pending: set<nat>)
      requires Enabled(View(), Step.BeginClose)
      modifies this
      ensures View() == Next(old(View()), Step.BeginClose)
      ensures pending == old(tasks) && pending <= asked
    {
      closed := true;
      pending := tasks;
      if pending == {} {
        closing := Returned({}, false);
        return;
      }
      var rest := pending;
      while rest != {}
        invariant rest <= pending
        invariant asked == old(asked) + (pending - rest)
        invariant closed && tasks == old(tasks) && errors == old(errors) && status == old(status)
        invariant callbacks == old(callbacks) && askedAgain == old(askedAgain) && closing == old(closing)
        decreases |rest|
      {
        var task: nat :| task in rest;
        asked := asked + {task};
        rest := rest - {task};
      }
      assert asked == old(asked) + old(tasks);
      closing := Draining(pending);
    }
  }
}
