/** run_cpu_bound: callers take a CPU permit and hand a job to a thread pool with as many workers as
    there are permits. A cancelled caller gives its permit back at once; its thread cannot be stopped. */
module Executor {
  import Counting

  datatype Caller = Waiting | Awaiting | Gone

  /** A queued job can still be cancelled with its future; a running one cannot. */
  datatype Job = NotSubmitted | Queued | Running | Finished | Dropped

  datatype Slot = Slot(caller: Caller, job: Job)

  datatype State = State(permits: int, slots: seq<Slot>)

  datatype Step = Submit(i: nat) | Start(i: nat) | Finish(i: nat) | Resume(i: nat) | Cancel(i: nat)

  function Holders(st: State): set<int> { set i: int | 0 <= i < |st.slots| && st.slots[i].caller.Awaiting? }
  function Busy(st: State): set<int> { set i: int | 0 <= i < |st.slots| && st.slots[i].job.Running? }
  function InQueue(st: State): set<int> { set i: int | 0 <= i < |st.slots| && st.slots[i].job.Queued? }

  /** Jobs that occupy the pool: running on a thread or waiting for one. */
  function Live(st: State): set<int> { Busy(st) + InQueue(st) }

  predicate Enabled(n: nat, st: State, step: Step) {
    step.i < |st.slots| &&
    var s := st.slots[step.i];
    match step
    case Submit(_) => s.caller.Waiting? && st.permits > 0
    case Start(_) => s.job.Queued? && |Busy(st)| < n
    case Finish(_) => s.job.Running?
    case Resume(_) => s.caller.Awaiting? && s.job.Finished?
    case Cancel(_) => !s.caller.Gone?
  }

  function Next(st: State, step: Step): State
    requires step.i < |st.slots|
  {
    var i, s := step.i, st.slots[step.i];
    match step
    case Submit(_) => State(st.permits - 1, st.slots[i := Slot(Awaiting, Queued)])
    case Start(_) => State(st.permits, st.slots[i := s.(job := Running)])
    case Finish(_) => State(st.permits, st.slots[i := s.(job := Finished)])
    case Resume(_) => State(st.permits + 1, st.slots[i := s.(caller := Gone)])
    case Cancel(_) =>
      State(if s.caller.Awaiting? then st.permits + 1 else st.permits,
            st.slots[i := Slot(Gone, if s.job.Queued? then Dropped else s.job)])
  }

  ghost predicate Path(n: nat, st: State, steps: seq<Step>, end: State)
    decreases |steps|
  {
    if steps == [] then end == st
    else Enabled(n, st, steps[0]) && Path(n, Next(st, steps[0]), steps[1..], end)
  }

  function Fresh(n: nat, callers: nat): State { State(n, seq(callers, _ => Slot(Waiting, NotSubmitted))) }

  ghost predicate SlotOk(s: Slot) {
    && (s.job.Queued? ==> s.caller.Awaiting?)
    && (s.caller.Waiting? ==> s.job.NotSubmitted?)
  }

  ghost predicate Inv(n: nat, st: State) {
    && st.permits >= 0 && st.permits + |Holders(st)| == n
    && |Busy(st)| <= n
    && forall i :: 0 <= i < |st.slots| ==> SlotOk(st.slots[i])
  }

  lemma {:induction false} StepSets(st: State, step: Step)
    requires step.i < |st.slots|
    ensures var i, st' := step.i, Next(st, step);
      && Holders(st') == (if st'.slots[i].caller.Awaiting? then Holders(st) + {i} else Holders(st) - {i})
      && Busy(st') == (if st'.slots[i].job.Running? then Busy(st) + {i} else Busy(st) - {i})
  {
  }

  lemma {:induction false} StepSlot(n: nat, st: State, step: Step)
    requires Inv(n, st) && Enabled(n, st, step)
    ensures SlotOk(Next(st, step).slots[step.i])
  {
    assert SlotOk(st.slots[step.i]);
  }

  lemma {:induction false} StepPermits(n: nat, st: State, step: Step)
    requires Inv(n, st) && Enabled(n, st, step)
    ensures Next(st, step).permits >= 0 && Next(st, step).permits + |Holders(Next(st, step))| == n
  {
    StepSets(st, step);
    assert step.i in Holders(st) <==> st.slots[step.i].caller.Awaiting?;
  }

  lemma {:induction false} StepBusy(n: nat, st: State, step: Step)
    requires Inv(n, st) && Enabled(n, st, step)
    ensures |Busy(Next(st, step))| <= n
  {
    StepSets(st, step);
    assert step.i in Busy(st) <==> st.slots[step.i].job.Running?;
  }

  lemma {:induction false} StepInv(n: nat, st: State, step: Step)
    requires Inv(n, st) && Enabled(n, st, step)
    ensures Inv(n, Next(st, step))
  {
    StepSlot(n, st, step);
    StepPermits(n, st, step);
    StepBusy(n, st, step);
  }

  lemma {:induction false} PathInv(n: nat, st: State, steps: seq<Step>, end: State)
    requires Inv(n, st) && Path(n, st, steps, end)
    ensures Inv(n, end)
    decreases |steps|
  {
    if steps != [] {
      StepInv(n, st, steps[0]);
      PathInv(n, Next(st, steps[0]), steps[1..], end);
    }
  }

  lemma {:induction false} FreshInv(n: nat, callers: nat)
    ensures Inv(n, Fresh(n, callers))
  {
    assert Holders(Fresh(n, callers)) == {} && Busy(Fresh(n, callers)) == {};
  }

  /** With cancellations: at most n threads run, every job still queued has a caller holding a
      permit, so the pool never carries more than twice the limit; and the permits add up. */
  lemma {:induction false} LoadUnderCancellation(n: nat, callers: nat, steps: seq<Step>, end: State)
    requires Path(n, Fresh(n, callers), steps, end)
    ensures |Busy(end)| <= n && InQueue(end) <= Holders(end)
    ensures |Live(end)| <= 2 * n
    ensures end.permits + |Holders(end)| == n
  {
    FreshInv(n, callers);
    PathInv(n, Fresh(n, callers), steps, end);
    forall i | i in InQueue(end) ensures i in Holders(end) { assert SlotOk(end.slots[i]); }
    Counting.SubsetSize(InQueue(end), Holders(end));
    assert Busy(end) !! InQueue(end);
  }

  // ---------------------------------------------------------------- the pool drains

  /** Nothing is left to do but perhaps to cancel someone. */
  ghost predicate Stuck(n: nat, st: State) {
    forall step: Step :: Enabled(n, st, step) ==> step.Cancel?
  }

  ghost predicate SlotMoves(s: Slot) { s.caller.Awaiting? ==> !s.job.NotSubmitted? && !s.job.Dropped? }

  lemma {:induction false} StaysMoving(n: nat, st: State, steps: seq<Step>, end: State)
    requires Inv(n, st) && Path(n, st, steps, end)
    requires forall i :: 0 <= i < |st.slots| ==> SlotMoves(st.slots[i])
    ensures |end.slots| == |st.slots| && forall i :: 0 <= i < |end.slots| ==> SlotMoves(end.slots[i])
    decreases |steps|
  {
    if steps != [] {
      assert SlotOk(st.slots[steps[0].i]) && SlotMoves(st.slots[steps[0].i]);
      StepInv(n, st, steps[0]);
      StaysMoving(n, Next(st, steps[0]), steps[1..], end);
    }
  }

  /** A run that cannot go on has served everyone: no caller waits, no job is live, every permit is back. */
  lemma {:induction false} DrainsCompletely(n: nat, callers: nat, steps: seq<Step>, end: State)
    requires n > 0 && Path(n, Fresh(n, callers), steps, end) && Stuck(n, end)
    ensures forall i :: 0 <= i < |end.slots| ==> end.slots[i].caller.Gone?
    ensures Live(end) == {} && end.permits == n
  {
    FreshInv(n, callers);
    PathInv(n, Fresh(n, callers), steps, end);
    StaysMoving(n, Fresh(n, callers), steps, end);
    assert Busy(end) == {} by {
      forall i: nat | i < |end.slots| ensures !end.slots[i].job.Running? { assert !Enabled(n, end, Finish(i)); }
    }
    forall i: nat | i < |end.slots| ensures !end.slots[i].job.Queued? && !end.slots[i].caller.Awaiting? {
      assert !Enabled(n, end, Start(i)) && !Enabled(n, end, Resume(i)) && |Busy(end)| == 0 && i !in Busy(end);
      assert SlotOk(end.slots[i]) && SlotMoves(end.slots[i]);
    }
    assert Holders(end) == {};
    forall i: nat | i < |end.slots| ensures end.slots[i].caller.Gone? { assert !Enabled(n, end, Submit(i)); }
  }

  ghost function Weight(s: Slot): nat {
    (match s.caller case Waiting => 5 case Awaiting => 1 case Gone => 0)
    + (match s.job case Queued => 2 case Running => 1 case _ => 0)
  }

  ghost function Left(slots: seq<Slot>): nat { if slots == [] then 0 else Weight(slots[0]) + Left(slots[1..]) }

  lemma {:induction false} LeftUpdate(slots: seq<Slot>, i: nat, s: Slot)
    requires i < |slots|
    ensures Left(slots[i := s]) == Left(slots) - Weight(slots[i]) + Weight(s)
  {
    if i > 0 {
      assert slots[i := s][1..] == slots[1..][i - 1 := s];
      LeftUpdate(slots[1..], i - 1, s);
    } else {
      assert slots[i := s][1..] == slots[1..];
    }
  }

  /** And no run goes on for ever. */
  lemma {:induction false} Terminates(n: nat, st: State, steps: seq<Step>, end: State)
    requires Inv(n, st) && Path(n, st, steps, end)
    ensures |steps| + Left(end.slots) <= Left(st.slots)
    decreases |steps|
  {
    if steps != [] {
      var i, st' := steps[0].i, Next(st, steps[0]);
      assert SlotOk(st.slots[i]);
      LeftUpdate(st.slots, i, st'.slots[i]);
      StepInv(n, st, steps[0]);
      Terminates(n, st', steps[1..], end);
    }
  }

  // ---------------------------------------------------------------- when a permit stands for a job

  /** Every live job has a caller that holds a permit for it. */
  ghost predicate Attended(st: State) { Live(st) <= Holders(st) }

  ghost predicate AlwaysAttended(n: nat, st: State, steps: seq<Step>)
    decreases |steps|
  {
    Attended(st)
    && (steps != [] && Enabled(n, st, steps[0]) ==> AlwaysAttended(n, Next(st, steps[0]), steps[1..]))
  }

  /** No caller is cancelled while its job is running on a thread. */
  ghost predicate NoneOrphaned(n: nat, st: State, steps: seq<Step>)
    decreases |steps|
  {
    steps != [] && Enabled(n, st, steps[0]) ==>
      && !(steps[0].Cancel? && st.slots[steps[0].i].job.Running?)
      && NoneOrphaned(n, Next(st, steps[0]), steps[1..])
  }

  lemma {:induction false} StepAttended(n: nat, st: State, step: Step)
    requires Inv(n, st) && Enabled(n, st, step) && Attended(st)
    ensures Attended(Next(st, step)) <==> !(step.Cancel? && st.slots[step.i].job.Running?)
  {
    var st' := Next(st, step);
    assert SlotOk(st.slots[step.i]);
    assert step.i in Live(st) <==> st.slots[step.i].job.Running? || st.slots[step.i].job.Queued?;
    assert step.i in Live(st') <==> st'.slots[step.i].job.Running? || st'.slots[step.i].job.Queued?;
    forall i | i in Live(st') && i != step.i ensures i in Holders(st') { assert i in Live(st); }
  }

  /** Permits stand for live jobs in every state of a run exactly when no caller is cancelled while its
      job runs: cancelling a waiting caller, or one whose job is still queued, does no harm. */
  lemma {:induction false} PermitsTrackJobs(n: nat, st: State, steps: seq<Step>, end: State)
    requires Inv(n, st) && Attended(st) && Path(n, st, steps, end)
    ensures AlwaysAttended(n, st, steps) <==> NoneOrphaned(n, st, steps)
    ensures NoneOrphaned(n, st, steps) ==> Inv(n, end) && Attended(end)
    decreases |steps|
  {
    if steps != [] {
      var st' := Next(st, steps[0]);
      StepInv(n, st, steps[0]);
      StepAttended(n, st, steps[0]);
      if Attended(st') {
        PermitsTrackJobs(n, st', steps[1..], end);
      }
    }
  }

  /** In such runs the semaphore does what it is for: never more live jobs than permits, so a submitted
      job always finds an idle worker and none has to queue. */
  lemma {:induction false} LoadWithoutOrphans(n: nat, callers: nat, steps: seq<Step>, end: State)
    requires Path(n, Fresh(n, callers), steps, end)
    ensures AlwaysAttended(n, Fresh(n, callers), steps) <==> NoneOrphaned(n, Fresh(n, callers), steps)
    ensures NoneOrphaned(n, Fresh(n, callers), steps) ==>
              |Live(end)| <= n && forall i: nat :: i in InQueue(end) ==> Enabled(n, end, Start(i))
  {
    FreshInv(n, callers);
    PermitsTrackJobs(n, Fresh(n, callers), steps, end);
    if NoneOrphaned(n, Fresh(n, callers), steps) {
      Counting.SubsetSize(Live(end), Holders(end));
      forall i: nat | i in InQueue(end) ensures Enabled(n, end, Start(i)) {
        Counting.SubsetSize(Busy(end) + {i}, Live(end));
      }
    }
  }

  lemma {:induction false} UncancelledOrphansNone(n: nat, st: State, steps: seq<Step>)
    requires forall k :: 0 <= k < |steps| ==> !steps[k].Cancel?
    ensures NoneOrphaned(n, st, steps)
    decreases |steps|
  {
    if steps != [] && Enabled(n, st, steps[0]) {
      UncancelledOrphansNone(n, Next(st, steps[0]), steps[1..]);
    }
  }

  /** In particular while nobody is cancelled at all. */
  lemma {:induction false} LoadWithoutCancellation(n: nat, callers: nat, steps: seq<Step>, end: State)
    requires Path(n, Fresh(n, callers), steps, end)
    requires forall k :: 0 <= k < |steps| ==> !steps[k].Cancel?
    ensures |Live(end)| <= n
    ensures forall i: nat :: i in InQueue(end) ==> Enabled(n, end, Start(i))
  {
    UncancelledOrphansNone(n, Fresh(n, callers), steps);
    LoadWithoutOrphans(n, callers, steps, end);
  }

  // ---------------------------------------------------------------- the factor two is reached

  lemma {:induction false} Append(n: nat, st: State, steps: seq<Step>, mid: State, step: Step)
    requires Path(n, st, steps, mid) && Enabled(n, mid, step)
    ensures Path(n, st, steps + [step], Next(mid, step))
    decreases |steps|
  {
    if steps == [] {
      assert [step][1..] == [];
      assert Path(n, Next(mid, step), [], Next(mid, step));
    } else {
      assert (steps + [step])[1..] == steps[1..] + [step];
      Append(n, Next(st, steps[0]), steps[1..], mid, step);
    }
  }

  /** The first k callers have their jobs running, the last m have gone from waiting to queued. */
  function Stage(n: nat, running: nat, cancelled: nat, queued: nat): State
    requires cancelled <= running <= n && queued <= cancelled
  {
    State(n - running + cancelled - queued,
          seq(2 * n, i => if i < cancelled then Slot(Gone, Running)
                          else if i < running then Slot(Awaiting, Running)
                          else if n <= i < n + queued then Slot(Awaiting, Queued)
                          else Slot(Waiting, NotSubmitted)))
  }

  /** One more caller has submitted its job. */
  function Submitted(n: nat, k: nat): State
    requires k < n
  {
    State(n - k - 1, seq(2 * n, i => if i < k then Slot(Awaiting, Running)
                                     else if i == k then Slot(Awaiting, Queued)
                                     else Slot(Waiting, NotSubmitted)))
  }

  lemma {:induction false} SubmitOne(n: nat, k: nat)
    requires k < n
    ensures Enabled(n, Stage(n, k, 0, 0), Submit(k)) && Next(Stage(n, k, 0, 0), Submit(k)) == Submitted(n, k)
  {
    assert Next(Stage(n, k, 0, 0), Submit(k)).slots == Submitted(n, k).slots;
  }

  lemma {:induction false} StartOne(n: nat, k: nat)
    requires k < n
    ensures Enabled(n, Submitted(n, k), Start(k)) && Next(Submitted(n, k), Start(k)) == Stage(n, k + 1, 0, 0)
  {
    assert Busy(Submitted(n, k)) == Counting.UpTo(k);
    assert Next(Submitted(n, k), Start(k)).slots == Stage(n, k + 1, 0, 0).slots;
  }

  lemma {:induction false} FillWorkers(n: nat, k: nat) returns (steps: seq<Step>)
    requires k <= n
    ensures Path(n, Fresh(n, 2 * n), steps, Stage(n, k, 0, 0))
  {
    if k == 0 {
      steps := [];
      assert Fresh(n, 2 * n).slots == Stage(n, 0, 0, 0).slots;
    } else {
      steps := FillWorkers(n, k - 1);
      SubmitOne(n, k - 1);
      StartOne(n, k - 1);
      Append(n, Fresh(n, 2 * n), steps, Stage(n, k - 1, 0, 0), Submit(k - 1));
      Append(n, Fresh(n, 2 * n), steps + [Submit(k - 1)], Submitted(n, k - 1), Start(k - 1));
      steps := steps + [Submit(k - 1)] + [Start(k - 1)];
    }
  }

  lemma {:induction false} CancelCallers(n: nat, k: nat) returns (steps: seq<Step>)
    requires k <= n
    ensures Path(n, Fresh(n, 2 * n), steps, Stage(n, n, k, 0))
  {
    if k == 0 {
      steps := FillWorkers(n, n);
    } else {
      steps := CancelCallers(n, k - 1);
      var a := Stage(n, n, k - 1, 0);
      Append(n, Fresh(n, 2 * n), steps, a, Cancel(k - 1));
      assert Next(a, Cancel(k - 1)) == Stage(n, n, k, 0);
      steps := steps + [Cancel(k - 1)];
    }
  }

  lemma {:induction false} Refill(n: nat, k: nat) returns (steps: seq<Step>)
    requires k <= n
    ensures Path(n, Fresh(n, 2 * n), steps, Stage(n, n, n, k))
  {
    if k == 0 {
      steps := CancelCallers(n, n);
    } else {
      steps := Refill(n, k - 1);
      var a := Stage(n, n, n, k - 1);
      Append(n, Fresh(n, 2 * n), steps, a, Submit(n + k - 1));
      assert Next(a, Submit(n + k - 1)) == Stage(n, n, n, k);
      steps := steps + [Submit(n + k - 1)];
    }
  }

  /** Twice the limit is not slack: for every limit some run gets there. */
  lemma {:induction false} FactorTwoIsReached(n: nat) returns (steps: seq<Step>, end: State)
    ensures Path(n, Fresh(n, 2 * n), steps, end)
    ensures |Live(end)| == 2 * n && |InQueue(end)| == n
  {
    steps := Refill(n, n);
    end := Stage(n, n, n, n);
    FullLoad(n);
  }

  lemma {:induction false} FullLoad(n: nat)
    ensures |Live(Stage(n, n, n, n))| == 2 * n && |InQueue(Stage(n, n, n, n))| == n
  {
    var end := Stage(n, n, n, n);
    assert Busy(end) == Counting.UpTo(n);
    assert InQueue(end) == Counting.UpTo(2 * n) - Counting.UpTo(n);
    Counting.SubsetSize(Counting.UpTo(n), Counting.UpTo(2 * n));
    assert Counting.UpTo(2 * n) == Counting.UpTo(n) + (Counting.UpTo(2 * n) - Counting.UpTo(n));
    assert Live(end) == Counting.UpTo(2 * n);
  }
}
