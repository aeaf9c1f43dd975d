/** Progress of the tasks of Permits.dfy: what is left to do, who can always move, and what a leaked pool
    does to those who wait for it. */
module Liveness {
  import opened Permits

  ghost function Work(tasks: seq<Task>): nat {
    if tasks == [] then 0 else |tasks[0].todo| + Work(tasks[1..])
  }

  lemma {:induction false} WorkUpdate(tasks: seq<Task>, i: nat, t: Task)
    requires i < |tasks|
    ensures Work(tasks[i := t]) == Work(tasks) - |tasks[i].todo| + |t.todo|
  {
    if i > 0 {
      WorkUpdate(tasks[1..], i - 1, t);
      assert tasks[i := t][1..] == tasks[1..][i - 1 := t];
    } else {
      assert tasks[i := t][1..] == tasks[1..];
    }
  }

  /** Every step of any kind uses up work, so no run is longer than the programs it started from. */
  lemma {:induction false} Terminates(limits: map<Sem, nat>, st: State, steps: seq<Step>, end: State)
    requires Inv(limits, st) && Path(st, steps, end)
    ensures |steps| + Work(end.tasks) <= Work(st.tasks)
    decreases |steps|
  {
    if steps != [] {
      var st' := Next(st, steps[0]);
      StepTask(limits, st, steps[0]);
      WorkUpdate(st.tasks, steps[0].task, st'.tasks[steps[0].task]);
      StepInv(limits, st, steps[0]);
      Terminates(limits, st', steps[1..], end);
    }
  }

  ghost predicate Wants(t: Task, s: Sem) { t.todo != [] && t.todo[0].Acquire? && t.todo[0].sem == s }

  /** Among the unfinished tasks, all of them waiting, one whose wanted semaphore ranks highest. */
  lemma {:induction false} HighestWaiter(tasks: seq<Task>, n: nat) returns (k: nat)
    requires n <= |tasks|
    requires exists i :: 0 <= i < n && tasks[i].todo != []
    requires forall i :: 0 <= i < n && tasks[i].todo != [] ==> tasks[i].todo[0].Acquire?
    ensures k < n && tasks[k].todo != []
    ensures forall i :: 0 <= i < n && tasks[i].todo != [] ==> Rank(tasks[i].todo[0].sem) <= Rank(tasks[k].todo[0].sem)
  {
    var m := n - 1;
    if exists i :: 0 <= i < m && tasks[i].todo != [] {
      k := HighestWaiter(tasks, m);
      if tasks[m].todo != [] && Rank(tasks[k].todo[0].sem) < Rank(tasks[m].todo[0].sem) {
        k := m;
      }
    } else {
      k := m;
    }
  }

  /** A task that holds s can either release something now or is waiting for a higher rank. */
  lemma {:induction false} HolderWantsHigher(limits: map<Sem, nat>, t: Task, s: Sem)
    requires TaskOk(limits, t) && HeldIn(t.held, s) > 0
    ensures t.todo != []
    ensures t.todo[0].Acquire? ==> Rank(s) < Rank(t.todo[0].sem)
  {
    var h := HeldInMember(t.held, s);
  }

  /** Deadlock freedom: while no pool has leaked away entirely, some unfinished task can take its
      next step, without anyone being cancelled. */
  lemma {:induction false} Progress(limits: map<Sem, nat>, st: State) returns (k: nat)
    requires Inv(limits, st)
    requires forall s :: s in limits ==> st.lost[s] < limits[s]
    requires exists i :: 0 <= i < |st.tasks| && st.tasks[i].todo != []
    ensures Enabled(st, Advance(k))
  {
    if i :| 0 <= i < |st.tasks| && st.tasks[i].todo != [] && !st.tasks[i].todo[0].Acquire? {
      assert TaskOk(limits, st.tasks[i]);
      k := i;
    } else {
      k := HighestWaiter(st.tasks, |st.tasks|);
      assert TaskOk(limits, st.tasks[k]);
      var s := st.tasks[k].todo[0].sem;
      if st.free[s] == 0 {
        var u := HolderExists(st.tasks, s);
        HolderWantsHigher(limits, st.tasks[u], s);
        assert false;
      }
    }
  }

  /** The condition is needed: once a pool has leaked away, whoever wants it waits for ever, whatever
      else runs; only being unwound gets it off the list. */
  lemma {:induction false} LeakedPoolStrands(limits: map<Sem, nat>, st: State, steps: seq<Step>, end: State, k: nat,
                                             s: Sem)
    requires Inv(limits, st) && Path(st, steps, end) && k < |st.tasks| && s in limits
    requires st.lost[s] == limits[s] && Wants(st.tasks[k], s)
    requires forall i :: 0 <= i < |steps| ==> steps[i] != Unwind(k)
    ensures k < |end.tasks| && end.tasks[k] == st.tasks[k] && !Enabled(end, Advance(k))
    decreases |steps|
  {
    if steps != [] {
      var st' := Next(st, steps[0]);
      StepInv(limits, st, steps[0]);
      assert st'.lost[s] == limits[s] by {
        StepLedger(limits, st, steps[0], s);
      }
      LeakedPoolStrands(limits, st', steps[1..], end, k, s);
    }
  }

  const ONE: map<Sem, nat> := map[Db := 1]
  const WRITE: seq<Op> := [Acquire(Db, true), Begin, Release]
  const BY_HAND := [Held(Db, true)]

  lemma {:induction false} WriteIsDisciplined()
    ensures Disciplined(ONE, [], WRITE)
  {
    assert WRITE[1..] == [Begin, Release] && [Begin, Release][1..] == [Release] && [Release][1..] == [];
    assert [] + BY_HAND == BY_HAND && BY_HAND[..0] == [];
    assert Disciplined(ONE, [], []);
    assert Disciplined(ONE, BY_HAND, [Release]);
    assert Disciplined(ONE, BY_HAND, [Begin, Release]);
  }

  const FREE := State(map[Db := 1], map[Db := 0], [Task([], WRITE), Task([], WRITE)])
  const ENTERED := State(map[Db := 0], map[Db := 0], [Task(BY_HAND, [Begin, Release]), Task([], WRITE)])
  const LEAKED := State(map[Db := 0], map[Db := 1], [Task([], []), Task([], WRITE)])

  lemma {:induction false} FirstEnters()
    ensures Enabled(FREE, Advance(0)) && Next(FREE, Advance(0)) == ENTERED
  {
    assert WRITE[1..] == [Begin, Release] && [] + BY_HAND == BY_HAND;
    assert Next(FREE, Advance(0)).tasks == ENTERED.tasks;
  }

  lemma {:induction false} FirstLeaks()
    ensures Enabled(ENTERED, EnterFails(0)) && Next(ENTERED, EnterFails(0)) == LEAKED
  {
    assert BY_HAND[..0] == [] && Releases(0) == [];
    assert Next(ENTERED, EnterFails(0)).tasks == LEAKED.tasks;
  }

  lemma {:induction false} LeakedRun()
    ensures Path(FREE, [Advance(0), EnterFails(0)], LEAKED)
  {
    FirstEnters();
    FirstLeaks();
    var steps := [Advance(0), EnterFails(0)];
    assert steps[1..] == [EnterFails(0)] && steps[1..][1..] == [];
    assert Path(LEAKED, [], LEAKED);
    assert Path(ENTERED, steps[1..], LEAKED);
  }

  /** One lost permit is enough when the pool has one: a UnitOfWork that fails on entry leaves the
      next caller waiting with no task able to move. */
  lemma {:induction false} OneLeakDeadlocks() returns (st: State, steps: seq<Step>, end: State)
    ensures Initial(ONE, st) && Path(st, steps, end)
    ensures |end.tasks| == 2 && end.tasks[1].todo != [] && forall k: nat :: !Enabled(end, Advance(k))
  {
    st, steps, end := FREE, [Advance(0), EnterFails(0)], LEAKED;
    WriteIsDisciplined();
    LeakedRun();
  }
}
