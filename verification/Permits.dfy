/** Every counting semaphore of the process at once: gather-local ones, the global pools of
    ConcurrencyLimits, and the row and unique-key locks the database takes inside a transaction.
    Tasks interleave freely, may fail or be cancelled anywhere, and a UnitOfWork may lose its permit. */
module Permits {
  import Counting

  // ---------------------------------------------------------------- tasks and steps

  datatype Sem = Local(gather: nat) | Db | Http | Cpu | RowLock(id: nat) | KeyLock(email: string)

  /** The nesting order the code keeps to. */
  function Rank(s: Sem): nat {
    match s
    case Local(_) => 0
    case Db => 1
    case Http => 1
    case Cpu => 1
    case RowLock(_) => 2
    case KeyLock(_) => 3
  }

  /** `manual` marks UnitOfWork's hand-written acquire/release; the others are `async with`. Begin is
      the rest of __aenter__, between the acquire and the body. */
  datatype Op = Acquire(sem: Sem, manual: bool) | Begin | Release

  datatype Held = Held(sem: Sem, manual: bool)

  /** A coroutine: the permits it holds, innermost last, and what it still means to do. */
  datatype Task = Task(held: seq<Held>, todo: seq<Op>)

  datatype State = State(free: map<Sem, int>, lost: map<Sem, int>, tasks: seq<Task>)

  /** Unwind: an exception, a cancellation or an early return runs the pending exits.
      EnterFails: the same inside Begin, where no exit is pending for the permit just taken.
      CloseFails: close() raises, so the release after it is skipped. */
  datatype Step = Advance(task: nat) | Unwind(task: nat) | EnterFails(task: nat) | CloseFails(task: nat) {
    predicate Leaks() { EnterFails? || CloseFails? }
  }

  function Releases(n: nat): seq<Op> { seq(n, _ => Release) }

  /** The innermost permit was taken by hand. */
  predicate HoldsManually(st: State, t: Task) {
    t.held != [] && t.held[|t.held| - 1].manual && t.held[|t.held| - 1].sem in st.lost
  }

  predicate Enabled(st: State, step: Step) {
    step.task < |st.tasks| &&
    var t := st.tasks[step.task];
    match step
    case Advance(_) =>
      t.todo != []
      && (match t.todo[0]
          case Acquire(s, _) => s in st.free && st.free[s] > 0
          case Begin => true
          case Release => t.held != [] && t.held[|t.held| - 1].sem in st.free)
    case Unwind(_) => |t.todo| > |t.held| && !t.todo[0].Begin?
    case EnterFails(_) => t.todo != [] && t.todo[0].Begin? && HoldsManually(st, t)
    case CloseFails(_) => t.todo != [] && t.todo[0].Release? && HoldsManually(st, t)
  }

  function Next(st: State, step: Step): State
    requires Enabled(st, step)
  {
    var t := st.tasks[step.task];
    match step
    case Advance(i) =>
      (match t.todo[0]
       case Acquire(s, m) =>
         st.(free := st.free[s := st.free[s] - 1],
             tasks := st.tasks[i := Task(t.held + [Held(s, m)], t.todo[1..])])
       case Begin => st.(tasks := st.tasks[i := Task(t.held, t.todo[1..])])
       case Release =>
         var s := t.held[|t.held| - 1].sem;
         st.(free := st.free[s := st.free[s] + 1],
             tasks := st.tasks[i := Task(t.held[..|t.held| - 1], t.todo[1..])]))
    case Unwind(i) =>
      st.(tasks := st.tasks[i := Task(t.held, Releases(|t.held|))])
    case _ =>
      var i, s := step.task, t.held[|t.held| - 1].sem;
      st.(lost := st.lost[s := st.lost[s] + 1],
          tasks := st.tasks[i := Task(t.held[..|t.held| - 1], Releases(|t.held| - 1))])
  }

  ghost predicate Path(st: State, steps: seq<Step>, end: State)
    decreases |steps|
  {
    if steps == [] then end == st
    else Enabled(st, steps[0]) && Path(Next(st, steps[0]), steps[1..], end)
  }

  // ---------------------------------------------------------------- the discipline

  /** What a task holds after an operation. */
  function HeldAfter(held: seq<Held>, op: Op): seq<Held> {
    match op
    case Acquire(s, m) => held + [Held(s, m)]
    case Begin => held
    case Release => if held == [] then [] else held[..|held| - 1]
  }

  /** An acquire goes strictly up the nesting order, Begin follows an acquire by hand, and there is
      something to release. */
  ghost predicate Allowed(limits: map<Sem, nat>, held: seq<Held>, op: Op) {
    match op
    case Acquire(s, _) => s in limits && forall h :: h in held ==> Rank(h.sem) < Rank(s)
    case Begin => held != [] && held[|held| - 1].manual
    case Release => held != []
  }

  /** Every operation is allowed in its turn, releases undoing acquires innermost first, and nothing is
      held at the end. */
  ghost predicate Disciplined(limits: map<Sem, nat>, held: seq<Held>, todo: seq<Op>)
    decreases |todo|
  {
    if todo == [] then held == []
    else Allowed(limits, held, todo[0]) && Disciplined(limits, HeldAfter(held, todo[0]), todo[1..])
  }

  ghost predicate Ascending(held: seq<Held>) {
    forall i, j :: 0 <= i < j < |held| ==> Rank(held[i].sem) < Rank(held[j].sem)
  }

  ghost predicate TaskOk(limits: map<Sem, nat>, t: Task) {
    Ascending(t.held) && (forall h :: h in t.held ==> h.sem in limits) && Disciplined(limits, t.held, t.todo)
  }

  lemma {:induction false} OpsCoverHeld(limits: map<Sem, nat>, held: seq<Held>, todo: seq<Op>)
    requires Disciplined(limits, held, todo)
    ensures |todo| >= |held|
    decreases |todo|
  {
    if todo != [] {
      OpsCoverHeld(limits, HeldAfter(held, todo[0]), todo[1..]);
    }
  }

  lemma {:induction false} ReleasesAreDisciplined(limits: map<Sem, nat>, held: seq<Held>)
    ensures Disciplined(limits, held, Releases(|held|))
    decreases |held|
  {
    if held != [] {
      ReleasesAreDisciplined(limits, held[..|held| - 1]);
      assert Releases(|held|)[1..] == Releases(|held| - 1);
    }
  }

  // ---------------------------------------------------------------- conservation

  ghost function HeldIn(held: seq<Held>, s: Sem): nat {
    if held == [] then 0
    else HeldIn(held[..|held| - 1], s) + if held[|held| - 1].sem == s then 1 else 0
  }

  ghost function HeldBy(tasks: seq<Task>, s: Sem): nat {
    if tasks == [] then 0 else HeldIn(tasks[0].held, s) + HeldBy(tasks[1..], s)
  }

  lemma {:induction false} HeldByUpdate(tasks: seq<Task>, i: nat, t: Task, s: Sem)
    requires i < |tasks|
    ensures HeldBy(tasks[i := t], s) == HeldBy(tasks, s) - HeldIn(tasks[i].held, s) + HeldIn(t.held, s)
  {
    if i > 0 {
      HeldByUpdate(tasks[1..], i - 1, t, s);
      assert tasks[i := t][1..] == tasks[1..][i - 1 := t];
    } else {
      assert tasks[i := t][1..] == tasks[1..];
    }
  }

  lemma {:induction false} HeldInPush(held: seq<Held>, h: Held, s: Sem)
    ensures HeldIn(held + [h], s) == HeldIn(held, s) + if h.sem == s then 1 else 0
  {
    assert (held + [h])[..|held|] == held;
  }

  lemma {:induction false} HolderExists(tasks: seq<Task>, s: Sem) returns (i: nat)
    requires HeldBy(tasks, s) > 0
    ensures i < |tasks| && HeldIn(tasks[i].held, s) > 0
  {
    if HeldIn(tasks[0].held, s) > 0 {
      i := 0;
    } else {
      i := HolderExists(tasks[1..], s);
      i := i + 1;
    }
  }

  lemma {:induction false} HeldInMember(held: seq<Held>, s: Sem) returns (h: Held)
    requires HeldIn(held, s) > 0
    ensures h in held && h.sem == s
  {
    if held[|held| - 1].sem == s {
      h := held[|held| - 1];
    } else {
      h := HeldInMember(held[..|held| - 1], s);
    }
  }

  ghost predicate Inv(limits: map<Sem, nat>, st: State) {
    && st.free.Keys == limits.Keys && st.lost.Keys == limits.Keys
    && (forall s :: s in limits ==> st.free[s] >= 0 && st.lost[s] >= 0
                                    && st.free[s] + HeldBy(st.tasks, s) + st.lost[s] == limits[s])
    && (forall i :: 0 <= i < |st.tasks| ==> TaskOk(limits, st.tasks[i]))
  }

  /** Before anything ran: every permit free, every task about to start its program. */
  ghost predicate Initial(limits: map<Sem, nat>, st: State) {
    && st.free.Keys == limits.Keys && st.lost.Keys == limits.Keys
    && (forall s :: s in limits ==> st.free[s] == limits[s] && st.lost[s] == 0)
    && (forall i :: 0 <= i < |st.tasks| ==> st.tasks[i].held == [] && Disciplined(limits, [], st.tasks[i].todo))
  }

  lemma {:induction false} IdleHoldsNothing(tasks: seq<Task>, s: Sem)
    requires forall i :: 0 <= i < |tasks| ==> tasks[i].held == []
    ensures HeldBy(tasks, s) == 0
  {
    if tasks != [] { IdleHoldsNothing(tasks[1..], s); }
  }

  lemma {:induction false} InitialInv(limits: map<Sem, nat>, st: State)
    requires Initial(limits, st)
    ensures Inv(limits, st)
  {
    forall s | s in limits ensures HeldBy(st.tasks, s) == 0 { IdleHoldsNothing(st.tasks, s); }
  }

  lemma {:induction false} AscendingAfter(limits: map<Sem, nat>, held: seq<Held>, op: Op)
    requires Ascending(held) && (forall h :: h in held ==> h.sem in limits) && Allowed(limits, held, op)
    ensures Ascending(HeldAfter(held, op)) && forall h :: h in HeldAfter(held, op) ==> h.sem in limits
  {
  }

  lemma {:induction false} UnwoundIsOk(limits: map<Sem, nat>, held: seq<Held>)
    requires Ascending(held) && forall h :: h in held ==> h.sem in limits
    ensures TaskOk(limits, Task(held, Releases(|held|)))
    ensures held != [] ==> TaskOk(limits, Task(held[..|held| - 1], Releases(|held| - 1)))
  {
    ReleasesAreDisciplined(limits, held);
    if held != [] {
      ReleasesAreDisciplined(limits, held[..|held| - 1]);
    }
  }

  lemma {:induction false} AdvanceIsOk(limits: map<Sem, nat>, t: Task)
    requires TaskOk(limits, t) && t.todo != []
    ensures TaskOk(limits, Task(HeldAfter(t.held, t.todo[0]), t.todo[1..]))
  {
    AscendingAfter(limits, t.held, t.todo[0]);
  }

  /** What a step makes of its task. */
  lemma {:induction false} TaskAfter(st: State, step: Step)
    requires Enabled(st, step)
    ensures var t, t' := st.tasks[step.task], Next(st, step).tasks[step.task];
      t' == if step.Advance? then Task(HeldAfter(t.held, t.todo[0]), t.todo[1..])
            else if step.Unwind? then Task(t.held, Releases(|t.held|))
            else Task(t.held[..|t.held| - 1], Releases(|t.held| - 1))
  {
  }

  lemma {:induction false} StepTask(limits: map<Sem, nat>, st: State, step: Step)
    requires Inv(limits, st) && Enabled(st, step)
    ensures TaskOk(limits, Next(st, step).tasks[step.task])
    ensures |Next(st, step).tasks[step.task].todo| < |st.tasks[step.task].todo|
  {
    var t := st.tasks[step.task];
    assert TaskOk(limits, t);
    TaskAfter(st, step);
    if step.Advance? {
      AdvanceIsOk(limits, t);
    } else {
      OpsCoverHeld(limits, t.held, t.todo);
      UnwoundIsOk(limits, t.held);
    }
  }

  /** How a step moves permits of s between the pool, the task and the lost ones. */
  lemma {:induction false} StepMoves(st: State, step: Step, s: Sem)
    requires Enabled(st, step) && st.free.Keys == st.lost.Keys && s in st.free
    ensures var st' := Next(st, step);
      s in st'.free && s in st'.lost
      && (st.free[s] >= 0 ==> st'.free[s] >= 0) && st'.lost[s] >= st.lost[s]
      && st'.free[s] + HeldIn(st'.tasks[step.task].held, s) + st'.lost[s]
         == st.free[s] + HeldIn(st.tasks[step.task].held, s) + st.lost[s]
  {
    var t := st.tasks[step.task];
    if step.Advance? && t.todo[0].Acquire? {
      HeldInPush(t.held, Held(t.todo[0].sem, t.todo[0].manual), s);
    }
  }

  lemma {:induction false} StepLedger(limits: map<Sem, nat>, st: State, step: Step, s: Sem)
    requires Inv(limits, st) && Enabled(st, step) && s in limits
    ensures var st' := Next(st, step);
      s in st'.free && s in st'.lost && st'.free[s] >= 0 && st'.lost[s] >= 0
      && st'.free[s] + HeldBy(st'.tasks, s) + st'.lost[s] == limits[s]
  {
    StepMoves(st, step, s);
    HeldByUpdate(st.tasks, step.task, Next(st, step).tasks[step.task], s);
  }

  lemma {:induction false} StepInv(limits: map<Sem, nat>, st: State, step: Step)
    requires Inv(limits, st) && Enabled(st, step)
    ensures Inv(limits, Next(st, step))
  {
    StepTask(limits, st, step);
    forall s | s in limits
      ensures var st' := Next(st, step);
        s in st'.free && s in st'.lost && st'.free[s] >= 0 && st'.lost[s] >= 0
        && st'.free[s] + HeldBy(st'.tasks, s) + st'.lost[s] == limits[s]
    {
      StepLedger(limits, st, step, s);
    }
  }

  /** How many steps of the run lose a permit of s. */
  ghost function LeaksOf(st: State, steps: seq<Step>, s: Sem): nat
    decreases |steps|
  {
    if steps == [] || !Enabled(st, steps[0]) then 0
    else
      var t := st.tasks[steps[0].task];
      (if steps[0].Leaks() && t.held[|t.held| - 1].sem == s then 1 else 0)
      + LeaksOf(Next(st, steps[0]), steps[1..], s)
  }

  lemma {:induction false} PathInv(limits: map<Sem, nat>, st: State, steps: seq<Step>, end: State)
    requires Inv(limits, st) && Path(st, steps, end)
    ensures Inv(limits, end)
    decreases |steps|
  {
    if steps != [] {
      StepInv(limits, st, steps[0]);
      PathInv(limits, Next(st, steps[0]), steps[1..], end);
    }
  }

  lemma {:induction false} LostIsLeaked(limits: map<Sem, nat>, st: State, steps: seq<Step>, end: State, s: Sem)
    requires Inv(limits, st) && Path(st, steps, end) && s in limits
    ensures s in end.lost && end.lost[s] == st.lost[s] + LeaksOf(st, steps, s)
    decreases |steps|
  {
    if steps != [] {
      StepInv(limits, st, steps[0]);
      LostIsLeaked(limits, Next(st, steps[0]), steps[1..], end, s);
    }
  }

  /** Exact permit conservation in every reachable state: free + held + lost is the limit, and lost
      counts precisely the leaking steps. */
  lemma {:induction false} Conservation(limits: map<Sem, nat>, st: State, steps: seq<Step>, end: State)
    requires Initial(limits, st) && Path(st, steps, end)
    ensures end.free.Keys == limits.Keys
    ensures forall s :: s in limits ==>
              end.free[s] >= 0 && end.free[s] + HeldBy(end.tasks, s) + LeaksOf(st, steps, s) == limits[s]
  {
    InitialInv(limits, st);
    PathInv(limits, st, steps, end);
    forall s | s in limits ensures s in end.lost && end.lost[s] == LeaksOf(st, steps, s) {
      LostIsLeaked(limits, st, steps, end, s);
    }
  }

  /** Once nothing is active, what is missing from the pools is exactly what leaked. */
  lemma {:induction false} QuietPools(limits: map<Sem, nat>, st: State, steps: seq<Step>, end: State)
    requires Initial(limits, st) && Path(st, steps, end)
    requires forall i :: 0 <= i < |end.tasks| ==> end.tasks[i].todo == []
    ensures forall s :: s in limits ==> s in end.free && end.free[s] == limits[s] - LeaksOf(st, steps, s)
  {
    InitialInv(limits, st);
    PathInv(limits, st, steps, end);
    Conservation(limits, st, steps, end);
    forall s | s in limits ensures s in end.free && end.free[s] == limits[s] - LeaksOf(st, steps, s) {
      assert forall i :: 0 <= i < |end.tasks| ==> TaskOk(limits, end.tasks[i]);
      IdleHoldsNothing(end.tasks, s);
    }
  }

  /** Both bounds of a nested pair hold at once, and no task ever has two permits of one rank: in
      particular never a database and a CPU permit together. */
  lemma {:induction false} BoundsHold(limits: map<Sem, nat>, st: State, steps: seq<Step>, end: State)
    requires Initial(limits, st) && Path(st, steps, end)
    ensures forall s :: s in limits ==> HeldBy(end.tasks, s) <= limits[s]
    ensures forall i, h, g | 0 <= i < |end.tasks| && h in end.tasks[i].held && g in end.tasks[i].held ::
      Rank(h.sem) == Rank(g.sem) ==> h == g
  {
    InitialInv(limits, st);
    PathInv(limits, st, steps, end);
    forall i, h, g | 0 <= i < |end.tasks| && h in end.tasks[i].held && g in end.tasks[i].held
                     && Rank(h.sem) == Rank(g.sem)
      ensures h == g
    {
      assert TaskOk(limits, end.tasks[i]);
    }
  }
}
