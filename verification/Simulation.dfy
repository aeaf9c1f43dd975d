/** The two accounts of a service call put together: its awaits in Users.dfy, where calls interleave over a
    table, and its semaphores and locks in Permits.dfy. Every run of the former is one of the latter. */
module Simulation {
  import opened Wrappers
  import opened Users
  import opened UsersTheorems
  import P = Permits
  import J = Programs

  // ---------------------------------------------------------------- where a call is in its program

  /** What a call will turn out to lock: the account of a rehash, the address of a deleted row. */
  datatype Outlook = Outlook(id: nat, email: string)

  ghost function Foresee(w: World, steps: seq<Step>, p: nat): Outlook
    decreases |steps|
  {
    if steps == [] || p >= |w.procs| || !Enabled(w, steps[0]) then Outlook(0, "")
    else if steps[0] == FlushRehash(p) then Outlook(w.procs[p].phase.id, "")
    else if steps[0] == FlushDelete(p) then
      Outlook(0, if w.procs[p].call.id in w.table then w.table[w.procs[p].call.id].email else "")
    else Foresee(Next(w, steps[0]), steps[1..], p)
  }

  function JobOf(c: Call, o: Outlook): J.Call {
    match c
    case Register(email, _, _) => J.Register(Lower(email))
    case Update(id, _, _) => J.Update(id)
    case Delete(id) => J.Delete(id, o.email)
    case Authenticate(_, _) => J.Authenticate(o.id, true)
  }

  const BY_HAND := P.Held(P.Db, true)

  function Leaf(s: P.Sem): seq<P.Op> { [P.Acquire(s, false), P.Release] }

  /** A UnitOfWork that takes these locks one inside the other. */
  function Locking(locks: seq<P.Sem>): seq<P.Op> {
    seq(|locks|, i requires 0 <= i < |locks| => P.Acquire(locks[i], false)) + P.Releases(|locks| + 1)
  }

  function Write(locks: seq<P.Sem>): seq<P.Op> { [P.Acquire(P.Db, true), P.Begin] + Locking(locks) }

  /** The locks of the call's write, by the outlook. */
  function LocksAhead(c: Call, o: Outlook): seq<P.Sem> {
    match c
    case Register(email, _, _) => [P.KeyLock(Lower(email))]
    case Update(id, _, _) => [P.RowLock(id)]
    case Delete(id) => [P.RowLock(id), P.KeyLock(o.email)]
    case Authenticate(_, _) => [P.RowLock(o.id)]
  }

  /** The locks an uncommitted write holds. */
  function LocksOf(reg: map<Id, Account>, write: Users.Write): seq<P.Sem> {
    match write
    case Insert(_, row) => [P.KeyLock(row.email)]
    case Patch(id, _) => [P.RowLock(id)]
    case Erase(id) => [P.RowLock(id), P.KeyLock(if id in reg then reg[id].email else "")]
    case Nothing => []
  }

  function HeldLocks(locks: seq<P.Sem>): seq<P.Held> {
    [BY_HAND] + seq(|locks|, i requires 0 <= i < |locks| => P.Held(locks[i], false))
  }

  /** The permits and locks a call holds in a phase, and what of its program is left. */
  function TaskFor(reg: map<Id, Account>, c: Call, ph: Phase, o: Outlook): P.Task {
    var write := Write(LocksAhead(c, o));
    match ph
    case Start =>
      P.Task([], match c
                 case Register(_, _, _) => Leaf(P.Cpu) + write
                 case Authenticate(_, _) => Leaf(P.Db) + (Leaf(P.Cpu) + (Leaf(P.Cpu) + write))
                 case _ => write)
    case Hashed(_) => P.Task([], write)
    case Seen(_) => P.Task([], Leaf(P.Cpu) + (Leaf(P.Cpu) + write))
    case Trusted(_) => P.Task([], Leaf(P.Cpu) + write)
    case Rehashed(_, _) => P.Task([], write)
    case Checked(_) => P.Task([BY_HAND], Locking(LocksAhead(c, o)))
    case Loaded(_) => P.Task([BY_HAND], Locking(LocksAhead(c, o)))
    case Refetched(_, _, _) => P.Task([BY_HAND], Locking(LocksAhead(c, o)))
    case Flushed(w, _, _) => P.Task(HeldLocks(LocksOf(reg, w)), P.Releases(|LocksOf(reg, w)| + 1))
    case Returned(_) => P.Task([], [])
    case Raised(_) => P.Task([], [])
  }

  lemma {:induction false} ReleasesAre()
    ensures P.Releases(1) == [P.Release] && P.Releases(2) == [P.Release, P.Release]
    ensures P.Releases(3) == [P.Release, P.Release, P.Release]
  {
  }

  /** A call about to start stands before exactly the program Programs.dfy gives it. */
  lemma {:induction false} StartsAtProgram(reg: map<Id, Account>, c: Call, o: Outlook)
    ensures TaskFor(reg, c, Start, o) == P.Task([], J.Program(JobOf(c, o)))
  {
    ReleasesAre();
    match c
    case Register(email, _, _) =>
      assert J.InUnitOfWork(J.With(P.KeyLock(Lower(email)), [])) == Write([P.KeyLock(Lower(email))]);
    case Update(id, _, _) =>
      assert J.InUnitOfWork(J.With(P.RowLock(id), [])) == Write([P.RowLock(id)]);
    case Delete(id) =>
      assert J.InUnitOfWork(J.With(P.RowLock(id), J.With(P.KeyLock(o.email), [])))
          == Write([P.RowLock(id), P.KeyLock(o.email)]);
    case Authenticate(_, _) =>
      var write := Write([P.RowLock(o.id)]);
      assert J.InUnitOfWork(J.With(P.RowLock(o.id), [])) == write;
      assert J.Program(J.Authenticate(o.id, true)) == Leaf(P.Db) + (Leaf(P.Cpu) + (Leaf(P.Cpu) + write));
  }

  // ---------------------------------------------------------------- moves of one task

  /** A run that loses no permit. */
  ghost predicate CleanRun(st: P.State, ps: seq<P.Step>, st': P.State) {
    P.Path(st, ps, st') && forall k :: 0 <= k < |ps| ==> !ps[k].Leaks()
  }

  /** The steps, none of them losing a permit, take task p and no other to t. */
  ghost predicate Reaches(st: P.State, ps: seq<P.Step>, st': P.State, p: nat, t: P.Task) {
    CleanRun(st, ps, st') && p < |st.tasks| && st'.tasks == st.tasks[p := t] && st'.lost == st.lost
  }

  ghost predicate Free(st: P.State, s: P.Sem) { s in st.free && st.free[s] > 0 }

  lemma {:induction false} Stay(st: P.State, p: nat)
    requires p < |st.tasks|
    ensures Reaches(st, [], st, p, st.tasks[p])
  {
    assert st.tasks[p := st.tasks[p]] == st.tasks;
  }

  lemma {:induction false} First(st: P.State, step: P.Step, ps: seq<P.Step>, st': P.State, p: nat, t: P.Task)
    requires P.Enabled(st, step) && step.task == p && !step.Leaks()
    requires Reaches(P.Next(st, step), ps, st', p, t)
    ensures Reaches(st, [step] + ps, st', p, t)
  {
    assert ([step] + ps)[1..] == ps;
    assert st'.tasks == st.tasks[p := t];
  }

  lemma {:induction false} JoinPaths(st: P.State, xs: seq<P.Step>, mid: P.State, ys: seq<P.Step>, end: P.State)
    requires P.Path(st, xs, mid) && P.Path(mid, ys, end)
    ensures P.Path(st, xs + ys, end)
    decreases |xs|
  {
    if xs == [] {
      assert xs + ys == ys;
    } else {
      assert (xs + ys)[1..] == xs[1..] + ys;
      JoinPaths(P.Next(st, xs[0]), xs[1..], mid, ys, end);
    }
  }

  lemma {:induction false} JoinClean(st: P.State, xs: seq<P.Step>, mid: P.State, ys: seq<P.Step>, end: P.State)
    requires CleanRun(st, xs, mid) && CleanRun(mid, ys, end)
    ensures CleanRun(st, xs + ys, end)
  {
    JoinPaths(st, xs, mid, ys, end);
  }

  lemma {:induction false} Then(st: P.State, xs: seq<P.Step>, mid: P.State, ys: seq<P.Step>, end: P.State, p: nat,
                                t: P.Task, t': P.Task)
    requires Reaches(st, xs, mid, p, t) && Reaches(mid, ys, end, p, t')
    ensures Reaches(st, xs + ys, end, p, t')
  {
    JoinClean(st, xs, mid, ys, end);
    assert end.tasks == st.tasks[p := t'];
  }

  /** `async with semaphore` around nothing the model sees. */
  lemma {:induction false} UseLeaf(st: P.State, p: nat, s: P.Sem, rest: seq<P.Op>)
    returns (ps: seq<P.Step>, st': P.State)
    requires p < |st.tasks| && st.tasks[p] == P.Task([], Leaf(s) + rest) && Free(st, s)
    ensures Reaches(st, ps, st', p, P.Task([], rest))
  {
    var ops, held := Leaf(s) + rest, [P.Held(s, false)];
    assert ops[1..] == [P.Release] + rest && ops[1..][1..] == rest && [] + held == held && held[..0] == [];
    var mid := P.Next(st, P.Advance(p));
    assert mid.tasks[p] == P.Task(held, [P.Release] + rest);
    st' := P.Next(mid, P.Advance(p));
    Stay(st', p);
    First(mid, P.Advance(p), [], st', p, P.Task([], rest));
    First(st, P.Advance(p), [P.Advance(p)] + [], st', p, P.Task([], rest));
    ps := [P.Advance(p)] + ([P.Advance(p)] + []);
  }

  /** __aenter__ */
  lemma {:induction false} EnterWork(st: P.State, p: nat, locks: seq<P.Sem>) returns (ps: seq<P.Step>, st': P.State)
    requires p < |st.tasks| && st.tasks[p] == P.Task([], Write(locks)) && Free(st, P.Db)
    ensures Reaches(st, ps, st', p, P.Task([BY_HAND], Locking(locks)))
  {
    var ops := Write(locks);
    assert ops[1..] == [P.Begin] + Locking(locks) && ops[1..][1..] == Locking(locks) && [] + [BY_HAND] == [BY_HAND];
    var mid := P.Next(st, P.Advance(p));
    assert mid.tasks[p] == P.Task([BY_HAND], [P.Begin] + Locking(locks));
    st' := P.Next(mid, P.Advance(p));
    Stay(st', p);
    First(mid, P.Advance(p), [], st', p, P.Task([BY_HAND], Locking(locks)));
    First(st, P.Advance(p), [P.Advance(p)] + [], st', p, P.Task([BY_HAND], Locking(locks)));
    ps := [P.Advance(p)] + ([P.Advance(p)] + []);
  }

  /** A flush that takes the locks from number n on. */
  lemma {:induction false} TakeLocks(st: P.State, p: nat, locks: seq<P.Sem>, n: nat)
    returns (ps: seq<P.Step>, st': P.State)
    requires n <= |locks| && p < |st.tasks|
    requires st.tasks[p] == P.Task(HeldLocks(locks[..n]), Locking(locks)[n..])
    requires forall i :: n <= i < |locks| ==> Free(st, locks[i])
    requires forall i, j :: 0 <= i < j < |locks| ==> locks[i] != locks[j]
    ensures Reaches(st, ps, st', p, P.Task(HeldLocks(locks), P.Releases(|locks| + 1)))
    decreases |locks| - n
  {
    if n == |locks| {
      assert locks[..n] == locks && Locking(locks)[n..] == P.Releases(|locks| + 1);
      st', ps := st, [];
      Stay(st, p);
    } else {
      assert Locking(locks)[n] == P.Acquire(locks[n], false);
      assert Locking(locks)[n..][1..] == Locking(locks)[n + 1..];
      assert HeldLocks(locks[..n]) + [P.Held(locks[n], false)] == HeldLocks(locks[..n + 1]);
      ps, st' := TakeLocks(P.Next(st, P.Advance(p)), p, locks, n + 1);
      First(st, P.Advance(p), ps, st', p, P.Task(HeldLocks(locks), P.Releases(|locks| + 1)));
      ps := [P.Advance(p)] + ps;
    }
  }

  /** The exits that are pending. */
  lemma {:induction false} LetGo(st: P.State, p: nat) returns (ps: seq<P.Step>, st': P.State)
    requires p < |st.tasks| && st.tasks[p].todo == P.Releases(|st.tasks[p].held|)
    requires forall h :: h in st.tasks[p].held ==> h.sem in st.free
    ensures Reaches(st, ps, st', p, P.Task([], []))
    decreases |st.tasks[p].held|
  {
    var t := st.tasks[p];
    if t.held == [] {
      assert t == P.Task([], []);
      st', ps := st, [];
      Stay(st, p);
    } else {
      assert t.todo[1..] == P.Releases(|t.held| - 1);
      ps, st' := LetGo(P.Next(st, P.Advance(p)), p);
      First(st, P.Advance(p), ps, st', p, P.Task([], []));
      ps := [P.Advance(p)] + ps;
    }
  }

  /** An early return: the rest of the body is skipped. */
  lemma {:induction false} Skip(st: P.State, p: nat) returns (ps: seq<P.Step>, st': P.State)
    requires p < |st.tasks| && |st.tasks[p].todo| > |st.tasks[p].held| && !st.tasks[p].todo[0].Begin?
    ensures Reaches(st, ps, st', p, P.Task(st.tasks[p].held, P.Releases(|st.tasks[p].held|)))
  {
    st' := P.Next(st, P.Unwind(p));
    Stay(st', p);
    First(st, P.Unwind(p), [], st', p, st'.tasks[p]);
    ps := [P.Unwind(p)] + [];
  }

  /** An exception, wherever it comes. */
  lemma {:induction false} Abort(st: P.State, p: nat) returns (ps: seq<P.Step>, st': P.State)
    requires p < |st.tasks| && forall h :: h in st.tasks[p].held ==> h.sem in st.free
    requires var t := st.tasks[p];
      t.todo == P.Releases(|t.held|) || (|t.todo| > |t.held| && !t.todo[0].Begin?)
    ensures Reaches(st, ps, st', p, P.Task([], []))
  {
    if st.tasks[p].todo == P.Releases(|st.tasks[p].held|) {
      ps, st' := LetGo(st, p);
    } else {
      var xs, mid := Skip(st, p);
      SameSems(st, xs, mid);
      var ys, end := LetGo(mid, p);
      Then(st, xs, mid, ys, end, p, mid.tasks[p], P.Task([], []));
      ps, st' := xs + ys, end;
    }
  }

  lemma {:induction false} SameSems(st: P.State, ps: seq<P.Step>, st': P.State)
    requires P.Path(st, ps, st')
    ensures st.free.Keys <= st'.free.Keys
    decreases |ps|
  {
    if ps != [] { SameSems(P.Next(st, ps[0]), ps[1..], st'); }
  }

  // ---------------------------------------------------------------- permits that must be free

  lemma {:induction false} OneEach(held: seq<P.Held>, s: P.Sem)
    requires P.Ascending(held)
    ensures P.HeldIn(held, s) <= 1
  {
    if held != [] {
      var n := |held| - 1;
      OneEach(held[..n], s);
      if P.HeldIn(held[..n], s) > 0 {
        var h := P.HeldInMember(held[..n], s);
        assert P.Rank(h.sem) < P.Rank(held[n].sem);
      }
    }
  }

  lemma {:induction false} NobodyHolds(tasks: seq<P.Task>, s: P.Sem)
    requires forall i :: 0 <= i < |tasks| ==> P.HeldIn(tasks[i].held, s) == 0
    ensures P.HeldBy(tasks, s) == 0
  {
    if tasks != [] { NobodyHolds(tasks[1..], s); }
  }

  lemma {:induction false} FewHold(tasks: seq<P.Task>, s: P.Sem, p: int)
    requires forall i :: 0 <= i < |tasks| ==> P.HeldIn(tasks[i].held, s) <= if i == p then 0 else 1
    ensures P.HeldBy(tasks, s) <= if 0 <= p < |tasks| then |tasks| - 1 else |tasks|
  {
    if tasks != [] { FewHold(tasks[1..], s, p - 1); }
  }

  /** Enough room: a database permit for each call, one of everything else. */
  ghost predicate Roomy(limits: map<P.Sem, nat>, n: nat) {
    && P.Db in limits && P.Cpu in limits && limits[P.Db] >= n
    && forall s :: s in limits ==> limits[s] > 0
  }

  /** The semaphores stand where the calls do, given what these are still going to do. */
  ghost predicate Matches(limits: map<P.Sem, nat>, w: World, steps: seq<Step>, st: P.State) {
    P.Inv(limits, st) && (forall s :: s in limits ==> st.lost[s] == 0) && TasksMatch(w, steps, st.tasks)
  }

  ghost predicate TasksMatch(w: World, steps: seq<Step>, tasks: seq<P.Task>) {
    && |tasks| == |w.procs|
    && forall p: nat :: p < |w.procs| ==>
         tasks[p] == TaskFor(w.registered, w.procs[p].call, w.procs[p].phase, Foresee(w, steps, p))
  }

  lemma {:induction false} HeldInPhase(reg: map<Id, Account>, c: Call, ph: Phase, o: Outlook, s: P.Sem)
    requires s != P.Db && P.HeldIn(TaskFor(reg, c, ph, o).held, s) > 0
    ensures ph.Flushed? && s in LocksOf(reg, ph.write)
  {
    var h := P.HeldInMember(TaskFor(reg, c, ph, o).held, s);
    if ph.Flushed? {
      InHeldLocks(LocksOf(reg, ph.write), h);
    }
  }

  lemma {:induction false} InHeldLocks(locks: seq<P.Sem>, h: P.Held)
    requires h in HeldLocks(locks)
    ensures h == BY_HAND || h.sem in locks
  {
  }

  lemma {:induction false} DbFree(limits: map<P.Sem, nat>, w: World, steps: seq<Step>, st: P.State, p: nat)
    requires Matches(limits, w, steps, st) && Roomy(limits, |w.procs|) && p < |w.procs| && st.tasks[p].held == []
    ensures Free(st, P.Db)
  {
    forall i | 0 <= i < |st.tasks| ensures P.HeldIn(st.tasks[i].held, P.Db) <= if i == p then 0 else 1 {
      assert P.TaskOk(limits, st.tasks[i]);
      OneEach(st.tasks[i].held, P.Db);
    }
    FewHold(st.tasks, P.Db, p);
  }

  /** A semaphore other than the database pool that no uncommitted write has is free. */
  lemma {:induction false} OtherFree(limits: map<P.Sem, nat>, w: World, steps: seq<Step>, st: P.State, s: P.Sem)
    requires Matches(limits, w, steps, st) && Roomy(limits, |w.procs|) && s in limits && s != P.Db
    requires forall q: nat :: q < |w.procs| && w.procs[q].phase.Flushed? ==>
               s !in LocksOf(w.registered, w.procs[q].phase.write)
    ensures Free(st, s)
  {
    forall i: nat | i < |st.tasks| ensures P.HeldIn(st.tasks[i].held, s) == 0 {
      if P.HeldIn(st.tasks[i].held, s) > 0 {
        HeldInPhase(w.registered, w.procs[i].call, w.procs[i].phase, Foresee(w, steps, i), s);
      }
    }
    NobodyHolds(st.tasks, s);
  }

  lemma {:induction false} CpuFree(limits: map<P.Sem, nat>, w: World, steps: seq<Step>, st: P.State)
    requires Matches(limits, w, steps, st) && Roomy(limits, |w.procs|)
    ensures Free(st, P.Cpu)
  {
    OtherFree(limits, w, steps, st, P.Cpu);
  }

  /** A flush the table model lets through finds its locks free: nobody else's uncommitted write has them. */
  lemma {:induction false} LocksAreFree(w: World, step: Step, q: nat, s: P.Sem)
    requires Safe(w) && Enabled(w, step) && Flushes(step)
    requires PhaseAfter(w, step).Flushed? && s in LocksOf(w.registered, PhaseAfter(w, step).write)
    requires q < |w.procs| && w.procs[q].phase.Flushed?
    ensures s !in LocksOf(w.registered, w.procs[q].phase.write)
  {
    var pend, mine, other := PendingIds(w.procs), PhaseAfter(w, step).write, w.procs[q].phase.write;
    assert Fits(w.table, w.registered, pend, w.procs[step.p].call, w.procs[step.p].phase);
    assert Fits(w.table, w.registered, pend, w.procs[q].call, w.procs[q].phase);
    assert !Conflict(w.table, other, mine);
    if other.Erase? {
      assert other.id in w.table && w.registered[other.id].email == w.table[other.id].email;
    }
    if mine.Erase? {
      assert mine.id in w.table && w.registered[mine.id].email == w.table[mine.id].email;
    }
  }

  /** The locks a write is about to ask for. */
  function LocksFor(t: Table, write: Users.Write): set<P.Sem> {
    match write
    case Insert(_, row) => {P.KeyLock(row.email)}
    case Patch(id, _) => {P.RowLock(id)}
    case Erase(id) => if id in t then {P.RowLock(id), P.KeyLock(t[id].email)} else {P.RowLock(id)}
    case Nothing => {}
  }

  /** And a flush waits for nothing else: it is held up exactly while some other uncommitted write has a
      lock it needs. */
  lemma {:induction false} BlockedExactly(w: World, p: nat, id: Id)
    requires Safe(w) && p < |w.procs|
    ensures var write := Intended(w.procs[p].call, w.procs[p].phase, id);
      Blocked(w, p, write) <==>
        exists q, s :: 0 <= q < |w.procs| && q != p && w.procs[q].phase.Flushed?
                       && s in LocksFor(w.table, write) && s in LocksOf(w.registered, w.procs[q].phase.write)
  {
    var write := Intended(w.procs[p].call, w.procs[p].phase, id);
    forall q: nat | q < |w.procs| && q != p && w.procs[q].phase.Flushed?
      ensures Conflict(w.table, w.procs[q].phase.write, write) <==>
                exists s :: s in LocksFor(w.table, write) && s in LocksOf(w.registered, w.procs[q].phase.write)
    {
      ConflictIsLock(w, q, write);
    }
  }

  lemma {:induction false} ConflictIsLock(w: World, q: nat, write: Users.Write)
    requires Safe(w) && q < |w.procs| && w.procs[q].phase.Flushed?
    ensures Conflict(w.table, w.procs[q].phase.write, write) <==>
              exists s :: s in LocksFor(w.table, write) && s in LocksOf(w.registered, w.procs[q].phase.write)
  {
    var other := w.procs[q].phase.write;
    assert Fits(w.table, w.registered, PendingIds(w.procs), w.procs[q].call, w.procs[q].phase);
    var mine, theirs := LocksFor(w.table, write), LocksOf(w.registered, other);
    if other.Erase? {
      assert other.id in w.table && theirs == [P.RowLock(other.id), P.KeyLock(w.table[other.id].email)];
    }
    if Conflict(w.table, other, write) {
      assert theirs[0] in mine || (|theirs| == 2 && theirs[1] in mine);
    }
  }

  // ---------------------------------------------------------------- one await of one call

  /** Where the moving call's task has to get to. */
  ghost function Target(w: World, steps: seq<Step>): P.Task
    requires steps != [] && Enabled(w, steps[0])
  {
    var p, w' := steps[0].p, Next(w, steps[0]);
    TaskFor(w'.registered, w'.procs[p].call, w'.procs[p].phase, Foresee(w', steps[1..], p))
  }

  ghost predicate Ready(limits: map<P.Sem, nat>, w: World, steps: seq<Step>, st: P.State) {
    && Matches(limits, w, steps, st) && Roomy(limits, |w.procs|) && Safe(w)
    && steps != [] && Enabled(w, steps[0])
  }

  lemma {:induction false} SameOutlook(w: World, steps: seq<Step>, q: nat)
    requires steps != [] && Enabled(w, steps[0]) && q < |w.procs|
    requires steps[0] != FlushRehash(q) && steps[0] != FlushDelete(q)
    ensures Foresee(Next(w, steps[0]), steps[1..], q) == Foresee(w, steps, q)
  {
  }

  /** Where it stands. */
  ghost function Standing(w: World, steps: seq<Step>): P.Task
    requires steps != [] && Enabled(w, steps[0])
  {
    var p := steps[0].p;
    TaskFor(w.registered, w.procs[p].call, w.procs[p].phase, Foresee(w, steps, p))
  }

  predicate UsesPermit(step: Step) { step.HashPassword? || step.ReadUser? || step.Verify? || step.Rehash? }
  predicate EntersWork(step: Step) { step.LookUp? || step.Fetch? || step.Refetch? }
  predicate Flushes(step: Step) { step.FlushInsert? || step.FlushUpdate? || step.FlushDelete? || step.FlushRehash? }

  lemma {:induction false} LeafShape(w: World, steps: seq<Step>) returns (s: P.Sem, rest: seq<P.Op>)
    requires steps != [] && Enabled(w, steps[0]) && UsesPermit(steps[0])
    ensures (s == P.Db || s == P.Cpu) && rest != [] && !rest[0].Begin?
    ensures Standing(w, steps) == P.Task([], Leaf(s) + rest)
    ensures Target(w, steps) == P.Task([], rest) || Target(w, steps) == P.Task([], [])
  {
    SameOutlook(w, steps, steps[0].p);
    var write := Write(LocksAhead(w.procs[steps[0].p].call, Foresee(w, steps, steps[0].p)));
    match steps[0]
    case ReadUser(_) => s, rest := P.Db, Leaf(P.Cpu) + (Leaf(P.Cpu) + write);
    case Verify(_) => s, rest := P.Cpu, Leaf(P.Cpu) + write;
    case _ => s, rest := P.Cpu, write;
  }

  lemma {:induction false} EnterShape(w: World, steps: seq<Step>) returns (locks: seq<P.Sem>)
    requires Safe(w) && steps != [] && Enabled(w, steps[0]) && EntersWork(steps[0])
    ensures Standing(w, steps) == P.Task([], Write(locks)) && |locks| > 0
    ensures var t := Target(w, steps);
      t == P.Task([BY_HAND], Locking(locks)) || t == P.Task([BY_HAND], P.Releases(1)) || t == P.Task([], [])
  {
    SameOutlook(w, steps, steps[0].p);
    locks := LocksAhead(w.procs[steps[0].p].call, Foresee(w, steps, steps[0].p));
    assert Fits(w.table, w.registered, PendingIds(w.procs), w.procs[steps[0].p].call, w.procs[steps[0].p].phase);
    assert HeldLocks([]) == [BY_HAND];
  }

  /** The locks ahead are those of the write, when the flush goes through. */
  lemma {:induction false} LocksComeTrue(w: World, steps: seq<Step>)
    requires Safe(w) && steps != [] && Enabled(w, steps[0])
    requires Flushes(steps[0])
    requires PhaseAfter(w, steps[0]).Flushed? && !PhaseAfter(w, steps[0]).write.Nothing?
    ensures LocksAhead(w.procs[steps[0].p].call, Foresee(w, steps, steps[0].p))
         == LocksOf(w.registered, PhaseAfter(w, steps[0]).write)
         == LocksOf(Next(w, steps[0]).registered, PhaseAfter(w, steps[0]).write)
  {
    var p := steps[0].p;
    assert Fits(w.table, w.registered, PendingIds(w.procs), w.procs[p].call, w.procs[p].phase);
  }

  lemma {:induction false} FlushStanding(w: World, steps: seq<Step>, locks: seq<P.Sem>)
    requires steps != [] && Enabled(w, steps[0]) && Flushes(steps[0])
    requires locks == LocksAhead(w.procs[steps[0].p].call, Foresee(w, steps, steps[0].p))
    ensures Standing(w, steps) == P.Task([BY_HAND], Locking(locks)) && 0 < |locks| <= 2
    ensures forall i, j :: 0 <= i < j < |locks| ==> locks[i] != locks[j]
    ensures forall i :: 0 <= i < |locks| ==> locks[i] != P.Db
  {
  }

  lemma {:induction false} FlushShape(w: World, steps: seq<Step>) returns (locks: seq<P.Sem>)
    requires Safe(w) && steps != [] && Enabled(w, steps[0]) && Flushes(steps[0])
    ensures Standing(w, steps) == P.Task([BY_HAND], Locking(locks)) && 0 < |locks| <= 2
    ensures forall i, j :: 0 <= i < j < |locks| ==> locks[i] != locks[j]
    ensures forall i :: 0 <= i < |locks| ==> locks[i] != P.Db
    ensures var t := Target(w, steps);
      t == P.Task([BY_HAND], P.Releases(1)) || t == P.Task([], [])
      || (t == P.Task(HeldLocks(locks), P.Releases(|locks| + 1)) && PhaseAfter(w, steps[0]).Flushed?
          && locks == LocksOf(w.registered, PhaseAfter(w, steps[0]).write))
  {
    locks := LocksAhead(w.procs[steps[0].p].call, Foresee(w, steps, steps[0].p));
    FlushStanding(w, steps, locks);
    FlushTarget(w, steps);
    if PhaseAfter(w, steps[0]).Flushed? && !PhaseAfter(w, steps[0]).write.Nothing? {
      LocksComeTrue(w, steps);
    }
  }

  lemma {:induction false} FlushTarget(w: World, steps: seq<Step>)
    requires steps != [] && Enabled(w, steps[0]) && Flushes(steps[0])
    ensures var after := PhaseAfter(w, steps[0]);
      Target(w, steps)
      == if !after.Flushed? then P.Task([], [])
         else if after.write.Nothing? then P.Task([BY_HAND], P.Releases(1))
         else var locks := LocksOf(Next(w, steps[0]).registered, after.write);
              P.Task(HeldLocks(locks), P.Releases(|locks| + 1))
  {
    assert HeldLocks([]) == [BY_HAND];
  }

  lemma {:induction false} EndShape(w: World, steps: seq<Step>)
    requires steps != [] && Enabled(w, steps[0])
    requires steps[0].Commit? || steps[0].CommitThenRaise? || steps[0].Raise?
    ensures Target(w, steps) == P.Task([], [])
    ensures var t := Standing(w, steps);
      t.todo == P.Releases(|t.held|) || (|t.todo| > |t.held| && !t.todo[0].Begin?)
  {
  }

  lemma {:induction false} SimLeaf(limits: map<P.Sem, nat>, w: World, steps: seq<Step>, st: P.State)
    returns (ps: seq<P.Step>, st': P.State)
    requires Ready(limits, w, steps, st) && UsesPermit(steps[0])
    ensures Reaches(st, ps, st', steps[0].p, Target(w, steps))
  {
    var p := steps[0].p;
    var s, rest := LeafShape(w, steps);
    assert st.tasks[p] == P.Task([], Leaf(s) + rest);
    assert Free(st, s) by {
      if s == P.Db { DbFree(limits, w, steps, st, p); } else { CpuFree(limits, w, steps, st); }
    }
    ps, st' := LeafMoves(st, p, s, rest, Target(w, steps));
  }

  lemma {:induction false} LeafMoves(st: P.State, p: nat, s: P.Sem, rest: seq<P.Op>, t: P.Task)
    returns (ps: seq<P.Step>, st': P.State)
    requires p < |st.tasks| && st.tasks[p] == P.Task([], Leaf(s) + rest) && Free(st, s)
    requires rest != [] && !rest[0].Begin? && (t == P.Task([], rest) || t == P.Task([], []))
    ensures Reaches(st, ps, st', p, t)
  {
    ps, st' := UseLeaf(st, p, s, rest);
    if t != P.Task([], rest) {
      var ys, end := Abort(st', p);
      Then(st, ps, st', ys, end, p, P.Task([], rest), t);
      ps, st' := ps + ys, end;
    }
  }

  lemma {:induction false} SimEnter(limits: map<P.Sem, nat>, w: World, steps: seq<Step>, st: P.State)
    returns (ps: seq<P.Step>, st': P.State)
    requires Ready(limits, w, steps, st) && EntersWork(steps[0])
    ensures Reaches(st, ps, st', steps[0].p, Target(w, steps))
  {
    var p := steps[0].p;
    var locks := EnterShape(w, steps);
    assert st.tasks[p] == P.Task([], Write(locks));
    DbFree(limits, w, steps, st, p);
    ps, st' := EnterMoves(st, p, locks, Target(w, steps));
  }

  lemma {:induction false} EnterMoves(st: P.State, p: nat, locks: seq<P.Sem>, t: P.Task)
    returns (ps: seq<P.Step>, st': P.State)
    requires p < |st.tasks| && st.tasks[p] == P.Task([], Write(locks)) && Free(st, P.Db) && |locks| > 0
    requires t == P.Task([BY_HAND], Locking(locks)) || t == P.Task([BY_HAND], P.Releases(1)) || t == P.Task([], [])
    ensures Reaches(st, ps, st', p, t)
  {
    ps, st' := EnterWork(st, p, locks);
    SameSems(st, ps, st');
    if t != P.Task([BY_HAND], Locking(locks)) {
      var ys, end := BodyEnds(st', p, locks, t);
      Then(st, ps, st', ys, end, p, P.Task([BY_HAND], Locking(locks)), t);
      ps, st' := ps + ys, end;
    }
  }

  /** Before it has taken a lock a body may return early or raise. */
  lemma {:induction false} BodyEnds(st: P.State, p: nat, locks: seq<P.Sem>, t: P.Task)
    returns (ps: seq<P.Step>, st': P.State)
    requires p < |st.tasks| && st.tasks[p] == P.Task([BY_HAND], Locking(locks)) && P.Db in st.free && |locks| > 0
    requires t == P.Task([BY_HAND], P.Releases(1)) || t == P.Task([], [])
    ensures Reaches(st, ps, st', p, t)
  {
    assert Locking(locks)[0] == P.Acquire(locks[0], false);
    if t.held == [] {
      ps, st' := Abort(st, p);
    } else {
      ps, st' := Skip(st, p);
    }
  }

  lemma {:induction false} SimFlush(limits: map<P.Sem, nat>, w: World, steps: seq<Step>, st: P.State)
    returns (ps: seq<P.Step>, st': P.State)
    requires Ready(limits, w, steps, st) && Flushes(steps[0])
    ensures Reaches(st, ps, st', steps[0].p, Target(w, steps))
  {
    var p, t := steps[0].p, Target(w, steps);
    var locks := FlushShape(w, steps);
    assert st.tasks[p] == P.Task([BY_HAND], Locking(locks)) && P.TaskOk(limits, st.tasks[p]);
    if t == P.Task([BY_HAND], P.Releases(1)) || t == P.Task([], []) {
      ps, st' := BodyEnds(st, p, locks, t);
    } else {
      LocksAreNamed(limits, locks);
      forall i | 0 <= i < |locks| ensures Free(st, locks[i]) { LockIsFree(limits, w, steps, st, locks[i]); }
      assert locks[..0] == [] && HeldLocks([]) == [BY_HAND] && Locking(locks)[0..] == Locking(locks);
      ps, st' := TakeLocks(st, p, locks, 0);
    }
  }

  lemma {:induction false} LockIsFree(limits: map<P.Sem, nat>, w: World, steps: seq<Step>, st: P.State, s: P.Sem)
    requires Ready(limits, w, steps, st) && Flushes(steps[0]) && PhaseAfter(w, steps[0]).Flushed?
    requires s in LocksOf(w.registered, PhaseAfter(w, steps[0]).write) && s in limits && s != P.Db
    ensures Free(st, s)
  {
    forall q: nat | q < |w.procs| && w.procs[q].phase.Flushed?
      ensures s !in LocksOf(w.registered, w.procs[q].phase.write)
    {
      LocksAreFree(w, steps[0], q, s);
    }
    OtherFree(limits, w, steps, st, s);
  }

  lemma {:induction false} LocksAreNamed(limits: map<P.Sem, nat>, locks: seq<P.Sem>)
    requires P.Disciplined(limits, [BY_HAND], Locking(locks)) && |locks| <= 2
    ensures forall i :: 0 <= i < |locks| ==> locks[i] in limits
  {
    if |locks| > 0 {
      assert Locking(locks)[0] == P.Acquire(locks[0], false);
      if |locks| > 1 {
        assert Locking(locks)[1..][0] == P.Acquire(locks[1], false);
      }
    }
  }

  lemma {:induction false} SimEnd(limits: map<P.Sem, nat>, w: World, steps: seq<Step>, st: P.State)
    returns (ps: seq<P.Step>, st': P.State)
    requires Ready(limits, w, steps, st) && (steps[0].Commit? || steps[0].CommitThenRaise? || steps[0].Raise?)
    ensures Reaches(st, ps, st', steps[0].p, Target(w, steps))
  {
    EndShape(w, steps);
    assert st.tasks[steps[0].p] == Standing(w, steps) && P.TaskOk(limits, st.tasks[steps[0].p]);
    ps, st' := Abort(st, steps[0].p);
  }

  lemma {:induction false} SimStep(limits: map<P.Sem, nat>, w: World, steps: seq<Step>, st: P.State)
    returns (ps: seq<P.Step>, st': P.State)
    requires Ready(limits, w, steps, st)
    ensures Reaches(st, ps, st', steps[0].p, Target(w, steps))
  {
    if UsesPermit(steps[0]) {
      ps, st' := SimLeaf(limits, w, steps, st);
    } else if EntersWork(steps[0]) {
      ps, st' := SimEnter(limits, w, steps, st);
    } else if Flushes(steps[0]) {
      ps, st' := SimFlush(limits, w, steps, st);
    } else {
      ps, st' := SimEnd(limits, w, steps, st);
    }
  }

  // ---------------------------------------------------------------- whole runs

  lemma {:induction false} OthersStand(w: World, steps: seq<Step>, q: nat)
    requires Safe(w) && steps != [] && Enabled(w, steps[0]) && q < |w.procs| && q != steps[0].p
    ensures var w' := Next(w, steps[0]);
      TaskFor(w'.registered, w'.procs[q].call, w'.procs[q].phase, Foresee(w', steps[1..], q))
      == TaskFor(w.registered, w.procs[q].call, w.procs[q].phase, Foresee(w, steps, q))
  {
    SameOutlook(w, steps, q);
    assert Fits(w.table, w.registered, PendingIds(w.procs), w.procs[q].call, w.procs[q].phase);
  }

  lemma {:induction false} StepMatches(limits: map<P.Sem, nat>, w: World, steps: seq<Step>, st: P.State)
    returns (ps: seq<P.Step>, st': P.State)
    requires Ready(limits, w, steps, st)
    ensures CleanRun(st, ps, st')
    ensures Matches(limits, Next(w, steps[0]), steps[1..], st')
  {
    ps, st' := SimStep(limits, w, steps, st);
    P.PathInv(limits, st, ps, st');
    TasksFollow(w, steps, st.tasks);
  }

  lemma {:induction false} TasksFollow(w: World, steps: seq<Step>, tasks: seq<P.Task>)
    requires Safe(w) && steps != [] && Enabled(w, steps[0]) && TasksMatch(w, steps, tasks)
    ensures TasksMatch(Next(w, steps[0]), steps[1..], tasks[steps[0].p := Target(w, steps)])
  {
    forall q: nat | q < |w.procs| && q != steps[0].p
      ensures tasks[q] == TaskFor(Next(w, steps[0]).registered, Next(w, steps[0]).procs[q].call,
                                  Next(w, steps[0]).procs[q].phase, Foresee(Next(w, steps[0]), steps[1..], q))
    {
      OthersStand(w, steps, q);
    }
  }

  lemma {:induction false} RunMatches(limits: map<P.Sem, nat>, w: World, steps: seq<Step>, end: World, st: P.State)
    returns (ps: seq<P.Step>, st': P.State)
    requires Matches(limits, w, steps, st) && Roomy(limits, |w.procs|) && Safe(w) && Path(w, steps, end)
    ensures CleanRun(st, ps, st')
    ensures Matches(limits, end, [], st')
    decreases |steps|
  {
    if steps == [] {
      ps, st' := [], st;
    } else {
      var xs, mid := StepMatches(limits, w, steps, st);
      StepSafe(w, steps[0]);
      var ys;
      ys, st' := RunMatches(limits, Next(w, steps[0]), steps[1..], end, mid);
      JoinClean(st, xs, mid, ys, st');
      ps := xs + ys;
    }
  }

  /** The jobs of Programs.dfy a run of the service turns out to be. */
  ghost function JobsOf(w: World, steps: seq<Step>): seq<J.Job> {
    seq(|w.procs|, p requires 0 <= p < |w.procs| => J.Plain(JobOf(w.procs[p].call, Foresee(w, steps, p))))
  }

  /** Every interleaving of the user service is a leak-free run of the semaphores and locks, each call
      following the program it has there; wherever the run ends, the calls hold just what their phases
      say, and the locks the table model waits for are locks of one. */
  lemma {:induction false} ServiceRunsAsPermits(limits: map<P.Sem, nat>, w: World, steps: seq<Step>, end: World,
                                                st: P.State)
    returns (ps: seq<P.Step>, st': P.State)
    requires Initial(w) && Path(w, steps, end) && Roomy(limits, |w.procs|)
    requires J.Serves(limits, JobsOf(w, steps), st)
    ensures CleanRun(st, ps, st')
    ensures |st'.tasks| == |end.procs|
    ensures forall p: nat :: p < |end.procs| ==>
              st'.tasks[p] == TaskFor(end.registered, end.procs[p].call, end.procs[p].phase, Outlook(0, ""))
  {
    var jobs := JobsOf(w, steps);
    J.ServesIsInitial(limits, jobs, st);
    P.InitialInv(limits, st);
    InitialSafe(w);
    forall p: nat | p < |w.procs|
      ensures st.tasks[p] == TaskFor(w.registered, w.procs[p].call, w.procs[p].phase, Foresee(w, steps, p))
    {
      assert jobs[p] == J.Plain(JobOf(w.procs[p].call, Foresee(w, steps, p)));
      StartsAtProgram(w.registered, w.procs[p].call, Foresee(w, steps, p));
    }
    ps, st' := RunMatches(limits, w, steps, end, st);
  }
}
