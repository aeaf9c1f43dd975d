/** The calls of the service as programs over the semaphores and locks of Permits.dfy: what each takes, that
    all keep to the nesting order, and that they never deadlock. */
module Programs {
  import opened Permits
  import opened Liveness
  import Counting

  // ---------------------------------------------------------------- the programs of the service

  /** Calls on UserService, with the row or key they end up touching; an outbound request under the
      HTTP pool; a bare run_cpu_bound job. */
  datatype Call =
    | Outbound
    | CpuJob
    | Get
    | Register(email: string)
    | Update(id: nat)
    | Delete(id: nat, email: string)
    | Authenticate(id: nat, rehash: bool)

  function Scope(s: Sem, manual: bool, body: seq<Op>): seq<Op> {
    [Acquire(s, manual)] + (if manual then [Begin] else []) + body + [Release]
  }

  /** `async with semaphore: body` */
  function With(s: Sem, body: seq<Op>): seq<Op> { Scope(s, false, body) }

  function InUnitOfWork(body: seq<Op>): seq<Op> { Scope(Db, true, body) }

  function Program(call: Call): seq<Op> {
    match call
    case Outbound => With(Http, [])
    case CpuJob => With(Cpu, [])
    case Get => With(Db, [])
    case Register(email) => With(Cpu, []) + InUnitOfWork(With(KeyLock(email), []))
    case Update(id) => InUnitOfWork(With(RowLock(id), []))
    case Delete(id, email) => InUnitOfWork(With(RowLock(id), With(KeyLock(email), [])))
    case Authenticate(id, rehash) =>
      With(Db, []) + With(Cpu, [])
      + if rehash then With(Cpu, []) + InUnitOfWork(With(RowLock(id), [])) else []
  }

  /** One guarded awaitable of gather number g. */
  function Gathered(g: nat, body: seq<Op>): seq<Op> { With(Local(g), body) }

  ghost predicate Above(rank: nat, p: seq<Op>) {
    forall op :: op in p && op.Acquire? ==> rank < Rank(op.sem)
  }

  ghost predicate Covers(limits: map<Sem, nat>, p: seq<Op>) {
    forall op :: op in p && op.Acquire? ==> op.sem in limits
  }

  /** A disciplined program stays so inside one more, lower-ranked semaphore. */
  lemma {:induction false} Nest(limits: map<Sem, nat>, base: Held, held: seq<Held>, p: seq<Op>)
    requires Disciplined(limits, held, p) && Above(Rank(base.sem), p)
    ensures Disciplined(limits, [base] + held, p + [Release])
    decreases |p|
  {
    var q := p + [Release];
    if p == [] {
      assert q[1..] == [] && ([base] + held)[..0] == [];
      assert Disciplined(limits, [], q[1..]);
    } else {
      assert q[0] == p[0] && q[1..] == p[1..] + [Release] && p[0] in p;
      assert Above(Rank(base.sem), p[1..]) by {
        forall op | op in p[1..] && op.Acquire? ensures Rank(base.sem) < Rank(op.sem) { assert op in p; }
      }
      Nest(limits, base, HeldAfter(held, p[0]), p[1..]);
      NestOp(limits, base, held, p[0]);
    }
  }

  lemma {:induction false} NestOp(limits: map<Sem, nat>, base: Held, held: seq<Held>, op: Op)
    requires Allowed(limits, held, op) && (op.Acquire? ==> Rank(base.sem) < Rank(op.sem))
    ensures Allowed(limits, [base] + held, op)
    ensures HeldAfter([base] + held, op) == [base] + HeldAfter(held, op)
  {
    var inner := [base] + held;
    match op
    case Acquire(s, m) => assert inner + [Held(s, m)] == [base] + (held + [Held(s, m)]);
    case Begin => assert inner[|inner| - 1] == held[|held| - 1];
    case Release => assert inner[..|inner| - 1] == [base] + held[..|held| - 1];
  }

  /** Disciplined programs may follow each other. */
  lemma {:induction false} Chain(limits: map<Sem, nat>, held: seq<Held>, p: seq<Op>, q: seq<Op>)
    requires Disciplined(limits, held, p) && Disciplined(limits, [], q)
    ensures Disciplined(limits, held, p + q)
    decreases |p|
  {
    Counting.HeadOfJoin(p, q);
    if p != [] {
      Chain(limits, HeldAfter(held, p[0]), p[1..], q);
    }
  }

  /** A disciplined program all of whose semaphores rank above `rank`. */
  ghost predicate Fits(limits: map<Sem, nat>, rank: nat, p: seq<Op>) {
    Disciplined(limits, [], p) && Above(rank, p)
  }

  lemma {:induction false} Wrap(limits: map<Sem, nat>, rank: nat, s: Sem, manual: bool, body: seq<Op>)
    requires s in limits && Fits(limits, Rank(s), body) && rank < Rank(s)
    ensures Fits(limits, rank, Scope(s, manual, body))
  {
    WrapLocal(limits, s, manual, body);
  }

  lemma {:induction false} WrapLocal(limits: map<Sem, nat>, s: Sem, manual: bool, body: seq<Op>)
    requires s in limits && Fits(limits, Rank(s), body)
    ensures Disciplined(limits, [], Scope(s, manual, body))
  {
    var p, held := Scope(s, manual, body), [Held(s, manual)];
    Nest(limits, held[0], [], body);
    assert held + [] == held == [] + held;
    if manual {
      assert p[1..][1..] == body + [Release];
      assert Disciplined(limits, held, p[1..]);
    } else {
      assert p[1..] == body + [Release];
    }
  }

  lemma {:induction false} Unwrap(limits: map<Sem, nat>, s: Sem, manual: bool, body: seq<Op>)
    requires Covers(limits, Scope(s, manual, body))
    ensures s in limits && Covers(limits, body)
  {
    var p := Scope(s, manual, body);
    assert p[0] in p;
    forall op | op in body && op.Acquire? ensures op.sem in limits { assert op in p; }
  }

  lemma {:induction false} Split(limits: map<Sem, nat>, p: seq<Op>, q: seq<Op>)
    requires Covers(limits, p + q)
    ensures Covers(limits, p) && Covers(limits, q)
  {
    forall op | op in p || op in q ensures op in p + q { }
  }

  lemma {:induction false} Follow(limits: map<Sem, nat>, rank: nat, p: seq<Op>, q: seq<Op>)
    requires Fits(limits, rank, p) && Fits(limits, rank, q)
    ensures Fits(limits, rank, p + q)
  {
    Chain(limits, [], p, q);
  }

  lemma {:induction false} LeafFits(limits: map<Sem, nat>, rank: nat, s: Sem)
    requires Covers(limits, With(s, [])) && rank < Rank(s)
    ensures Fits(limits, rank, With(s, []))
  {
    Unwrap(limits, s, false, []);
    Wrap(limits, rank, s, false, []);
  }

  lemma {:induction false} WriteFits(limits: map<Sem, nat>, lock: Sem)
    requires Covers(limits, InUnitOfWork(With(lock, []))) && Rank(lock) > 1
    ensures Fits(limits, 0, InUnitOfWork(With(lock, [])))
  {
    Unwrap(limits, Db, true, With(lock, []));
    LeafFits(limits, 1, lock);
    Wrap(limits, 0, Db, true, With(lock, []));
  }

  lemma {:induction false} DeleteFits(limits: map<Sem, nat>, id: nat, email: string)
    requires Covers(limits, Program(Delete(id, email)))
    ensures Fits(limits, 0, Program(Delete(id, email)))
  {
    var keyed := With(KeyLock(email), []);
    Unwrap(limits, Db, true, With(RowLock(id), keyed));
    Unwrap(limits, RowLock(id), false, keyed);
    LeafFits(limits, 2, KeyLock(email));
    Wrap(limits, 1, RowLock(id), false, keyed);
    Wrap(limits, 0, Db, true, With(RowLock(id), keyed));
  }

  lemma {:induction false} HashThenWriteFits(limits: map<Sem, nat>, lock: Sem)
    requires Covers(limits, With(Cpu, []) + InUnitOfWork(With(lock, []))) && Rank(lock) > 1
    ensures Fits(limits, 0, With(Cpu, []) + InUnitOfWork(With(lock, [])))
  {
    Split(limits, With(Cpu, []), InUnitOfWork(With(lock, [])));
    LeafFits(limits, 0, Cpu);
    WriteFits(limits, lock);
    Follow(limits, 0, With(Cpu, []), InUnitOfWork(With(lock, [])));
  }

  lemma {:induction false} ProgramsFit(limits: map<Sem, nat>, call: Call)
    requires Covers(limits, Program(call))
    ensures Fits(limits, 0, Program(call))
  {
    match call
    case Outbound => LeafFits(limits, 0, Http);
    case CpuJob => LeafFits(limits, 0, Cpu);
    case Get => LeafFits(limits, 0, Db);
    case Register(email) => HashThenWriteFits(limits, KeyLock(email));
    case Update(id) => WriteFits(limits, RowLock(id));
    case Delete(id, email) => DeleteFits(limits, id, email);
    case Authenticate(id, rehash) =>
      var check := With(Db, []) + With(Cpu, []);
      var rest := if rehash then With(Cpu, []) + InUnitOfWork(With(RowLock(id), [])) else [];
      Split(limits, check, rest);
      Split(limits, With(Db, []), With(Cpu, []));
      LeafFits(limits, 0, Db);
      LeafFits(limits, 0, Cpu);
      Follow(limits, 0, With(Db, []), With(Cpu, []));
      if rehash { HashThenWriteFits(limits, RowLock(id)); }
      Follow(limits, 0, check, rest);
  }

  /** A job of the process: a service call on its own or as one awaitable of a bounded gather. */
  datatype Job = Plain(call: Call) | InGather(g: nat, call: Call)

  function JobProgram(j: Job): seq<Op> {
    match j
    case Plain(call) => Program(call)
    case InGather(g, call) => Gathered(g, Program(call))
  }

  lemma {:induction false} JobsAreDisciplined(limits: map<Sem, nat>, j: Job)
    requires Covers(limits, JobProgram(j))
    ensures Disciplined(limits, [], JobProgram(j))
  {
    match j
    case Plain(call) => ProgramsFit(limits, call);
    case InGather(g, call) =>
      Unwrap(limits, Local(g), false, Program(call));
      ProgramsFit(limits, call);
      WrapLocal(limits, Local(g), false, Program(call));
  }

  /** Every pool full and every job about to start; the limits name all that the jobs will take. */
  ghost predicate Serves(limits: map<Sem, nat>, jobs: seq<Job>, st: State) {
    && (forall s :: s in limits ==> limits[s] > 0)
    && (forall i :: 0 <= i < |jobs| ==> Covers(limits, JobProgram(jobs[i])))
    && st.free == limits && st.lost == (map s | s in limits :: 0)
    && |st.tasks| == |jobs| && forall i :: 0 <= i < |jobs| ==> st.tasks[i] == Task([], JobProgram(jobs[i]))
  }

  lemma {:induction false} ServesIsInitial(limits: map<Sem, nat>, jobs: seq<Job>, st: State)
    requires Serves(limits, jobs, st)
    ensures Initial(limits, st)
  {
    forall i | 0 <= i < |jobs| ensures Disciplined(limits, [], st.tasks[i].todo) {
      JobsAreDisciplined(limits, jobs[i]);
    }
  }

  ghost predicate AllDone(st: State) { forall i :: 0 <= i < |st.tasks| ==> st.tasks[i].todo == [] }

  /** Any number of service calls, inside any number of simultaneous gathers, under any scheduling,
      failures and cancellations but without a leak: either everything has finished with every
      permit back in its pool, or some call can go on; and no run outlasts the calls' own steps. */
  lemma {:induction false} ServiceNeverDeadlocks(limits: map<Sem, nat>, jobs: seq<Job>, st: State, steps: seq<Step>,
                                                 end: State)
    requires Serves(limits, jobs, st) && Path(st, steps, end)
    requires forall i :: 0 <= i < |steps| ==> !steps[i].Leaks()
    ensures AllDone(end) || exists k: nat :: Enabled(end, Advance(k))
    ensures AllDone(end) ==> end.free == limits
    ensures |steps| <= Work(st.tasks)
  {
    ServesIsInitial(limits, jobs, st);
    InitialInv(limits, st);
    PathInv(limits, st, steps, end);
    Terminates(limits, st, steps, end);
    forall s | s in limits ensures LeaksOf(st, steps, s) == 0 && end.lost[s] == 0 {
      NoLeaks(st, steps, s);
      LostIsLeaked(limits, st, steps, end, s);
    }
    if AllDone(end) {
      QuietPools(limits, st, steps, end);
    } else {
      var k := Progress(limits, end);
    }
  }

  lemma {:induction false} NoLeaks(st: State, steps: seq<Step>, s: Sem)
    requires forall i :: 0 <= i < |steps| ==> !steps[i].Leaks()
    ensures LeaksOf(st, steps, s) == 0
    decreases |steps|
  {
    if steps != [] && Enabled(st, steps[0]) { NoLeaks(Next(st, steps[0]), steps[1..], s); }
  }

  // ---------------------------------------------------------------- what a program takes

  /** The semaphores a program takes, in order. */
  function Taken(p: seq<Op>): seq<Sem> {
    if p == [] then [] else (if p[0].Acquire? then [p[0].sem] else []) + Taken(p[1..])
  }

  /** What each program takes, in this order: a read a database permit, a job a CPU permit, a request an HTTP
      permit; the writes a UnitOfWork with the locks of their row. */
  lemma {:induction false} ProgramsTake(id: nat, email: string)
    ensures Taken(Program(Outbound)) == [Http] && Taken(Program(CpuJob)) == [Cpu] && Taken(Program(Get)) == [Db]
    ensures Taken(Program(Register(email))) == [Cpu, Db, KeyLock(email)]
    ensures Taken(Program(Update(id))) == [Db, RowLock(id)]
    ensures Taken(Program(Delete(id, email))) == [Db, RowLock(id), KeyLock(email)]
    ensures Taken(Program(Authenticate(id, false))) == [Db, Cpu]
    ensures Taken(Program(Authenticate(id, true))) == [Db, Cpu, Cpu, Db, RowLock(id)]
  {
    TakenSingly();
    TakenHashThenWrite(KeyLock(email));
    TakenWrite(RowLock(id));
    TakenDelete(id, email);
    TakenLogin(id, false);
    TakenLogin(id, true);
  }

  lemma {:induction false} TakenSingly()
    ensures Taken(Program(Outbound)) == [Http] && Taken(Program(CpuJob)) == [Cpu] && Taken(Program(Get)) == [Db]
  {
    TakenScope(Http, false, [], []);
    TakenScope(Cpu, false, [], []);
    TakenScope(Db, false, [], []);
  }

  /** Inside a gather a call takes its own permit around all the others. */
  lemma {:induction false} GatheredAround(g: nat, call: Call)
    ensures JobProgram(InGather(g, call)) == Gathered(g, Program(call)) && JobProgram(Plain(call)) == Program(call)
    ensures forall body :: Gathered(g, body) == [Acquire(Local(g), false)] + body + [Release]
  {
  }

  /** The three that take one permit take it around all they do. */
  lemma {:induction false} OnePermitCalls()
    ensures Program(Get) == [Acquire(Db, false), Release]
    ensures Program(CpuJob) == [Acquire(Cpu, false), Release]
    ensures Program(Outbound) == [Acquire(Http, false), Release]
  {
  }

  lemma {:induction false} TakenHashThenWrite(lock: Sem)
    ensures Taken(With(Cpu, []) + InUnitOfWork(With(lock, []))) == [Cpu, Db, lock]
  {
    TakenWrite(lock);
    TakenScope(Cpu, false, [], InUnitOfWork(With(lock, [])));
  }

  lemma {:induction false} TakenDelete(id: nat, email: string)
    ensures Taken(Program(Delete(id, email))) == [Db, RowLock(id), KeyLock(email)]
  {
    TakenScope(KeyLock(email), false, [], []);
    TakenScope(RowLock(id), false, With(KeyLock(email), []), []);
    TakenScope(Db, true, With(RowLock(id), With(KeyLock(email), [])), []);
  }

  lemma {:induction false} TakenLogin(id: nat, rehash: bool)
    ensures Taken(Program(Authenticate(id, rehash))) == [Db, Cpu] + if rehash then [Cpu, Db, RowLock(id)] else []
  {
    var write := InUnitOfWork(With(RowLock(id), []));
    TakenWrite(RowLock(id));
    TakenScope(Cpu, false, [], write);
    var rest := if rehash then With(Cpu, []) + write else [];
    TakenScope(Cpu, false, [], rest);
    TakenScope(Db, false, [], With(Cpu, []) + rest);
    assert Program(Authenticate(id, rehash)) == With(Db, []) + (With(Cpu, []) + rest);
  }

  lemma {:induction false} TakenWrite(lock: Sem)
    ensures Taken(InUnitOfWork(With(lock, []))) == [Db, lock]
  {
    TakenScope(lock, false, [], []);
    TakenScope(Db, true, With(lock, []), []);
  }

  lemma {:induction false} TakenScope(s: Sem, manual: bool, body: seq<Op>, rest: seq<Op>)
    ensures Taken(Scope(s, manual, body)) == [s] + Taken(body)
    ensures Taken(Scope(s, manual, body) + rest) == [s] + Taken(body) + Taken(rest)
  {
    var enter, exit := [Acquire(s, manual)] + (if manual then [Begin] else []), [Release];
    assert Taken(enter) == [s] by {
      if manual { assert enter[1..] == [Begin] && [Begin][1..] == []; } else { assert enter[1..] == []; }
    }
    assert Taken(exit) == [] by { assert exit[1..] == []; }
    TakenJoin(enter, body);
    TakenJoin(enter + body, exit);
    TakenJoin(Scope(s, manual, body), rest);
  }

  lemma {:induction false} TakenJoin(p: seq<Op>, q: seq<Op>)
    ensures Taken(p + q) == Taken(p) + Taken(q)
  {
    Counting.HeadOfJoin(p, q);
    if p != [] {
      TakenJoin(p[1..], q);
    }
  }
}
