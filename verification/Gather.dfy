/** gather_with_concurrency and bounded_map: awaitables guarded by a call-local semaphore. */
module Gather {
  import opened Wrappers
  import Counting

  /** How awaiting a coroutine ends. */
  datatype Outcome<+T> = Returns(value: T) | Raises(error: string)

  /** An awaitable: how it ends by itself, and how once it has been cancelled while it runs. The latter
      may be a CancelledError, an error raised by its cleanup, or a value if it suppresses the request. */
  datatype Awaitable<+T> = Awaitable(result: Outcome<T>, cleanup: Outcome<T>)

  /** Abandoned: cancelled while still waiting for a permit. CleaningUp: cancelled while running, not yet
      through with its exits and still holding its permit. */
  datatype Status = Waiting | Running | Abandoned | CleaningUp | Settled {
    predicate HasPermit() { Running? || CleaningUp? }
  }

  /** `log` lists completions in the order they happen: which awaitable, and how it ended. `asked`: the
      caller was cancelled, and gather has passed the request on to every child. */
  datatype State<T> = State(free: int, status: seq<Status>, log: seq<(nat, Outcome<T>)>, asked: bool)

  datatype Step = Enter(i: nat) | Settle(i: nat) | Ask

  const CANCELLED := "CancelledError"

  function Start<T>(limit: nat, n: nat): State<T> { State(limit, seq(n, _ => Waiting), [], false) }

  predicate AllSettled(status: seq<Status>) {
    forall i :: 0 <= i < |status| ==> status[i].Settled?
  }

  predicate Enabled<T>(st: State<T>, step: Step) {
    match step
    case Enter(i) => i < |st.status| && st.status[i].Waiting? && st.free > 0
    case Settle(i) => i < |st.status| && !st.status[i].Waiting? && !st.status[i].Settled?
    case Ask => !st.asked && !AllSettled(st.status)
  }

  function EndOf<T>(c: Awaitable<T>, s: Status): Outcome<T> {
    match s
    case Running => c.result
    case CleaningUp => c.cleanup
    case _ => Raises(CANCELLED)
  }

  function Cancelled(s: Status): Status {
    match s
    case Waiting => Abandoned
    case Running => CleaningUp
    case _ => s
  }

  function CancelEach(status: seq<Status>): seq<Status> {
    seq(|status|, i requires 0 <= i < |status| => Cancelled(status[i]))
  }

  /** Leaving `async with sem` returns the permit however the awaitable ended. */
  function Next<T>(coros: seq<Awaitable<T>>, st: State<T>, step: Step): State<T>
    requires |coros| == |st.status| && Enabled(st, step)
  {
    match step
    case Enter(i) => st.(free := st.free - 1, status := st.status[i := Running])
    case Settle(i) =>
      State(if st.status[i].HasPermit() then st.free + 1 else st.free, st.status[i := Settled],
            st.log + [(i, EndOf(coros[i], st.status[i]))], st.asked)
    case Ask => st.(status := CancelEach(st.status), asked := true)
  }

  ghost predicate Path<T>(coros: seq<Awaitable<T>>, st: State<T>, steps: seq<Step>, end: State<T>)
    requires |coros| == |st.status|
    decreases |steps|
  {
    if steps == [] then end == st
    else Enabled(st, steps[0]) && Path(coros, Next(coros, st, steps[0]), steps[1..], end)
  }

  // ---------------------------------------------------------------- the invariant

  function InFlight<T>(st: State<T>): set<int> { set i: int | 0 <= i < |st.status| && st.status[i].HasPermit() }

  predicate Logged<T>(log: seq<(nat, Outcome<T>)>, i: int) {
    exists k :: 0 <= k < |log| && log[k].0 == i
  }

  /** Before the request nobody is cancelled; after it nobody waits or runs on. */
  predicate Fits(s: Status, asked: bool) {
    if asked then !s.Waiting? && !s.Running? else !s.Abandoned? && !s.CleaningUp?
  }

  ghost predicate Inv<T>(limit: nat, coros: seq<Awaitable<T>>, st: State<T>) {
    && |st.status| == |coros|
    && st.free >= 0 && st.free + |InFlight(st)| == limit
    && (forall i :: 0 <= i < |st.status| ==> Fits(st.status[i], st.asked))
    && LogInv(coros, st.status, st.log, st.asked)
  }

  ghost predicate LogInv<T>(coros: seq<Awaitable<T>>, status: seq<Status>, log: seq<(nat, Outcome<T>)>, asked: bool)
    requires |status| == |coros|
  {
    && (forall k :: 0 <= k < |log| ==> log[k].0 < |status| && status[log[k].0].Settled?)
    && (forall i :: 0 <= i < |status| && status[i].Settled? ==> Logged(log, i))
    && (forall k, m :: 0 <= k < m < |log| ==> log[k].0 != log[m].0)
    && (forall k :: 0 <= k < |log| ==> EndsAs(coros[log[k].0], log[k].1, asked))
  }

  /** The outcomes an awaitable can have had. */
  ghost predicate EndsAs<T>(c: Awaitable<T>, o: Outcome<T>, asked: bool) {
    o == c.result || (asked && (o == c.cleanup || o == Raises(CANCELLED)))
  }

  lemma {:induction false} LoggedGrows<T>(log: seq<(nat, Outcome<T>)>, entry: (nat, Outcome<T>))
    ensures forall i :: Logged(log, i) ==> Logged(log + [entry], i)
    ensures Logged(log + [entry], entry.0)
  {
    assert (log + [entry])[|log|] == entry;
    forall i | Logged(log, i) ensures Logged(log + [entry], i) {
      var k :| 0 <= k < |log| && log[k].0 == i;
      assert (log + [entry])[k].0 == i;
    }
  }

  lemma {:induction false} EnterFlight<T>(st: State<T>, st': State<T>, i: nat)
    requires i < |st.status| && !st.status[i].HasPermit() && st'.status == st.status[i := Running]
    ensures |InFlight(st')| == |InFlight(st)| + 1
  {
    assert InFlight(st') == InFlight(st) + {i} && i !in InFlight(st);
  }

  lemma {:induction false} SettleFlight<T>(st: State<T>, st': State<T>, i: nat)
    requires i < |st.status| && st'.status == st.status[i := Settled]
    ensures |InFlight(st')| == |InFlight(st)| - if st.status[i].HasPermit() then 1 else 0
  {
    assert InFlight(st') == InFlight(st) - {i};
    assert i in InFlight(st) <==> st.status[i].HasPermit();
  }

  lemma {:induction false} AskFlight<T>(st: State<T>, st': State<T>)
    requires st'.status == CancelEach(st.status)
    ensures InFlight(st') == InFlight(st)
  {
  }

  lemma {:induction false} StepFlight<T>(coros: seq<Awaitable<T>>, st: State<T>, step: Step)
    requires |coros| == |st.status| && Enabled(st, step)
    ensures Next(coros, st, step).free + |InFlight(Next(coros, st, step))| == st.free + |InFlight(st)|
  {
    match step
    case Enter(i) => EnterFlight(st, Next(coros, st, step), i);
    case Settle(i) => SettleFlight(st, Next(coros, st, step), i);
    case Ask => AskFlight(st, Next(coros, st, step));
  }

  lemma {:induction false} LogSettles<T>(coros: seq<Awaitable<T>>, status: seq<Status>, log: seq<(nat, Outcome<T>)>,
                                         asked: bool, i: nat, o: Outcome<T>)
    requires |status| == |coros| && LogInv(coros, status, log, asked) && i < |status| && !status[i].Settled?
    requires EndsAs(coros[i], o, asked)
    ensures LogInv(coros, status[i := Settled], log + [(i, o)], asked)
  {
    LoggedGrows(log, (i, o));
  }

  lemma {:induction false} StepInv<T>(limit: nat, coros: seq<Awaitable<T>>, st: State<T>, step: Step)
    requires Inv(limit, coros, st) && Enabled(st, step)
    ensures Inv(limit, coros, Next(coros, st, step))
  {
    StepFlight(coros, st, step);
    if step.Settle? {
      assert Fits(st.status[step.i], st.asked);
      LogSettles(coros, st.status, st.log, st.asked, step.i, EndOf(coros[step.i], st.status[step.i]));
    }
  }

  lemma {:induction false} StartInv<T>(limit: nat, coros: seq<Awaitable<T>>)
    ensures Inv(limit, coros, Start(limit, |coros|))
  {
    assert InFlight<T>(Start(limit, |coros|)) == {};
  }

  lemma {:induction false} PathInv<T>(limit: nat, coros: seq<Awaitable<T>>, st: State<T>, steps: seq<Step>,
                                      end: State<T>)
    requires Inv(limit, coros, st) && Path(coros, st, steps, end)
    ensures Inv(limit, coros, end)
    decreases |steps|
  {
    if steps != [] {
      StepInv(limit, coros, st, steps[0]);
      PathInv(limit, coros, Next(coros, st, steps[0]), steps[1..], end);
    }
  }

  lemma {:induction false} NotAsked<T>(coros: seq<Awaitable<T>>, st: State<T>, steps: seq<Step>, end: State<T>)
    requires |coros| == |st.status| && Path(coros, st, steps, end) && !st.asked
    requires forall k :: 0 <= k < |steps| ==> !steps[k].Ask?
    ensures !end.asked
    decreases |steps|
  {
    if steps != [] {
      NotAsked(coros, Next(coros, st, steps[0]), steps[1..], end);
    }
  }

  /** Every awaitable has settled and every permit is back. */
  predicate AllBack<T>(limit: int, st: State<T>) {
    st.free == limit && AllSettled(st.status)
  }

  /** In every interleaving, with failures and cancellation: at most `limit` hold a permit, and once all
      have settled every permit is back. */
  lemma {:induction false} Bounded<T>(limit: nat, coros: seq<Awaitable<T>>, steps: seq<Step>, end: State<T>)
    requires Path(coros, Start(limit, |coros|), steps, end)
    ensures |InFlight(end)| <= limit && end.free == limit - |InFlight(end)|
    ensures AllSettled(end.status) ==> AllBack(limit, end)
  {
    StartInv(limit, coros);
    PathInv(limit, coros, Start(limit, |coros|), steps, end);
    SettledIsBack(limit, coros, end);
  }

  lemma {:induction false} SettledIsBack<T>(limit: nat, coros: seq<Awaitable<T>>, st: State<T>)
    requires Inv(limit, coros, st)
    ensures AllSettled(st.status) ==> AllBack(limit, st)
  {
    if AllSettled(st.status) {
      assert InFlight(st) == {};
    }
  }

  function Entries(steps: seq<Step>, i: nat): nat {
    if steps == [] then 0 else (if steps[0] == Enter(i) then 1 else 0) + Entries(steps[1..], i)
  }

  /** No awaitable is entered twice, and one that has left Waiting never is again. */
  lemma {:induction false} EnteredAtMostOnce<T>(coros: seq<Awaitable<T>>, st: State<T>, steps: seq<Step>,
                                                end: State<T>, i: nat)
    requires |coros| == |st.status| && i < |coros| && Path(coros, st, steps, end)
    ensures Entries(steps, i) <= if st.status[i].Waiting? then 1 else 0
    decreases |steps|
  {
    if steps != [] {
      EnteredAtMostOnce(coros, Next(coros, st, steps[0]), steps[1..], end, i);
    }
  }

  // ---------------------------------------------------------------- progress and termination

  ghost predicate Stuck<T>(st: State<T>) {
    forall i: nat :: !Enabled(st, Enter(i)) && !Enabled(st, Settle(i))
  }

  /** A run that has not settled can always go on; a limit of at least one is enough. */
  lemma {:induction false} NeverStuckEarly<T>(limit: nat, coros: seq<Awaitable<T>>, st: State<T>)
    requires limit > 0 && Inv(limit, coros, st) && Stuck(st)
    ensures AllBack(limit, st)
  {
    assert InFlight(st) == {} by {
      forall i | 0 <= i < |st.status| ensures !st.status[i].HasPermit() { assert !Enabled(st, Settle(i)); }
    }
    forall i | 0 <= i < |st.status| ensures st.status[i].Settled? {
      assert !Enabled(st, Enter(i)) && !Enabled(st, Settle(i));
    }
  }

  ghost function Weight(s: Status): nat {
    match s case Waiting => 2 case Settled => 0 case _ => 1
  }

  ghost function Pending(status: seq<Status>): nat {
    if status == [] then 0 else Weight(status[0]) + Pending(status[1..])
  }

  lemma {:induction false} PendingUpdate(status: seq<Status>, i: nat, s: Status)
    requires i < |status|
    ensures Pending(status[i := s]) == Pending(status) - Weight(status[i]) + Weight(s)
  {
    if i > 0 {
      assert status[i := s][1..] == status[1..][i - 1 := s];
      PendingUpdate(status[1..], i - 1, s);
    } else {
      assert status[i := s][1..] == status[1..];
    }
  }

  lemma {:induction false} PendingCancelled(status: seq<Status>)
    ensures Pending(CancelEach(status)) <= Pending(status)
  {
    if status != [] {
      assert CancelEach(status)[1..] == CancelEach(status[1..]);
      PendingCancelled(status[1..]);
    }
  }

  lemma {:induction false} PendingAtStart(status: seq<Status>)
    requires forall i :: 0 <= i < |status| ==> status[i].Waiting?
    ensures Pending(status) == 2 * |status|
  {
    if status != [] { PendingAtStart(status[1..]); }
  }

  lemma {:induction false} PendingWhenSettled(status: seq<Status>)
    ensures Pending(status) == 0 <==> AllSettled(status)
  {
    if status != [] {
      PendingWhenSettled(status[1..]);
      assert AllSettled(status) <==> status[0].Settled? && AllSettled(status[1..]) by {
        assert forall i :: 0 < i < |status| ==> status[i] == status[1..][i - 1];
        assert forall i :: 0 <= i < |status| - 1 ==> status[1..][i] == status[i + 1];
      }
    }
  }

  /** What is left to do, one turn at a time. */
  ghost function TurnsLeft<T>(st: State<T>): nat {
    Pending(st.status) + if st.asked then 0 else 1
  }

  lemma {:induction false} StepTakesTurn<T>(coros: seq<Awaitable<T>>, st: State<T>, step: Step)
    requires |coros| == |st.status| && Enabled(st, step)
    ensures TurnsLeft(Next(coros, st, step)) < TurnsLeft(st)
    ensures !step.Ask? ==> Pending(Next(coros, st, step).status) == Pending(st.status) - 1
  {
    match step
    case Enter(i) => PendingUpdate(st.status, i, Running);
    case Settle(i) => PendingUpdate(st.status, i, Settled);
    case Ask => PendingCancelled(st.status);
  }

  /** No run, with cancellation or without, is longer than two turns an awaitable and one more. */
  lemma {:induction false} Terminates<T>(coros: seq<Awaitable<T>>, st: State<T>, steps: seq<Step>, end: State<T>)
    requires |coros| == |st.status| && Path(coros, st, steps, end)
    ensures |steps| + TurnsLeft(end) <= TurnsLeft(st)
    decreases |steps|
  {
    if steps != [] {
      StepTakesTurn(coros, st, steps[0]);
      Terminates(coros, Next(coros, st, steps[0]), steps[1..], end);
    }
  }

  /** Whatever state a call ends in, the children it leaves behind bring every permit back: a continuation
      that cannot go on has settled them all. */
  lemma {:induction false} LeftBehind<T>(limit: nat, coros: seq<Awaitable<T>>, st: State<T>, steps: seq<Step>,
                                         end: State<T>)
    requires limit > 0 && Inv(limit, coros, st) && Path(coros, st, steps, end) && Stuck(end)
    ensures AllBack(limit, end)
  {
    PathInv(limit, coros, st, steps, end);
    NeverStuckEarly(limit, coros, end);
  }

  // ---------------------------------------------------------------- what gather returns

  /** The returned list holds values only, or with return_exceptions=True exceptions as well. */
  datatype Result<+T> = Gathered(outcomes: seq<Outcome<T>>) | Raised(error: string) | BadLimit

  /** The outcome recorded for awaitable i. */
  function Find<T>(log: seq<(nat, Outcome<T>)>, i: nat): Outcome<T>
    requires Logged(log, i)
  {
    if log[0].0 == i then log[0].1 else
      assert Logged(log[1..], i) by {
        var k :| 0 <= k < |log| && log[k].0 == i;
        assert log[1..][k - 1].0 == i;
      }
      Find(log[1..], i)
  }

  lemma {:induction false} FindsIt<T>(log: seq<(nat, Outcome<T>)>, i: nat) returns (k: nat)
    requires Logged(log, i)
    ensures k < |log| && log[k].0 == i && Find(log, i) == log[k].1
  {
    if log[0].0 == i {
      k := 0;
    } else {
      var m :| 0 <= m < |log| && log[m].0 == i;
      assert log[1..][m - 1].0 == i;
      k := FindsIt(log[1..], i);
      k := k + 1;
    }
  }

  /** The results by position, as asyncio.gather assembles them once every child is done. */
  function Collect<T>(log: seq<(nat, Outcome<T>)>, n: nat): seq<Outcome<T>>
    requires forall i :: 0 <= i < n ==> Logged(log, i)
  {
    seq(n, i requires 0 <= i < n => Find(log, i))
  }

  function Results<T>(coros: seq<Awaitable<T>>): seq<Outcome<T>> {
    seq(|coros|, i requires 0 <= i < |coros| => coros[i].result)
  }

  lemma {:induction false} CollectIsInput<T>(limit: nat, coros: seq<Awaitable<T>>, st: State<T>)
    requires Inv(limit, coros, st) && !st.asked && AllSettled(st.status)
    ensures forall i :: 0 <= i < |coros| ==> Logged(st.log, i)
    ensures Collect(st.log, |coros|) == Results(coros)
  {
    forall i | 0 <= i < |coros| ensures Logged(st.log, i) && Find(st.log, i) == coros[i].result {
      assert st.status[i].Settled?;
      var k := FindsIt(st.log, i);
      assert EndsAs(coros[st.log[k].0], st.log[k].1, false);
    }
  }

  /** Every maximal run without cancellation collects outcome i from input i, whatever the order in
      which the awaitables were entered and completed. */
  lemma {:induction false} OrderPreserved<T>(limit: nat, coros: seq<Awaitable<T>>, steps: seq<Step>, end: State<T>)
    requires limit > 0 && Path(coros, Start(limit, |coros|), steps, end) && Stuck(end)
    requires forall k :: 0 <= k < |steps| ==> !steps[k].Ask?
    ensures forall i :: 0 <= i < |coros| ==> Logged(end.log, i)
    ensures Collect(end.log, |coros|) == Results(coros)
  {
    StartInv(limit, coros);
    PathInv(limit, coros, Start(limit, |coros|), steps, end);
    NotAsked(coros, Start(limit, |coros|), steps, end);
    NeverStuckEarly(limit, coros, end);
    CollectIsInput(limit, coros, end);
  }

  // ---------------------------------------------------------------- when a call ends

  predicate AllReturn<T>(outcomes: seq<Outcome<T>>) {
    forall i :: 0 <= i < |outcomes| ==> outcomes[i].Returns?
  }

  predicate HasFailure<T>(log: seq<(nat, Outcome<T>)>) {
    exists k :: 0 <= k < |log| && log[k].1.Raises?
  }

  /** The last completion so far is a failure with this error, and the first one. */
  predicate FirstFailure<T>(log: seq<(nat, Outcome<T>)>, error: string) {
    |log| > 0 && log[|log| - 1].1 == Raises(error) && !HasFailure(log[..|log| - 1])
  }

  /** gather has its result: every child is done, or without return_exceptions one has failed or was
      cancelled. */
  predicate Decided<T>(returnExceptions: bool, st: State<T>) {
    AllSettled(st.status) || (!returnExceptions && HasFailure(st.log))
  }

  /** A run during which the call is still open, up to but not including its last state. */
  ghost predicate Open<T>(returnExceptions: bool, coros: seq<Awaitable<T>>, st: State<T>, steps: seq<Step>,
                          end: State<T>)
    requires |coros| == |st.status|
    decreases |steps|
  {
    if steps == [] then end == st
    else
      !Decided(returnExceptions, st) && Enabled(st, steps[0])
      && Open(returnExceptions, coros, Next(coros, st, steps[0]), steps[1..], end)
  }

  /** A whole call: from the start to the first state in which gather has its result. */
  ghost predicate WholeCall<T>(limit: nat, coros: seq<Awaitable<T>>, returnExceptions: bool, steps: seq<Step>,
                               end: State<T>)
  {
    Open(returnExceptions, coros, Start(limit, |coros|), steps, end) && Decided(returnExceptions, end)
  }

  lemma {:induction false} OpenIsPath<T>(returnExceptions: bool, coros: seq<Awaitable<T>>, st: State<T>,
                                         steps: seq<Step>, end: State<T>)
    requires |coros| == |st.status| && Open(returnExceptions, coros, st, steps, end)
    ensures Path(coros, st, steps, end)
    decreases |steps|
  {
    if steps != [] {
      OpenIsPath(returnExceptions, coros, Next(coros, st, steps[0]), steps[1..], end);
    }
  }

  lemma {:induction false} OpenExtends<T>(returnExceptions: bool, coros: seq<Awaitable<T>>, st: State<T>,
                                          steps: seq<Step>, mid: State<T>, step: Step)
    requires |coros| == |st.status| == |mid.status| && Open(returnExceptions, coros, st, steps, mid)
    requires !Decided(returnExceptions, mid) && Enabled(mid, step)
    ensures Open(returnExceptions, coros, st, steps + [step], Next(coros, mid, step))
    decreases |steps|
  {
    if steps == [] {
      assert ([] + [step])[1..] == [];
      assert Open(returnExceptions, coros, Next(coros, mid, step), [], Next(coros, mid, step));
    } else {
      assert (steps + [step])[1..] == steps[1..] + [step];
      OpenExtends(returnExceptions, coros, Next(coros, st, steps[0]), steps[1..], mid, step);
    }
  }

  lemma {:induction false} CallInv<T>(limit: nat, coros: seq<Awaitable<T>>, returnExceptions: bool, steps: seq<Step>,
                                      end: State<T>)
    requires WholeCall(limit, coros, returnExceptions, steps, end)
    ensures Inv(limit, coros, end)
  {
    StartInv(limit, coros);
    OpenIsPath(returnExceptions, coros, Start(limit, |coros|), steps, end);
    PathInv(limit, coros, Start(limit, |coros|), steps, end);
  }

  function SettledSet(status: seq<Status>): set<int> { set i: int | 0 <= i < |status| && status[i].Settled? }

  lemma {:induction false} LogCovers<T>(coros: seq<Awaitable<T>>, status: seq<Status>, log: seq<(nat, Outcome<T>)>,
                                        asked: bool)
    requires |status| == |coros| && LogInv(coros, status, log, asked)
    ensures |log| == |SettledSet(status)|
  {
    var items: seq<int> := seq(|log|, k requires 0 <= k < |log| => log[k].0);
    var all, settled := Counting.UpTo(|log|), SettledSet(status);
    Counting.DistinctEntries(items, all, settled);
    forall i | i in settled ensures exists k :: k in all && items[k] == i {
      assert Logged(log, i);
      var k :| 0 <= k < |log| && log[k].0 == i;
      assert k in all && items[k] == i;
    }
    Counting.CoveredEntries(items, all, settled);
  }

  lemma {:induction false} SettledSize(status: seq<Status>)
    ensures |SettledSet(status)| <= |status|
    ensures |SettledSet(status)| == |status| <==> AllSettled(status)
  {
    var settled, everyone := SettledSet(status), Counting.UpTo(|status|);
    Counting.SubsetSize(settled, everyone);
    if i :| 0 <= i < |status| && !status[i].Settled? {
      Counting.SubsetSize(settled + {i}, everyone);
    } else {
      assert settled == everyone;
    }
  }

  lemma {:induction false} LogSize<T>(limit: nat, coros: seq<Awaitable<T>>, st: State<T>)
    requires Inv(limit, coros, st)
    ensures |st.log| <= |coros|
    ensures |st.log| == |coros| <==> AllSettled(st.status)
  {
    LogCovers(coros, st.status, st.log, st.asked);
    SettledSize(st.status);
  }

  /** How any call ends, cancelled or not: the permits still out are those of the children in flight, so
      all are back with everything settled exactly when the completion that ended it was the last. */
  lemma {:induction false} CallEnds<T>(limit: nat, coros: seq<Awaitable<T>>, returnExceptions: bool, steps: seq<Step>,
                                       end: State<T>)
    requires WholeCall(limit, coros, returnExceptions, steps, end)
    ensures Inv(limit, coros, end) && limit - end.free == |InFlight(end)|
    ensures AllBack(limit, end) <==> |end.log| == |coros|
    ensures returnExceptions || |coros| <= 1 ==> AllBack(limit, end)
  {
    CallInv(limit, coros, returnExceptions, steps, end);
    LogSize(limit, coros, end);
    SettledIsBack(limit, coros, end);
    assert HasFailure(end.log) ==> |end.log| > 0;
  }

  /** Whenever a cancelled call is over its permits are back. */
  ghost predicate CancellingReturnsPermits<T(!new)>(limit: nat, coros: seq<Awaitable<T>>, returnExceptions: bool) {
    forall steps, end: State<T> ::
      WholeCall(limit, coros, returnExceptions, steps, end) && end.asked ==> end.free == limit
  }

  /** The first awaitable runs, the caller is cancelled, the second is refused its permit: without
      return_exceptions that ends the call while the first is still cleaning up. */
  lemma {:induction false} EndsWhileCleaningUp<T>(limit: nat, coros: seq<Awaitable<T>>) returns (end: State<T>)
    requires limit > 0 && |coros| >= 2
    ensures WholeCall(limit, coros, false, [Enter(0), Ask, Settle(1)], end)
    ensures end.asked && end.free == limit - 1 && end.status[0].CleaningUp? && FirstFailure(end.log, CANCELLED)
  {
    var st0: State<T> := Start(limit, |coros|);
    var st1 := Next(coros, st0, Enter(0));
    assert st1.status[1].Waiting? && !AllSettled(st1.status);
    var st2 := Next(coros, st1, Ask);
    assert st2.status[1].Abandoned? && st2.status[0].CleaningUp?;
    end := Next(coros, st2, Settle(1));
    assert Open(false, coros, st0, [], st0);
    OpenExtends(false, coros, st0, [], st0, Enter(0));
    OpenExtends(false, coros, st0, [] + [Enter(0)], st1, Ask);
    OpenExtends(false, coros, st0, [] + [Enter(0)] + [Ask], st2, Settle(1));
    assert [] + [Enter(0)] + [Ask] + [Settle(1)] == [Enter(0), Ask, Settle(1)];
    assert end.log[0].1.Raises?;
  }

  /** The same with both running, for a limit of at least two: the first to end raises its own cleanup
      error, not a CancelledError, and the other still has its permit. */
  lemma {:induction false} RaisesCleanupError<T>(limit: nat, coros: seq<Awaitable<T>>) returns (end: State<T>)
    requires limit >= 2 && |coros| >= 2 && coros[0].cleanup.Raises?
    ensures WholeCall(limit, coros, false, [Enter(0), Enter(1), Ask, Settle(0)], end)
    ensures end.asked && end.free == limit - 1 && end.status[1].CleaningUp?
    ensures FirstFailure(end.log, coros[0].cleanup.error)
  {
    var st0: State<T> := Start(limit, |coros|);
    var st1 := Next(coros, st0, Enter(0));
    var st2 := Next(coros, st1, Enter(1));
    assert st2.status[0].Running? && !AllSettled(st2.status);
    var st3 := Next(coros, st2, Ask);
    assert st3.status[0].CleaningUp? && st3.status[1].CleaningUp?;
    end := Next(coros, st3, Settle(0));
    assert Open(false, coros, st0, [], st0);
    OpenExtends(false, coros, st0, [], st0, Enter(0));
    OpenExtends(false, coros, st0, [] + [Enter(0)], st1, Enter(1));
    OpenExtends(false, coros, st0, [] + [Enter(0)] + [Enter(1)], st2, Ask);
    OpenExtends(false, coros, st0, [] + [Enter(0)] + [Enter(1)] + [Ask], st3, Settle(0));
    assert [] + [Enter(0)] + [Enter(1)] + [Ask] + [Settle(0)] == [Enter(0), Enter(1), Ask, Settle(0)];
    assert end.log[0].1.Raises?;
  }

  lemma {:induction false} SometimesKeepsPermit<T(!new)>(limit: nat, coros: seq<Awaitable<T>>)
    requires limit > 0 && |coros| >= 2
    ensures !CancellingReturnsPermits(limit, coros, false)
  {
    var end := EndsWhileCleaningUp(limit, coros);
    var steps := [Enter(0), Ask, Settle(1)];
    assert WholeCall(limit, coros, false, steps, end) && end.asked && end.free != limit;
  }

  /** Exactly when cancelling a call is sure to give every permit back before the call is over: with
      return_exceptions, or with no more than one awaitable. */
  lemma {:induction false} CancellationIsExact<T(!new)>(limit: nat, coros: seq<Awaitable<T>>, returnExceptions: bool)
    requires limit > 0
    ensures CancellingReturnsPermits(limit, coros, returnExceptions) <==> returnExceptions || |coros| <= 1
  {
    if returnExceptions || |coros| <= 1 {
      forall steps, end: State<T> | WholeCall(limit, coros, returnExceptions, steps, end) && end.asked
        ensures end.free == limit
      {
        CallEnds(limit, coros, returnExceptions, steps, end);
      }
    } else {
      SometimesKeepsPermit(limit, coros);
    }
  }

  // ---------------------------------------------------------------- the two functions

  /** What holds before each turn of an open call and, but for the last clause, when it is over. */
  ghost predicate CallInvariant<T>(limit: nat, coros: seq<Awaitable<T>>, returnExceptions: bool,
                                   cancelAt: Option<nat>, turn: nat, st: State<T>, steps: seq<Step>)
  {
    && Inv(limit, coros, st) && Open(returnExceptions, coros, Start(limit, |coros|), steps, st)
    && (!st.asked ==> turn + Pending(st.status) == 2 * |coros|)
    && (!st.asked && cancelAt.Some? ==> turn <= cancelAt.value)
    && (st.asked ==> cancelAt.Some? && cancelAt.value < 2 * |coros|)
    && (!returnExceptions && |st.log| > 0 ==> !HasFailure(st.log[..|st.log| - 1]))
  }

  lemma {:induction false} CallStarts<T>(limit: nat, coros: seq<Awaitable<T>>, returnExceptions: bool,
                                         cancelAt: Option<nat>)
    ensures CallInvariant(limit, coros, returnExceptions, cancelAt, 0, Start(limit, |coros|), [])
  {
    StartInv(limit, coros);
    PendingAtStart(Start<T>(limit, |coros|).status);
  }

  lemma {:induction false} PrefixClean<T>(log: seq<(nat, Outcome<T>)>, n: nat)
    requires n <= |log|
    ensures HasFailure(log[..n]) ==> HasFailure(log)
  {
    if HasFailure(log[..n]) {
      var k :| 0 <= k < n && log[..n][k].1.Raises?;
      assert log[k].1.Raises?;
    }
  }

  lemma {:induction false} LogStaysClean<T>(returnExceptions: bool, coros: seq<Awaitable<T>>, st: State<T>, step: Step)
    requires |coros| == |st.status| && Enabled(st, step) && !Decided(returnExceptions, st)
    ensures var log := Next(coros, st, step).log;
      !returnExceptions && |log| > 0 ==> !HasFailure(log[..|log| - 1])
  {
    var log := Next(coros, st, step).log;
    if step.Settle? {
      assert log[..|log| - 1] == st.log;
    } else if |log| > 0 && !returnExceptions {
      PrefixClean(log, |log| - 1);
    }
  }

  lemma {:induction false} CallAsks<T>(limit: nat, coros: seq<Awaitable<T>>, returnExceptions: bool,
                                       cancelAt: Option<nat>, turn: nat, st: State<T>, steps: seq<Step>)
    requires CallInvariant(limit, coros, returnExceptions, cancelAt, turn, st, steps) && !Decided(returnExceptions, st)
    requires cancelAt == Some(turn) && !st.asked
    ensures Enabled(st, Ask) && TurnsLeft(Next(coros, st, Ask)) < TurnsLeft(st)
    ensures CallInvariant(limit, coros, returnExceptions, cancelAt, turn, Next(coros, st, Ask), steps + [Ask])
  {
    StepInv(limit, coros, st, Ask);
    StepTakesTurn(coros, st, Ask);
    OpenExtends(returnExceptions, coros, Start(limit, |coros|), steps, st, Ask);
    LogStaysClean(returnExceptions, coros, st, Ask);
    PendingWhenSettled(st.status);
  }

  lemma {:induction false} CallTurns<T>(limit: nat, coros: seq<Awaitable<T>>, returnExceptions: bool,
                                        cancelAt: Option<nat>, turn: nat, st: State<T>, steps: seq<Step>, step: Step)
    requires CallInvariant(limit, coros, returnExceptions, cancelAt, turn, st, steps) && !Decided(returnExceptions, st)
    requires cancelAt != Some(turn) || st.asked
    requires Enabled(st, step) && !step.Ask?
    ensures TurnsLeft(Next(coros, st, step)) < TurnsLeft(st)
    ensures CallInvariant(limit, coros, returnExceptions, cancelAt, turn + 1, Next(coros, st, step), steps + [step])
  {
    StepInv(limit, coros, st, step);
    StepTakesTurn(coros, st, step);
    OpenExtends(returnExceptions, coros, Start(limit, |coros|), steps, st, step);
    LogStaysClean(returnExceptions, coros, st, step);
  }

  /** The turns an adversary may choose from next. */
  predicate Movable<T>(st: State<T>, i: int) {
    0 <= i < |st.status| && (Enabled(st, Enter(i)) || Enabled(st, Settle(i)))
  }

  lemma {:induction false} SomeoneMoves<T>(limit: nat, coros: seq<Awaitable<T>>, st: State<T>)
    requires limit > 0 && Inv(limit, coros, st) && !AllSettled(st.status)
    ensures exists i :: Movable(st, i)
  {
    if forall i :: !Movable(st, i) {
      assert Stuck(st) by {
        forall i: nat ensures !Enabled(st, Enter(i)) && !Enabled(st, Settle(i)) { assert !Movable(st, i); }
      }
      NeverStuckEarly(limit, coros, st);
      assert false;
    }
  }

  lemma {:induction false} FailureIsLast<T>(log: seq<(nat, Outcome<T>)>)
    requires HasFailure(log) && !HasFailure(log[..|log| - 1])
    ensures log[|log| - 1].1.Raises? && FirstFailure(log, log[|log| - 1].1.error)
  {
    assert forall j :: 0 <= j < |log| - 1 ==> log[..|log| - 1][j] == log[j];
    var k :| 0 <= k < |log| && log[k].1.Raises?;
  }

  /** The error a call that is over lets out, if it does. */
  predicate Fails<T>(returnExceptions: bool, end: State<T>) { !returnExceptions && HasFailure(end.log) }

  lemma {:induction false} UnaskedFailure<T>(limit: nat, coros: seq<Awaitable<T>>, st: State<T>)
    requires Inv(limit, coros, st) && !st.asked
    ensures AllReturn(Results(coros)) ==> !HasFailure(st.log)
    ensures AllSettled(st.status) && !HasFailure(st.log) ==> AllReturn(Results(coros))
  {
    if AllReturn(Results(coros)) {
      forall k | 0 <= k < |st.log| ensures st.log[k].1.Returns? {
        assert EndsAs(coros[st.log[k].0], st.log[k].1, false);
        assert Results(coros)[st.log[k].0] == coros[st.log[k].0].result;
      }
    }
    if AllSettled(st.status) && !HasFailure(st.log) {
      CollectIsInput(limit, coros, st);
      forall i | 0 <= i < |coros| ensures Results(coros)[i].Returns? { var k := FindsIt(st.log, i); }
    }
  }

  /** What a call that is over can answer with. */
  lemma {:induction false} CallIsOver<T>(limit: nat, coros: seq<Awaitable<T>>, returnExceptions: bool,
                                         cancelAt: Option<nat>, turn: nat, end: State<T>, steps: seq<Step>)
    requires CallInvariant(limit, coros, returnExceptions, cancelAt, turn, end, steps)
    requires Decided(returnExceptions, end)
    ensures Fails(returnExceptions, end) ==>
              end.log[|end.log| - 1].1.Raises? && FirstFailure(end.log, end.log[|end.log| - 1].1.error)
    ensures !Fails(returnExceptions, end) ==> AllBack(limit, end)
    ensures !Fails(returnExceptions, end) && !end.asked ==>
              && (forall i :: 0 <= i < |coros| ==> Logged(end.log, i))
              && Collect(end.log, |coros|) == Results(coros)
              && (returnExceptions || AllReturn(Results(coros)))
    ensures returnExceptions || AllReturn(Results(coros)) ==>
              (end.asked <==> cancelAt.Some? && cancelAt.value < 2 * |coros|)
              && (!end.asked ==> !Fails(returnExceptions, end))
  {
    if Fails(returnExceptions, end) {
      FailureIsLast(end.log);
    } else {
      SettledIsBack(limit, coros, end);
      if !end.asked { CollectIsInput(limit, coros, end); }
    }
    if !end.asked {
      UnaskedFailure(limit, coros, end);
      PendingWhenSettled(end.status);
    }
  }

  /** gather_with_concurrency under every scheduler; `cancelAt` says after how many turns the awaiting
      caller is cancelled, if ever. `end` is the state in which the call is over, reached by `steps`;
      whatever is then in flight is left to itself. */
  method GatherWithConcurrency<T>(limit: int, coros: seq<Awaitable<T>>, returnExceptions: bool, cancelAt: Option<nat>)
    returns (r: Result<T>, end: State<T>, ghost steps: seq<Step>)
    ensures limit <= 0 <==> r == BadLimit
    ensures limit > 0 ==> WholeCall(limit, coros, returnExceptions, steps, end)
    ensures r.Gathered? ==>
              r.outcomes == Results(coros) && !end.asked && (returnExceptions || AllReturn(Results(coros)))
    ensures r.Raised? ==> if Fails(returnExceptions, end) then FirstFailure(end.log, r.error)
                          else end.asked && r.error == CANCELLED && AllBack(limit, end)
    ensures limit > 0 && returnExceptions ==> AllBack(limit, end)
    ensures end.asked ==> cancelAt.Some?
    ensures limit > 0 && (returnExceptions || AllReturn(Results(coros))) ==>
              (r.Raised? <==> cancelAt.Some? && cancelAt.value < 2 * |coros|)
    ensures limit > 0 && cancelAt.None? && !returnExceptions && !AllReturn(Results(coros)) ==>
              r.Raised? && Raises(r.error) in Results(coros)
  {
    steps := [];
    if limit <= 0 {
      return BadLimit, Start(0, |coros|), [];
    }
    end := Start(limit, |coros|);
    CallStarts(limit, coros, returnExceptions, cancelAt);
    var turn := 0;
    while !Decided(returnExceptions, end)
      invariant CallInvariant(limit, coros, returnExceptions, cancelAt, turn, end, steps)
      decreases TurnsLeft(end)
    {
      if cancelAt == Some(turn) && !end.asked {
        CallAsks(limit, coros, returnExceptions, cancelAt, turn, end, steps);
        end, steps := Next(coros, end, Ask), steps + [Ask];
      } else {
        SomeoneMoves(limit, coros, end);
        var i: nat :| Movable(end, i);
        var step := if Enabled(end, Enter(i)) then Enter(i) else Settle(i);
        CallTurns(limit, coros, returnExceptions, cancelAt, turn, end, steps, step);
        end, steps, turn := Next(coros, end, step), steps + [step], turn + 1;
      }
    }
    CallIsOver(limit, coros, returnExceptions, cancelAt, turn, end, steps);
    if Fails(returnExceptions, end) {
      FailureWasInput(limit, coros, end);
      r := Raised(end.log[|end.log| - 1].1.error);
    } else if end.asked {
      r := Raised(CANCELLED);
    } else {
      r := Gathered(Collect(end.log, |coros|));
    }
  }

  lemma {:induction false} FailureWasInput<T>(limit: nat, coros: seq<Awaitable<T>>, st: State<T>)
    requires Inv(limit, coros, st)
    ensures !st.asked ==> forall k :: 0 <= k < |st.log| ==> st.log[k].1 in Results(coros)
  {
    if !st.asked {
      forall k | 0 <= k < |st.log| ensures st.log[k].1 in Results(coros) {
        assert EndsAs(coros[st.log[k].0], st.log[k].1, false);
        assert Results(coros)[st.log[k].0] == st.log[k].1;
      }
    }
  }

  // ---------------------------------------------------------------- against a plain loop

  /** Map one item after another. */
  function SequentialMap<T, U>(func: T -> Awaitable<U>, items: seq<T>): seq<Outcome<U>> {
    if items == [] then [] else [func(items[0]).result] + SequentialMap(func, items[1..])
  }

  lemma {:induction false} SequentialMapAt<T, U>(func: T -> Awaitable<U>, items: seq<T>)
    ensures |SequentialMap(func, items)| == |items|
    ensures forall i :: 0 <= i < |items| ==> SequentialMap(func, items)[i] == func(items[i]).result
  {
    if items != [] { SequentialMapAt(func, items[1..]); }
  }

  /** A plain loop over the items that lets the first exception out. */
  function SequentialRun<T, U>(func: T -> Awaitable<U>, items: seq<T>): Result<U> {
    if items == [] then Gathered([])
    else if func(items[0]).result.Raises? then Raised(func(items[0]).result.error)
    else
      match SequentialRun(func, items[1..])
      case Gathered(rest) => Gathered([func(items[0]).result] + rest)
      case other => other
  }

  lemma {:induction false} SequentialRunRaises<T, U>(func: T -> Awaitable<U>, items: seq<T>, m: nat)
    requires m < |items| && func(items[m]).result.Raises?
    requires forall k :: 0 <= k < m ==> func(items[k]).result.Returns?
    ensures SequentialRun(func, items) == Raised(func(items[m]).result.error)
  {
    if m > 0 {
      SequentialRunRaises(func, items[1..], m - 1);
    }
  }

  lemma {:induction false} SequentialRunReturns<T, U>(func: T -> Awaitable<U>, items: seq<T>)
    requires forall k :: 0 <= k < |items| ==> func(items[k]).result.Returns?
    ensures SequentialRun(func, items) == Gathered(SequentialMap(func, items))
  {
    if items != [] {
      SequentialRunReturns(func, items[1..]);
    }
  }

  lemma {:induction false} FirstOfTheLoop<T, U>(func: T -> Awaitable<U>, items: seq<T>)
    requires exists i :: 0 <= i < |items| && func(items[i]).result.Raises?
    ensures SequentialRun(func, items).Raised?
  {
    if !func(items[0]).result.Raises? {
      var i :| 0 <= i < |items| && func(items[i]).result.Raises?;
      assert items[1..][i - 1] == items[i];
      FirstOfTheLoop(func, items[1..]);
    }
  }

  /** Items completed in the order they came in. */
  predicate InOrder<T>(log: seq<(nat, Outcome<T>)>) {
    forall k :: 0 <= k < |log| ==> log[k].0 == k
  }

  /** The awaitables of a map, in order. */
  function Calls<T, U>(func: T -> Awaitable<U>, items: seq<T>): seq<Awaitable<U>> {
    seq(|items|, i requires 0 <= i < |items| => func(items[i]))
  }

  lemma {:induction false} CallsAgree<T, U>(func: T -> Awaitable<U>, items: seq<T>)
    ensures Results(Calls(func, items)) == SequentialMap(func, items)
    ensures AllReturn(SequentialMap(func, items)) <==> SequentialRun(func, items).Gathered?
    ensures AllReturn(SequentialMap(func, items)) ==> SequentialRun(func, items) == Gathered(SequentialMap(func, items))
    ensures SequentialRun(func, items).Gathered? || SequentialRun(func, items).Raised?
  {
    SequentialMapAt(func, items);
    if AllReturn(SequentialMap(func, items)) {
      assert forall k :: 0 <= k < |items| ==> SequentialMap(func, items)[k] == func(items[k]).result;
      SequentialRunReturns(func, items);
    } else {
      FirstOfTheLoop(func, items);
    }
  }

  lemma {:induction false} InOrderIsTheLoop<T, U>(limit: nat, func: T -> Awaitable<U>, items: seq<T>, end: State<U>,
                                                  error: string)
    requires Inv(limit, Calls(func, items), end) && !end.asked
    requires FirstFailure(end.log, error) && InOrder(end.log)
    ensures SequentialRun(func, items) == Raised(error)
  {
    var m := |end.log| - 1;
    forall k | 0 <= k <= m ensures k < |items| && func(items[k]).result == end.log[k].1 {
      assert end.log[k].0 == k && EndsAs(Calls(func, items)[end.log[k].0], end.log[k].1, false);
    }
    forall k | 0 <= k < m ensures func(items[k]).result.Returns? {
      assert end.log[..m][k].1.Returns?;
    }
    SequentialRunRaises(func, items, m);
  }

  /** bounded_map against a loop over the items: the same list whenever nothing fails or exceptions are
      returned; otherwise the first failure to complete, which is the loop's own when items complete in
      order. */
  method BoundedMap<T, U>(func: T -> Awaitable<U>, items: seq<T>, limit: int, returnExceptions: bool,
                          cancelAt: Option<nat>)
    returns (r: Result<U>, end: State<U>, ghost steps: seq<Step>)
    ensures limit <= 0 <==> r == BadLimit
    ensures limit > 0 ==> WholeCall(limit, Calls(func, items), returnExceptions, steps, end)
    ensures r.Gathered? ==> r.outcomes == SequentialMap(func, items)
    ensures r.Raised? ==> if Fails(returnExceptions, end) then FirstFailure(end.log, r.error)
                          else end.asked && r.error == CANCELLED && AllBack(limit, end)
    ensures limit > 0 && (returnExceptions || |items| <= 1) ==> AllBack(limit, end)
    ensures end.asked ==> cancelAt.Some?
    ensures limit > 0 && cancelAt.None? && returnExceptions ==> r == Gathered(SequentialMap(func, items))
    ensures limit > 0 && cancelAt.None? && !returnExceptions ==>
              (r.Gathered? <==> SequentialRun(func, items).Gathered?)
              && (r.Gathered? || InOrder(end.log) ==> r == SequentialRun(func, items))
  {
    var coros := Calls(func, items);
    r, end, steps := GatherWithConcurrency(limit, coros, returnExceptions, cancelAt);
    CallsAgree(func, items);
    if limit > 0 {
      CallEnds(limit, coros, returnExceptions, steps, end);
      if r.Raised? && !end.asked && InOrder(end.log) {
        InOrderIsTheLoop(limit, func, items, end, r.error);
      }
    }
  }
}
