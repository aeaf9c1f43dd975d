/** Logins among everything else that runs: what one leaves behind, and who cannot have one. */
module UsersLogins {
  import opened Wrappers
  import opened Users
  import opened UsersTheorems

  // ---------------------------------------------------------------- hashes are brought up to date

  /** The account is gone for good, or its hash has today's parameters. */
  ghost predicate UpToDate(w: World, id: Id) {
    Known(w.registered, PendingIds(w.procs), id) && (id in w.table ==> w.table[id].hash.params == w.params)
  }

  /** What a login knows about its account's hash in each phase. */
  ghost predicate Knows(w: World, c: Call, ph: Phase) {
    c.Authenticate? ==>
      match ph
      case Seen(user) => user.Some? && user.value.1.hash.params == w.params ==> UpToDate(w, user.value.0)
      case Rehashed(_, h) => h.params == w.params
      case Refetched(id, h, row) => h.params == w.params && (row.hash.params == w.params ==> UpToDate(w, id))
      case Flushed(write, _, user) =>
        if write.Patch? then write.changes.hash.Some? && write.changes.hash.value.params == w.params
        else UpToDate(w, user)
      case Returned(user) => UpToDate(w, user)
      case _ => true
  }

  ghost predicate AllKnow(w: World) {
    forall p :: 0 <= p < |w.procs| ==> Knows(w, w.procs[p].call, w.procs[p].phase)
  }

  lemma {:induction false} WrittenIsUpToDate(w: World, p: nat, id: Id)
    requires Safe(w) && AllKnow(w) && p < |w.procs| && w.procs[p].phase.Flushed? && UpToDate(w, id)
    ensures var t' := Apply(w.table, w.procs[p].phase.write);
      id in t' ==> t'[id].hash.params == w.params
  {
    var write := w.procs[p].phase.write;
    assert Fits(w.table, w.registered, PendingIds(w.procs), w.procs[p].call, w.procs[p].phase);
    assert Knows(w, w.procs[p].call, w.procs[p].phase);
    if write.Insert? {
      assert write.id in PendingIds(w.procs);
    }
  }

  lemma {:induction false} KnownStays(w: World, step: Step, id: Id)
    requires Safe(w) && Enabled(w, step) && Known(w.registered, PendingIds(w.procs), id)
    ensures Known(Next(w, step).registered, PendingIds(Next(w, step).procs), id)
    ensures Next(w, step).registered[id] == w.registered[id]
  {
    assert Fits(w.table, w.registered, PendingIds(w.procs), w.procs[step.p].call, w.procs[step.p].phase);
    if !step.FlushInsert? && !step.Commit? && !step.CommitThenRaise? {
      LocalFits(w, step);
    }
    PendingAfter(w.procs, step.p, Next(w, step).procs[step.p], w.registered);
  }

  lemma {:induction false} StaysUpToDate(w: World, step: Step, id: Id)
    requires Safe(w) && AllKnow(w) && Enabled(w, step) && UpToDate(w, id)
    ensures UpToDate(Next(w, step), id) && Next(w, step).registered[id] == w.registered[id]
  {
    KnownStays(w, step, id);
    if step.Commit? || step.CommitThenRaise? {
      WrittenIsUpToDate(w, step.p, id);
    }
  }

  lemma {:induction false} StillKnows(w: World, step: Step, c: Call, ph: Phase)
    requires Safe(w) && AllKnow(w) && Enabled(w, step) && Knows(w, c, ph)
    ensures Knows(Next(w, step), c, ph)
  {
    if c.Authenticate? {
      match ph
      case Seen(user) =>
        if user.Some? && UpToDate(w, user.value.0) { StaysUpToDate(w, step, user.value.0); }
      case Refetched(id, h, row) =>
        if UpToDate(w, id) { StaysUpToDate(w, step, id); }
      case Flushed(_, _, user) =>
        if UpToDate(w, user) { StaysUpToDate(w, step, user); }
      case Returned(user) =>
        StaysUpToDate(w, step, user);
      case _ =>
    }
  }

  /** The moving call's own new phase, judged in the world before the step. */
  lemma {:induction false} MoverKnows(w: World, step: Step)
    requires Safe(w) && AllKnow(w) && Enabled(w, step) && !step.Commit? && !step.CommitThenRaise?
    ensures Knows(w, w.procs[step.p].call, PhaseAfter(w, step))
  {
    var Proc(call, ph) := w.procs[step.p];
    assert Fits(w.table, w.registered, PendingIds(w.procs), call, ph);
    assert Knows(w, call, ph);
    TableIdsAreKnown(w);
    match step
    case Verify(_) =>
      if PhaseAfter(w, step).Returned? { assert UpToDate(w, ph.user.value.0); }
    case Refetch(_) =>
      if ph.id !in w.table { assert UpToDate(w, ph.id); }
    case FlushRehash(_) =>
      if PhaseAfter(w, step).Flushed? && PhaseAfter(w, step).write.Nothing? { assert UpToDate(w, ph.id); }
    case _ =>
  }

  lemma {:induction false} CommitterKnows(w: World, step: Step)
    requires Safe(w) && AllKnow(w) && Enabled(w, step) && (step.Commit? || step.CommitThenRaise?)
    ensures Knows(Next(w, step), w.procs[step.p].call, PhaseAfter(w, step))
  {
    var Proc(call, ph) := w.procs[step.p];
    assert Fits(w.table, w.registered, PendingIds(w.procs), call, ph);
    assert Knows(w, call, ph);
    if call.Authenticate? {
      if ph.write.Patch? {
        TableIdsAreKnown(w);
        KnownStays(w, step, ph.id);
        assert UpToDate(Next(w, step), ph.id);
      } else {
        StaysUpToDate(w, step, ph.id);
      }
    }
  }

  lemma {:induction false} StepKnows(w: World, step: Step)
    requires Safe(w) && AllKnow(w) && Enabled(w, step)
    ensures AllKnow(Next(w, step))
  {
    var w' := Next(w, step);
    forall q | 0 <= q < |w'.procs| ensures Knows(w', w'.procs[q].call, w'.procs[q].phase) {
      if q != step.p {
        StillKnows(w, step, w.procs[q].call, w.procs[q].phase);
      } else if step.Commit? || step.CommitThenRaise? {
        CommitterKnows(w, step);
      } else {
        MoverKnows(w, step);
        StillKnows(w, step, w.procs[q].call, PhaseAfter(w, step));
      }
    }
  }

  lemma {:induction false} PathKnows(w: World, steps: seq<Step>, end: World)
    requires Safe(w) && AllKnow(w) && Path(w, steps, end)
    ensures Safe(end) && AllKnow(end)
    decreases |steps|
  {
    if steps != [] {
      StepSafe(w, steps[0]);
      StepKnows(w, steps[0]);
      PathKnows(Next(w, steps[0]), steps[1..], end);
    }
  }

  /** A login that returned gave the address and password its account was registered with, and from
      then on that account, while it lives, has a hash of today's parameters, whoever else wrote to it. */
  lemma {:induction false} LoginsLeaveCurrentHashes(w: World, steps: seq<Step>, end: World, p: nat)
    requires Initial(w) && Path(w, steps, end)
    requires p < |end.procs| && end.procs[p].call.Authenticate? && end.procs[p].phase.Returned?
    ensures var Proc(c, Returned(id)) := end.procs[p];
      && id in end.registered && end.registered[id] == Account(Lower(c.email), c.password)
      && (id in end.table ==>
            Addressed(end.table[id].email, c.email) && Verifies(end.table[id].hash, c.password)
            && end.table[id].hash.params == end.params)
  {
    AddressedIsLowerAlways();
    InitialSafe(w);
    PathKnows(w, steps, end);
    assert Knows(end, end.procs[p].call, end.procs[p].phase);
    assert Fits(end.table, end.registered, PendingIds(end.procs), end.procs[p].call, end.procs[p].phase);
  }

  // ---------------------------------------------------------------- disabled accounts

  ghost predicate Disabled(t: Table, email: string) {
    forall id :: id in t && Addressed(t[id].email, email) ==> !t[id].isActive
  }

  /** In every state of the run nobody with this address is active. */
  ghost predicate AlwaysDisabled(w: World, steps: seq<Step>, email: string)
    decreases |steps|
  {
    Disabled(w.table, email)
    && (steps != [] && Enabled(w, steps[0]) ==> AlwaysDisabled(Next(w, steps[0]), steps[1..], email))
  }

  ghost predicate ShutOut(ph: Phase) {
    match ph
    case Start => true
    case Seen(user) => user.Some? ==> !user.value.1.isActive
    case Raised(committed) => !committed
    case _ => false
  }

  lemma {:induction false} StaysShutOut(w: World, step: Step, p: nat)
    requires Enabled(w, step) && p < |w.procs| && w.procs[p].call.Authenticate? && ShutOut(w.procs[p].phase)
    requires Disabled(w.table, w.procs[p].call.email)
    ensures Next(w, step).procs[p].call == w.procs[p].call && ShutOut(Next(w, step).procs[p].phase)
  {
    AddressedIsLowerAlways();
    if step.p == p && step.ReadUser? {
      LookupMisses(w.table, w.procs[p].call.email);
    }
  }

  /** While an address belongs to no active account, no login for it gets through or writes. */
  lemma {:induction false} DisabledNeverLogIn(w: World, steps: seq<Step>, end: World, p: nat)
    requires Path(w, steps, end) && p < |w.procs| && w.procs[p].call.Authenticate? && ShutOut(w.procs[p].phase)
    requires AlwaysDisabled(w, steps, w.procs[p].call.email)
    ensures p < |end.procs| && end.procs[p].call == w.procs[p].call && ShutOut(end.procs[p].phase)
    decreases |steps|
  {
    if steps != [] {
      StaysShutOut(w, steps[0], p);
      DisabledNeverLogIn(Next(w, steps[0]), steps[1..], end, p);
    }
  }

  // ---------------------------------------------------------------- the row a login reads decides it

  /** What the select of a login finds in a table. */
  ghost function RowRead(t: Table, email: string): Option<(Id, Row)> {
    var found := GetByEmail(t, email);
    if found.Some? && found.value in t then Some((found.value, t[found.value])) else None
  }

  predicate Passes(found: Option<(Id, Row)>, password: string) {
    found.Some? && Verifies(found.value.1.hash, password) && found.value.1.isActive
  }

  /** A login past its read is where the row it found has put it. */
  ghost predicate DecidedBy(found: Option<(Id, Row)>, c: Call, ph: Phase)
    requires c.Authenticate?
  {
    match ph
    case Seen(user) => user == found
    case Trusted(id) => Passes(found, c.password) && id == found.value.0
    case Rehashed(id, _) => Passes(found, c.password) && id == found.value.0
    case Refetched(id, _, _) => Passes(found, c.password) && id == found.value.0
    case Flushed(_, _, id) => Passes(found, c.password) && id == found.value.0
    case Returned(id) => Passes(found, c.password) && id == found.value.0
    case Raised(committed) => committed ==> Passes(found, c.password)
    case _ => false
  }

  lemma {:induction false} StepStaysDecided(w: World, step: Step, p: nat, found: Option<(Id, Row)>)
    requires Enabled(w, step) && p < |w.procs| && w.procs[p].call.Authenticate?
    requires DecidedBy(found, w.procs[p].call, w.procs[p].phase)
    ensures Next(w, step).procs[p].call == w.procs[p].call
    ensures DecidedBy(found, w.procs[p].call, Next(w, step).procs[p].phase)
  {
  }

  lemma {:induction false} StaysDecided(w: World, steps: seq<Step>, end: World, p: nat, found: Option<(Id, Row)>)
    requires Path(w, steps, end) && p < |w.procs| && w.procs[p].call.Authenticate?
    requires DecidedBy(found, w.procs[p].call, w.procs[p].phase)
    ensures p < |end.procs| && end.procs[p].call == w.procs[p].call
    ensures DecidedBy(found, w.procs[p].call, end.procs[p].phase)
    decreases |steps|
  {
    if steps != [] {
      StepStaysDecided(w, steps[0], p, found);
      StaysDecided(Next(w, steps[0]), steps[1..], end, p, found);
    }
  }

  lemma {:induction false} RaisedStays(w: World, steps: seq<Step>, end: World, p: nat)
    requires Path(w, steps, end) && p < |w.procs| && w.procs[p].phase.Raised?
    ensures p < |end.procs| && end.procs[p] == w.procs[p]
    decreases |steps|
  {
    if steps != [] {
      RaisedStays(Next(w, steps[0]), steps[1..], end, p);
    }
  }

  /** A login is decided by the row it reads, as the table was at that step of the run and whatever is
      committed afterwards: it is past the check, returned or committed, only if that row was active and
      had its password; and when it comes to the check it passes exactly in that case. */
  lemma {:induction false} LoginFollowsItsRead(w: World, steps: seq<Step>, end: World, p: nat)
    returns (n: nat, mid: World)
    requires Path(w, steps, end) && p < |w.procs| && w.procs[p].call.Authenticate? && w.procs[p].phase.Start?
    requires p < |end.procs| && !end.procs[p].phase.Start? && end.procs[p].phase != Raised(false)
    ensures end.procs[p].call == w.procs[p].call
    ensures n < |steps| && Path(w, steps[..n], mid) && steps[n] == ReadUser(p)
    ensures var found := RowRead(mid.table, w.procs[p].call.email);
      && DecidedBy(found, w.procs[p].call, end.procs[p].phase)
      && (end.procs[p].phase.Seen? ==>
            (PhaseAfter(end, Verify(p)).Raised? <==> !Passes(found, w.procs[p].call.password)))
    decreases |steps|
  {
    var step, w' := steps[0], Next(w, steps[0]);
    if step.p == p && step.ReadUser? {
      n, mid := 0, w;
      assert steps[..0] == [];
      StaysDecided(w', steps[1..], end, p, RowRead(w.table, w.procs[p].call.email));
    } else if step.p == p {
      RaisedStays(w', steps[1..], end, p);
      assert false;
    } else {
      n, mid := LoginFollowsItsRead(w', steps[1..], end, p);
      assert steps[..n + 1][1..] == steps[1..][..n] && steps[..n + 1][0] == step;
      n := n + 1;
    }
  }

  function LoginAndDisable(first: Phase, second: Phase, active: bool, log: seq<(nat, Write)>): World {
    World(map[7 := OWNER.(isActive := active)],
          [Proc(Authenticate("a@b.c", "secret"), first), Proc(Update(7, None, Some(Some(false))), second)],
          map[7 := Account("a@b.c", "secret")], log, 0)
  }

  const DISABLE := Patch(7, Changes(None, Some(false), None))
  const SEEN := Seen(Some((7, OWNER)))

  lemma {:induction false} BothRead()
    ensures Path(LoginAndDisable(Start, Start, true, []), [ReadUser(0)] + [Fetch(1)],
                 LoginAndDisable(SEEN, Loaded(OWNER), true, []))
  {
    var w0, w1 := LoginAndDisable(Start, Start, true, []), LoginAndDisable(SEEN, Start, true, []);
    var w2 := LoginAndDisable(SEEN, Loaded(OWNER), true, []);
    LowerOwner();
    LookupMisses(w0.table, "a@b.c");
    assert w0.table[7] == OWNER;
    assert Next(w0, ReadUser(0)).procs == w1.procs;
    assert Next(w1, Fetch(1)).procs == w2.procs;
    Prepend(w1, Fetch(1), w2, [], w2);
    Prepend(w0, ReadUser(0), w1, [Fetch(1)], w2);
  }

  lemma {:induction false} DisableCommits()
    ensures Path(LoginAndDisable(SEEN, Loaded(OWNER), true, []), [FlushUpdate(1)] + [Commit(1)],
                 LoginAndDisable(SEEN, Returned(7), false, [(1, DISABLE)]))
  {
    var w2, w3 := LoginAndDisable(SEEN, Loaded(OWNER), true, []),
                  LoginAndDisable(SEEN, Flushed(DISABLE, Some(OWNER), 7), true, []);
    var w4 := LoginAndDisable(SEEN, Returned(7), false, [(1, DISABLE)]);
    assert Enabled(w2, FlushUpdate(1)) && Next(w2, FlushUpdate(1)).procs == w3.procs;
    assert Next(w3, Commit(1)).procs == w4.procs && Next(w3, Commit(1)).table == w4.table;
    Prepend(w3, Commit(1), w4, [], w4);
    Prepend(w2, FlushUpdate(1), w3, [Commit(1)], w4);
  }

  lemma {:induction false} LoginReturns()
    ensures Path(LoginAndDisable(SEEN, Returned(7), false, [(1, DISABLE)]), [Verify(0)],
                 LoginAndDisable(Returned(7), Returned(7), false, [(1, DISABLE)]))
  {
    var w4, w5 := LoginAndDisable(SEEN, Returned(7), false, [(1, DISABLE)]),
                  LoginAndDisable(Returned(7), Returned(7), false, [(1, DISABLE)]);
    assert Next(w4, Verify(0)).procs == w5.procs;
    Prepend(w4, Verify(0), w5, [], w5);
    assert [Verify(0)] + [] == [Verify(0)];
  }

  lemma {:induction false} LateRun() returns (steps: seq<Step>)
    ensures Path(LoginAndDisable(Start, Start, true, []), steps,
                 LoginAndDisable(Returned(7), Returned(7), false, [(1, DISABLE)]))
  {
    BothRead();
    DisableCommits();
    LoginReturns();
    var xs, ys := [ReadUser(0)] + [Fetch(1)], [FlushUpdate(1)] + [Commit(1)];
    var w0, w2 := LoginAndDisable(Start, Start, true, []), LoginAndDisable(SEEN, Loaded(OWNER), true, []);
    var w4, w5 := LoginAndDisable(SEEN, Returned(7), false, [(1, DISABLE)]),
                  LoginAndDisable(Returned(7), Returned(7), false, [(1, DISABLE)]);
    Join(w2, ys, w4, [Verify(0)], w5);
    Join(w0, xs, w2, ys + [Verify(0)], w5);
    steps := xs + (ys + [Verify(0)]);
  }

  /** So an account disabled while a login is under way can still be logged in to: the disabling has
      committed and returned before the login does. */
  lemma {:induction false} DisabledTooLate() returns (w: World, steps: seq<Step>, end: World)
    ensures Initial(w) && Path(w, steps, end) && |end.procs| == 2
    ensures end.procs[0].call.Authenticate? && end.procs[0].phase == Returned(7)
    ensures end.procs[1].phase.Returned? && 7 in end.table && !end.table[7].isActive
  {
    steps := LateRun();
    w := LoginAndDisable(Start, Start, true, []);
    end := LoginAndDisable(Returned(7), Returned(7), false, [(1, DISABLE)]);
    LowerOwner();
  }
}
