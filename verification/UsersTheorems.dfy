/** What survives every interleaving of the user service. */
module UsersTheorems {
  import opened Wrappers
  import opened Users

  // ---------------------------------------------------------------- the invariant

  ghost predicate TableOk(t: Table, reg: map<Id, Account>) {
    && (forall id :: id in t ==>
          id in reg && reg[id] == Account(t[id].email, t[id].hash.password) && Lower(t[id].email) == t[id].email)
    && (forall i, j :: i in t && j in t && i != j ==> t[i].email != t[j].email)
  }

  /** Ids of rows inserted but not committed. */
  ghost function PendingIds(procs: seq<Proc>): set<Id> {
    set q: int | 0 <= q < |procs| && procs[q].phase.Flushed? && procs[q].phase.write.Insert? :: procs[q].phase.write.id
  }

  /** An id that some committed table has held; it will never be inserted again. */
  ghost predicate Known(reg: map<Id, Account>, pend: set<Id>, id: Id) { id in reg && id !in pend }

  /** The account was created with this address, in any letter case, and this password. */
  ghost predicate Genuine(reg: map<Id, Account>, pend: set<Id>, id: Id, email: string, password: string) {
    Known(reg, pend, id) && reg[id] == Account(Lower(email), password)
  }

  /** What a call has established by the time it is in a phase. */
  ghost predicate Fits(t: Table, reg: map<Id, Account>, pend: set<Id>, c: Call, ph: Phase) {
    match ph
    case Start => true
    case Returned(user) => c.Authenticate? ==> Genuine(reg, pend, user, c.email, c.password)
    case Raised(_) => true
    case Hashed(h) => c.Register? && h.password == c.password
    case Checked(h) => c.Register? && h.password == c.password
    case Loaded(_) => (c.Update? || c.Delete?) && Known(reg, pend, c.id)
    case Seen(user) =>
      c.Authenticate?
      && (user.Some? ==>
            Known(reg, pend, user.value.0)
            && reg[user.value.0] == Account(Lower(c.email), user.value.1.hash.password))
    case Trusted(id) => c.Authenticate? && Genuine(reg, pend, id, c.email, c.password)
    case Rehashed(id, h) =>
      c.Authenticate? && Genuine(reg, pend, id, c.email, c.password) && h.password == c.password
    case Refetched(id, h, _) =>
      c.Authenticate? && Genuine(reg, pend, id, c.email, c.password) && h.password == c.password
    case Flushed(write, loaded, user) => FitsWrite(t, reg, pend, c, write, loaded, user)
  }

  ghost predicate FitsWrite(t: Table, reg: map<Id, Account>, pend: set<Id>, c: Call, write: Write,
                            loaded: Option<Row>, user: Id) {
    match c
    case Register(email, pw, name) =>
      write.Insert? && write.row == NewRow(email, write.row.hash, name) && write.row.hash.password == pw
      && write.id in reg && reg[write.id] == Account(Lower(email), pw) && write.id !in t
      && forall j :: j in t ==> t[j].email != write.row.email
    case Update(id, name, active) =>
      loaded.Some? && active != Some(None) && Known(reg, pend, id)
      && var ch := Diff(loaded.value, name, active);
         if ch == UNCHANGED then write == Nothing else write == Patch(id, ch) && id in t
    case Delete(id) =>
      Known(reg, pend, id) && ((write == Erase(id) && id in t) || (write == Nothing && id !in t))
    case Authenticate(email, pw) =>
      Genuine(reg, pend, user, email, pw)
      && (write == Nothing
          || (write.Patch? && write.id == user && user in t
              && write.changes.fullName.None? && write.changes.isActive.None?
              && write.changes.hash.Some? && write.changes.hash.value.password == pw))
  }

  /** Uncommitted writes never meet: no row is touched twice and no email inserted twice. */
  ghost predicate Apart(a: Write, b: Write) {
    && (a.Nothing? || b.Nothing? || a.id != b.id)
    && (a.Insert? && b.Insert? ==> a.row.email != b.row.email)
  }

  ghost predicate Open(procs: seq<Proc>, p: int) { 0 <= p < |procs| && procs[p].phase.Flushed? }

  ghost predicate Exclusive(procs: seq<Proc>) {
    forall p, q :: Open(procs, p) && Open(procs, q) && p != q ==> Apart(procs[p].phase.write, procs[q].phase.write)
  }

  ghost predicate AllFit(w: World) {
    forall p :: 0 <= p < |w.procs| ==>
      Fits(w.table, w.registered, PendingIds(w.procs), w.procs[p].call, w.procs[p].phase)
  }

  ghost predicate Safe(w: World) {
    TableOk(w.table, w.registered) && AllFit(w) && Exclusive(w.procs)
  }

  // ---------------------------------------------------------------- preservation

  lemma {:induction false} LookupMisses(t: Table, email: string)
    ensures GetByEmail(t, email).None? ==> forall id :: id in t ==> t[id].email != Lower(email)
    ensures GetByEmail(t, email).Some? ==>
              GetByEmail(t, email).value in t && t[GetByEmail(t, email).value].email == Lower(email)
  {
  }

  lemma {:induction false} PendingAfter(procs: seq<Proc>, p: nat, proc: Proc, reg: map<Id, Account>)
    requires p < |procs|
    requires proc.phase.Flushed? && proc.phase.write.Insert? ==>
               proc.phase == procs[p].phase || proc.phase.write.id !in reg
    ensures forall id :: id in PendingIds(procs[p := proc]) ==> id in PendingIds(procs) || id !in reg
  {
    var procs' := procs[p := proc];
    forall id | id in PendingIds(procs') ensures id in PendingIds(procs) || id !in reg {
      var q :| 0 <= q < |procs'| && procs'[q].phase.Flushed?
               && procs'[q].phase.write.Insert? && procs'[q].phase.write.id == id;
      if q != p {
        assert procs[q] == procs'[q];
      }
    }
  }

  /** Remembering one more password, or another call's insertion of a fresh id, disturbs nobody. */
  lemma {:induction false} FitsMonotone(t: Table, reg: map<Id, Account>, pend: set<Id>, reg': map<Id, Account>,
                                        pend': set<Id>, c: Call, ph: Phase)
    requires Fits(t, reg, pend, c, ph)
    requires forall id :: id in reg ==> id in reg' && reg'[id] == reg[id]
    requires forall id :: id in pend' ==> id in pend || id !in reg
    ensures Fits(t, reg', pend', c, ph)
  {
  }

  /** The moving call's own new phase, apart from commits and inserts. */
  lemma {:induction false} LocalFits(w: World, step: Step)
    requires Safe(w) && Enabled(w, step)
    requires !step.Commit? && !step.CommitThenRaise? && !step.FlushInsert?
    ensures Fits(w.table, w.registered, PendingIds(w.procs), w.procs[step.p].call, PhaseAfter(w, step))
    ensures PhaseAfter(w, step).Flushed? ==> !PhaseAfter(w, step).write.Insert?
  {
    var Proc(call, ph) := w.procs[step.p];
    assert Fits(w.table, w.registered, PendingIds(w.procs), call, ph);
    TableIdsAreKnown(w);
    match step
    case ReadUser(_) => LookupMisses(w.table, call.email);
    case _ =>
  }

  lemma {:induction false} TableIdsAreKnown(w: World)
    requires Safe(w)
    ensures forall id :: id in w.table ==> Known(w.registered, PendingIds(w.procs), id)
  {
    forall id | id in PendingIds(w.procs) ensures id !in w.table {
      var q :| Open(w.procs, q) && w.procs[q].phase.write.Insert? && w.procs[q].phase.write.id == id;
      assert Fits(w.table, w.registered, PendingIds(w.procs), w.procs[q].call, w.procs[q].phase);
    }
  }

  /** A flush that was let through touches nothing another open transaction touches. */
  lemma {:induction false} FlushIsApart(w: World, step: Step, q: nat)
    requires Safe(w) && Enabled(w, step) && q < |w.procs| && q != step.p && w.procs[q].phase.Flushed?
    requires !step.Commit? && !step.CommitThenRaise? && PhaseAfter(w, step).Flushed?
    ensures Apart(PhaseAfter(w, step).write, w.procs[q].phase.write)
    ensures Apart(w.procs[q].phase.write, PhaseAfter(w, step).write)
  {
    var Proc(call, ph) := w.procs[step.p];
    var other := w.procs[q].phase.write;
    var pend := PendingIds(w.procs);
    assert Fits(w.table, w.registered, pend, call, ph);
    assert Fits(w.table, w.registered, pend, w.procs[q].call, w.procs[q].phase);
    TableIdsAreKnown(w);
    if other.Insert? {
      assert other.id in pend;
    }
    if !PhaseAfter(w, step).write.Nothing? {
      assert !Conflict(w.table, other, PhaseAfter(w, step).write);
    }
  }

  lemma {:induction false} QuietStep(w: World, step: Step)
    requires Safe(w) && Enabled(w, step)
    requires !step.Commit? && !step.CommitThenRaise? && !step.FlushInsert?
    ensures Safe(Next(w, step))
  {
    var w', p := Next(w, step), step.p;
    LocalFits(w, step);
    PendingAfter(w.procs, p, w'.procs[p], w.registered);
    forall q | 0 <= q < |w'.procs|
      ensures Fits(w'.table, w'.registered, PendingIds(w'.procs), w'.procs[q].call, w'.procs[q].phase)
    {
      assert Fits(w.table, w.registered, PendingIds(w.procs), w'.procs[q].call, w'.procs[q].phase);
      FitsMonotone(w.table, w.registered, PendingIds(w.procs), w.registered, PendingIds(w'.procs),
                   w'.procs[q].call, w'.procs[q].phase);
    }
    StepIsExclusive(w, step);
  }

  lemma {:induction false} StepIsExclusive(w: World, step: Step)
    requires Safe(w) && Enabled(w, step)
    ensures Exclusive(Next(w, step).procs)
  {
    var w', p := Next(w, step), step.p;
    forall a, b | Open(w'.procs, a) && Open(w'.procs, b) && a != b
      ensures Apart(w'.procs[a].phase.write, w'.procs[b].phase.write)
    {
      if a == p {
        FlushIsApart(w, step, b);
      } else if b == p {
        FlushIsApart(w, step, a);
      } else {
        assert w'.procs[a] == w.procs[a] && w'.procs[b] == w.procs[b];
        assert Open(w.procs, a) && Open(w.procs, b);
      }
    }
  }

  lemma {:induction false} InsertStep(w: World, step: Step)
    requires Safe(w) && Enabled(w, step) && step.FlushInsert?
    ensures Safe(Next(w, step))
  {
    var w', p := Next(w, step), step.p;
    var Proc(call, ph) := w.procs[p];
    assert Fits(w.table, w.registered, PendingIds(w.procs), call, ph);
    LookupMisses(w.table, call.email);
    PendingAfter(w.procs, p, w'.procs[p], w.registered);
    forall q | 0 <= q < |w'.procs|
      ensures Fits(w'.table, w'.registered, PendingIds(w'.procs), w'.procs[q].call, w'.procs[q].phase)
    {
      if q != p {
        assert Fits(w.table, w.registered, PendingIds(w.procs), w.procs[q].call, w.procs[q].phase);
        FitsMonotone(w.table, w.registered, PendingIds(w.procs), w'.registered, PendingIds(w'.procs),
                     w'.procs[q].call, w'.procs[q].phase);
      }
    }
    StepIsExclusive(w, step);
  }

  /** Committing one write leaves what every other call has established in place. */
  lemma {:induction false} FitsCommit(t: Table, reg: map<Id, Account>, pend: set<Id>, write: Write, c: Call, ph: Phase)
    requires Fits(t, reg, pend, c, ph)
    requires ph.Flushed? ==> Apart(write, ph.write)
    requires write.Insert? ==> write.id in pend
    requires ph.Flushed? && write.Insert? && ph.write.Insert? ==> write.row.email != ph.write.row.email
    ensures Fits(Apply(t, write), reg, pend, c, ph)
  {
    if ph.Flushed? && c.Register? {
      var t' := Apply(t, write);
      forall j | j in t' ensures t'[j].email != ph.write.row.email {
        if j in t { assert t[j].email != ph.write.row.email; }
      }
    }
  }

  lemma {:induction false} CommitStep(w: World, step: Step)
    requires Safe(w) && Enabled(w, step) && (step.Commit? || step.CommitThenRaise?)
    ensures Safe(Next(w, step))
  {
    var w', p := Next(w, step), step.p;
    var pend, pend' := PendingIds(w.procs), PendingIds(w'.procs);
    var write := w.procs[p].phase.write;
    assert Fits(w.table, w.registered, pend, w.procs[p].call, w.procs[p].phase);
    PendingAfter(w.procs, p, w'.procs[p], w.registered);
    forall q | 0 <= q < |w'.procs|
      ensures Fits(w'.table, w'.registered, pend', w'.procs[q].call, w'.procs[q].phase)
    {
      if q != p {
        assert w'.procs[q] == w.procs[q];
        assert Fits(w.table, w.registered, pend, w.procs[q].call, w.procs[q].phase);
        FitsCommit(w.table, w.registered, pend, write, w.procs[q].call, w.procs[q].phase);
        FitsMonotone(w'.table, w.registered, pend, w.registered, pend', w.procs[q].call, w.procs[q].phase);
      }
    }
    StepIsExclusive(w, step);
    CommittedTableOk(w.table, w.registered, pend, w.procs[p].call, w.procs[p].phase);
  }

  lemma {:induction false} CommittedTableOk(t: Table, reg: map<Id, Account>, pend: set<Id>, c: Call, ph: Phase)
    requires TableOk(t, reg) && ph.Flushed? && Fits(t, reg, pend, c, ph)
    ensures TableOk(Apply(t, ph.write), reg)
  {
    if c.Register? {
      LowerTwice(c.email);
    }
  }

  lemma {:induction false} LowerTwice(s: string)
    ensures Lower(Lower(s)) == Lower(s)
  {
  }

  lemma {:induction false} StepSafe(w: World, step: Step)
    requires Safe(w) && Enabled(w, step)
    ensures Safe(Next(w, step))
  {
    if step.Commit? || step.CommitThenRaise? {
      CommitStep(w, step);
    } else if step.FlushInsert? {
      InsertStep(w, step);
    } else {
      QuietStep(w, step);
    }
  }

  lemma {:induction false} PathSafe(w: World, steps: seq<Step>, end: World)
    requires Safe(w) && Path(w, steps, end)
    ensures Safe(end)
    decreases |steps|
  {
    if steps != [] {
      StepSafe(w, steps[0]);
      PathSafe(Next(w, steps[0]), steps[1..], end);
    }
  }

  /** Any table whose rows are sound, and any calls about to start on it. */
  ghost predicate Initial(w: World) {
    TableOk(w.table, w.registered) && w.log == [] && forall p :: 0 <= p < |w.procs| ==> w.procs[p].phase.Start?
  }

  lemma {:induction false} InitialSafe(w: World)
    requires Initial(w)
    ensures Safe(w)
  {
    assert PendingIds(w.procs) == {};
  }

  // ---------------------------------------------------------------- passwords and emails

  ghost predicate Grows(a: map<Id, Account>, b: map<Id, Account>) {
    forall id :: id in a ==> id in b && b[id] == a[id]
  }

  lemma {:induction false} RegisteredGrows(w: World, steps: seq<Step>, end: World)
    requires Path(w, steps, end)
    ensures Grows(w.registered, end.registered)
    decreases |steps|
  {
    if steps != [] {
      RegisteredGrows(Next(w, steps[0]), steps[1..], end);
    }
  }

  /** Password invariant: in every reachable state every stored hash verifies the password its user
      registered with and no other, however many logins rehash at once. */
  lemma {:induction false} PasswordsSurvive(w: World, steps: seq<Step>, end: World)
    requires Initial(w) && Path(w, steps, end)
    ensures forall id :: id in end.table ==>
              id in end.registered && end.table[id].email == end.registered[id].email
              && forall pw :: Verifies(end.table[id].hash, pw) <==> pw == end.registered[id].password
    ensures Grows(w.registered, end.registered)
  {
    InitialSafe(w);
    PathSafe(w, steps, end);
    RegisteredGrows(w, steps, end);
  }

  /** Emails stay in lower case and distinct in any letter case, and a lookup in any letter case finds
      exactly its user, or nobody when nobody has the address. */
  lemma {:induction false} EmailsStayUnique(w: World, steps: seq<Step>, end: World)
    requires Initial(w) && Path(w, steps, end)
    ensures forall id :: id in end.table ==> NoCapitals(end.table[id].email)
    ensures forall i, j :: i in end.table && j in end.table && SameLetters(end.table[i].email, end.table[j].email) ==>
              i == j
    ensures forall id, email :: id in end.table && SameLetters(end.table[id].email, email) ==>
              GetByEmail(end.table, email) == Some(id)
    ensures forall email :: (forall id :: id in end.table ==> !SameLetters(end.table[id].email, email)) ==>
              GetByEmail(end.table, email) == None
  {
    InitialSafe(w);
    PathSafe(w, steps, end);
    forall id | id in end.table ensures NoCapitals(end.table[id].email) {
      LowerForgetsCase(end.table[id].email, "");
    }
    forall i, email | i in end.table
      ensures SameLetters(end.table[i].email, email) <==> end.table[i].email == Lower(email)
    {
      AddressedIsLower(end.table[i].email, email);
    }
    forall i, j | i in end.table && j in end.table && SameLetters(end.table[i].email, end.table[j].email)
      ensures i == j
    {
      assert end.table[i].email == Lower(end.table[j].email);
    }
    forall email ensures (forall id :: id in end.table ==> end.table[id].email != Lower(email)) ==>
                           GetByEmail(end.table, email) == None
    {
      LookupMisses(end.table, email);
    }
    forall id, email | id in end.table && SameLetters(end.table[id].email, email)
      ensures GetByEmail(end.table, email) == Some(id)
    {
      LookupMisses(end.table, email);
    }
  }

  // ---------------------------------------------------------------- atomicity

  ghost function Replay(base: Table, log: seq<(nat, Write)>): Table {
    if log == [] then base else Apply(Replay(base, log[..|log| - 1]), log[|log| - 1].1)
  }

  /** A write that is the whole of what its call does, and nothing else. */
  ghost predicate Suits(c: Call, write: Write) {
    match c
    case Register(email, pw, name) =>
      write.Insert? && write.row.email == Lower(email) && Verifies(write.row.hash, pw)
      && write.row.fullName == name && write.row.isActive && !write.row.isSuperuser
    case Update(id, name, active) =>
      write == Nothing
      || (write.Patch? && write.id == id && write.changes.hash.None?
          && (write.changes.fullName.Some? ==> write.changes.fullName == name)
          && (write.changes.isActive.Some? ==> active == Some(write.changes.isActive)))
    case Delete(id) => write == Nothing || write == Erase(id)
    case Authenticate(_, pw) =>
      write == Nothing
      || (write.Patch? && write.changes.fullName.None? && write.changes.isActive.None?
          && write.changes.hash.Some? && Verifies(write.changes.hash.value, pw))
  }

  ghost predicate InLog(log: seq<(nat, Write)>, p: int) {
    exists k :: 0 <= k < |log| && log[k].0 == p
  }

  /** The committed table is the replay of whole writes, one for each call that committed. */
  ghost predicate Accounted(base: Table, w: World) {
    w.table == Replay(base, w.log) && LogSound(w.procs, w.log) && LogComplete(w.procs, w.log)
  }

  ghost predicate LogSound(procs: seq<Proc>, log: seq<(nat, Write)>) {
    && (forall k :: 0 <= k < |log| ==>
          log[k].0 < |procs| && Suits(procs[log[k].0].call, log[k].1)
          && (procs[log[k].0].phase.Returned? || procs[log[k].0].phase == Raised(true)))
    && (forall k, m :: 0 <= k < m < |log| ==> log[k].0 != log[m].0)
  }

  /** Calls that must have committed: a login may return without a transaction. */
  ghost predicate Committed(proc: Proc) {
    proc.phase == Raised(true) || (proc.phase.Returned? && !proc.call.Authenticate?)
  }

  ghost predicate LogComplete(procs: seq<Proc>, log: seq<(nat, Write)>) {
    forall p :: 0 <= p < |procs| && Committed(procs[p]) ==> InLog(log, p)
  }

  lemma {:induction false} FlushedSuits(t: Table, reg: map<Id, Account>, pend: set<Id>, c: Call, ph: Phase)
    requires ph.Flushed? && Fits(t, reg, pend, c, ph)
    ensures Suits(c, ph.write)
  {
  }

  lemma {:induction false} SameLog(procs: seq<Proc>, log: seq<(nat, Write)>, p: nat, proc: Proc)
    requires LogSound(procs, log) && LogComplete(procs, log) && p < |procs|
    requires !Finished(procs[p].phase) && !Committed(proc)
    ensures LogSound(procs[p := proc], log) && LogComplete(procs[p := proc], log)
  {
    assert forall k :: 0 <= k < |log| ==> log[k].0 != p;
    forall q | 0 <= q < |procs| && Committed(procs[p := proc][q]) ensures InLog(log, q) {
      assert q != p && Committed(procs[q]);
    }
  }

  lemma {:induction false} LongerLog(procs: seq<Proc>, log: seq<(nat, Write)>, p: nat, proc: Proc, write: Write)
    requires LogSound(procs, log) && LogComplete(procs, log) && p < |procs|
    requires !Finished(procs[p].phase) && (proc.phase.Returned? || proc.phase == Raised(true))
    requires Suits(proc.call, write)
    ensures LogSound(procs[p := proc], log + [(p, write)]) && LogComplete(procs[p := proc], log + [(p, write)])
  {
    var log' := log + [(p, write)];
    assert forall k :: 0 <= k < |log| ==> log[k].0 != p;
    forall q | 0 <= q < |procs| && Committed(procs[p := proc][q]) ensures InLog(log', q) {
      if q == p {
        assert log'[|log|].0 == p;
      } else {
        var k :| 0 <= k < |log| && log[k].0 == q;
        assert log'[k].0 == q;
      }
    }
  }

  lemma {:induction false} QuietAccounted(base: Table, w: World, step: Step)
    requires Safe(w) && Accounted(base, w) && Enabled(w, step) && !step.Commit? && !step.CommitThenRaise?
    ensures Accounted(base, Next(w, step))
  {
    var p := step.p;
    assert Fits(w.table, w.registered, PendingIds(w.procs), w.procs[p].call, w.procs[p].phase);
    SameLog(w.procs, w.log, p, Proc(w.procs[p].call, PhaseAfter(w, step)));
  }

  lemma {:induction false} OpenWriteSuits(w: World, p: nat)
    requires Safe(w) && p < |w.procs| && w.procs[p].phase.Flushed?
    ensures Suits(w.procs[p].call, w.procs[p].phase.write)
  {
    assert Fits(w.table, w.registered, PendingIds(w.procs), w.procs[p].call, w.procs[p].phase);
    FlushedSuits(w.table, w.registered, PendingIds(w.procs), w.procs[p].call, w.procs[p].phase);
  }

  lemma {:induction false} CommitAccounted(base: Table, w: World, step: Step)
    requires Accounted(base, w) && Enabled(w, step) && (step.Commit? || step.CommitThenRaise?)
    requires Suits(w.procs[step.p].call, w.procs[step.p].phase.write)
    ensures Accounted(base, Next(w, step))
  {
    var p, write := step.p, w.procs[step.p].phase.write;
    var w', proc := Next(w, step), Proc(w.procs[p].call, PhaseAfter(w, step));
    assert w'.procs == w.procs[p := proc] && w'.log == w.log + [(p, write)] && w'.table == Apply(w.table, write);
    LongerLog(w.procs, w.log, p, proc, write);
    ReplayOneMore(base, w.log, (p, write));
  }

  lemma {:induction false} ReplayOneMore(base: Table, log: seq<(nat, Write)>, entry: (nat, Write))
    ensures Replay(base, log + [entry]) == Apply(Replay(base, log), entry.1)
  {
    assert (log + [entry])[..|log|] == log;
  }

  lemma {:induction false} PathAccounted(base: Table, w: World, steps: seq<Step>, end: World)
    requires Safe(w) && Accounted(base, w) && Path(w, steps, end)
    ensures Accounted(base, end)
    decreases |steps|
  {
    if steps != [] {
      StepSafe(w, steps[0]);
      if steps[0].Commit? || steps[0].CommitThenRaise? {
        OpenWriteSuits(w, steps[0].p);
        CommitAccounted(base, w, steps[0]);
      } else {
        QuietAccounted(base, w, steps[0]);
      }
      PathAccounted(base, Next(w, steps[0]), steps[1..], end);
    }
  }

  /** Transaction atomicity: at every moment the table any reader sees is the initial one with whole
      writes applied, each of them the full effect of one call that has committed; a call whose body
      raised is not among them, and one that returned normally from a transaction is, exactly once. */
  lemma {:induction false} Atomicity(w: World, steps: seq<Step>, end: World)
    requires Initial(w) && Path(w, steps, end)
    ensures end.table == Replay(w.table, end.log)
    ensures forall k :: 0 <= k < |end.log| ==>
              end.log[k].0 < |end.procs| && Suits(end.procs[end.log[k].0].call, end.log[k].1)
    ensures forall k, m :: 0 <= k < m < |end.log| ==> end.log[k].0 != end.log[m].0
    ensures forall p :: 0 <= p < |end.procs| && end.procs[p].phase == Raised(false) ==> !InLog(end.log, p)
    ensures forall p :: 0 <= p < |end.procs| && end.procs[p].phase.Returned? && !end.procs[p].call.Authenticate? ==>
              InLog(end.log, p)
  {
    InitialSafe(w);
    InitialAccounted(w);
    PathAccounted(w.table, w, steps, end);
  }

  lemma {:induction false} InitialAccounted(w: World)
    requires Initial(w)
    ensures Accounted(w.table, w)
  {
  }

  // ---------------------------------------------------------------- effects at commit

  /** Only the row the call is about changes, and it becomes what the call asked for. */
  lemma {:induction false} RegisterEffect(w: World, p: nat)
    requires Safe(w) && Enabled(w, Commit(p)) && w.procs[p].call.Register?
    ensures var c, id, t' := w.procs[p].call, w.procs[p].phase.write.id, Next(w, Commit(p)).table;
      id !in w.table && t'.Keys == w.table.Keys + {id}
      && (forall j :: j in w.table ==> t'[j] == w.table[j])
      && Addressed(t'[id].email, c.email) && Verifies(t'[id].hash, c.password)
      && t'[id].fullName == c.fullName && t'[id].isActive && !t'[id].isSuperuser
  {
    AddressedIsLowerAlways();
    assert Fits(w.table, w.registered, PendingIds(w.procs), w.procs[p].call, w.procs[p].phase);
  }

  lemma {:induction false} DeleteEffect(w: World, p: nat)
    requires Safe(w) && Enabled(w, Commit(p)) && w.procs[p].call.Delete?
    ensures Next(w, Commit(p)).table == w.table - {w.procs[p].call.id}
  {
    assert Fits(w.table, w.registered, PendingIds(w.procs), w.procs[p].call, w.procs[p].phase);
  }

  /** A rehash replaces one hash by another of the same password and nothing else. */
  lemma {:induction false} RehashEffect(w: World, p: nat)
    requires Safe(w) && Enabled(w, Commit(p)) && w.procs[p].call.Authenticate?
    ensures var t' := Next(w, Commit(p)).table;
      t'.Keys == w.table.Keys
      && forall id :: id in w.table ==>
           t'[id] == w.table[id].(hash := t'[id].hash) && t'[id].hash.password == w.table[id].hash.password
  {
    assert Fits(w.table, w.registered, PendingIds(w.procs), w.procs[p].call, w.procs[p].phase);
  }

  ghost predicate NameAsked(c: Call, t: Table)
    requires c.Update?
  {
    c.newName.Some? ==> c.id in t && t[c.id].fullName == c.newName.value
  }

  ghost predicate ActiveAsked(c: Call, t: Table)
    requires c.Update?
  {
    c.newActive.Some? ==> c.id in t && Some(t[c.id].isActive) == c.newActive.value
  }

  /** An update that returns has made a requested field what was asked, exactly when the request
      changed the value it had loaded, or nobody changed or removed that value since. */
  lemma {:induction false} UpdateEffect(w: World, p: nat)
    requires Safe(w) && Enabled(w, Commit(p)) && w.procs[p].call.Update?
    ensures w.procs[p].phase.loaded.Some?
    ensures var c, old_, t, t' := w.procs[p].call, w.procs[p].phase.loaded.value, w.table, Next(w, Commit(p)).table;
      && (NameAsked(c, t') <==>
            (c.newName.Some? ==> c.newName.value != old_.fullName || (c.id in t && t[c.id].fullName == old_.fullName)))
      && (ActiveAsked(c, t') <==>
            (c.newActive.Some? ==>
               c.newActive.value != Some(old_.isActive) || (c.id in t && t[c.id].isActive == old_.isActive)))
      && t'.Keys == t.Keys
      && (forall j :: j in t && j != c.id ==> t'[j] == t[j])
      && (c.id in t ==> t'[c.id] == t[c.id].(fullName := t'[c.id].fullName, isActive := t'[c.id].isActive)
                        && (c.newName.None? ==> t'[c.id].fullName == t[c.id].fullName)
                        && (c.newActive.None? ==> t'[c.id].isActive == t[c.id].isActive))
  {
    assert Fits(w.table, w.registered, PendingIds(w.procs), w.procs[p].call, w.procs[p].phase);
  }

  // ---------------------------------------------------------------- a no-op that loses

  const OWNER := Row("a@b.c", Hash(0, 0, "secret"), Some("A"), true, false)

  function TwoUpdates(first: Phase, second: Phase, name: string, log: seq<(nat, Write)>): World {
    World(map[7 := OWNER.(fullName := Some(name))],
          [Proc(Update(7, Some(Some("A")), None), first), Proc(Update(7, Some(Some("B")), None), second)],
          map[7 := Account("a@b.c", "secret")], log, 0)
  }

  const B_PATCH := Patch(7, Changes(Some(Some("B")), None, None))

  lemma {:induction false} BothLoad()
    ensures Path(TwoUpdates(Start, Start, "A", []), [Fetch(0)] + [Fetch(1)],
                 TwoUpdates(Loaded(OWNER), Loaded(OWNER), "A", []))
  {
    var w0, w1 := TwoUpdates(Start, Start, "A", []), TwoUpdates(Loaded(OWNER), Start, "A", []);
    var w2 := TwoUpdates(Loaded(OWNER), Loaded(OWNER), "A", []);
    assert w0.table[7] == OWNER;
    assert Next(w0, Fetch(0)).procs == w1.procs;
    assert Next(w1, Fetch(1)).procs == w2.procs;
    Prepend(w1, Fetch(1), w2, [], w2);
    Prepend(w0, Fetch(0), w1, [Fetch(1)], w2);
  }

  lemma {:induction false} SecondCommits()
    ensures Path(TwoUpdates(Loaded(OWNER), Loaded(OWNER), "A", []), [FlushUpdate(1)] + [Commit(1)],
                 TwoUpdates(Loaded(OWNER), Returned(7), "B", [(1, B_PATCH)]))
  {
    var w2, w3 := TwoUpdates(Loaded(OWNER), Loaded(OWNER), "A", []),
                  TwoUpdates(Loaded(OWNER), Flushed(B_PATCH, Some(OWNER), 7), "A", []);
    var w4 := TwoUpdates(Loaded(OWNER), Returned(7), "B", [(1, B_PATCH)]);
    assert Enabled(w2, FlushUpdate(1)) && Next(w2, FlushUpdate(1)).procs == w3.procs;
    assert Next(w3, Commit(1)).procs == w4.procs && Next(w3, Commit(1)).table == w4.table;
    Prepend(w3, Commit(1), w4, [], w4);
    Prepend(w2, FlushUpdate(1), w3, [Commit(1)], w4);
  }

  lemma {:induction false} FirstSendsNothing()
    ensures Path(TwoUpdates(Loaded(OWNER), Returned(7), "B", [(1, B_PATCH)]), [FlushUpdate(0)] + [Commit(0)],
                 TwoUpdates(Returned(7), Returned(7), "B", [(1, B_PATCH), (0, Nothing)]))
  {
    var w4, w5 := TwoUpdates(Loaded(OWNER), Returned(7), "B", [(1, B_PATCH)]),
                  TwoUpdates(Flushed(Nothing, Some(OWNER), 7), Returned(7), "B", [(1, B_PATCH)]);
    var w6 := TwoUpdates(Returned(7), Returned(7), "B", [(1, B_PATCH), (0, Nothing)]);
    assert Enabled(w4, FlushUpdate(0)) && Next(w4, FlushUpdate(0)).procs == w5.procs;
    assert Next(w5, Commit(0)).procs == w6.procs;
    Prepend(w5, Commit(0), w6, [], w6);
    Prepend(w4, FlushUpdate(0), w5, [Commit(0)], w6);
  }

  lemma {:induction false} Join(w: World, xs: seq<Step>, mid: World, ys: seq<Step>, end: World)
    requires Path(w, xs, mid) && Path(mid, ys, end)
    ensures Path(w, xs + ys, end)
    decreases |xs|
  {
    if xs == [] {
      assert xs + ys == ys;
    } else {
      assert (xs + ys)[1..] == xs[1..] + ys;
      Join(Next(w, xs[0]), xs[1..], mid, ys, end);
    }
  }

  lemma {:induction false} LostRun() returns (steps: seq<Step>)
    ensures Path(TwoUpdates(Start, Start, "A", []), steps,
                 TwoUpdates(Returned(7), Returned(7), "B", [(1, B_PATCH), (0, Nothing)]))
  {
    BothLoad();
    SecondCommits();
    FirstSendsNothing();
    var xs, ys, zs := [Fetch(0)] + [Fetch(1)], [FlushUpdate(1)] + [Commit(1)], [FlushUpdate(0)] + [Commit(0)];
    var w0, w2 := TwoUpdates(Start, Start, "A", []), TwoUpdates(Loaded(OWNER), Loaded(OWNER), "A", []);
    var w4, w6 := TwoUpdates(Loaded(OWNER), Returned(7), "B", [(1, B_PATCH)]),
                  TwoUpdates(Returned(7), Returned(7), "B", [(1, B_PATCH), (0, Nothing)]);
    Join(w2, ys, w4, zs, w6);
    Join(w0, xs, w2, ys + zs, w6);
    steps := xs + (ys + zs);
  }

  /** The second half of the condition is needed: asked to set the name it already saw, an update
      sends nothing, returns, and the other update's name stays. */
  lemma {:induction false} LostNoOpUpdate() returns (w: World, steps: seq<Step>, end: World)
    ensures Initial(w) && Path(w, steps, end) && |end.procs| > 0
    ensures end.procs[0].phase.Returned? && end.procs[0].call.Update? && !NameAsked(end.procs[0].call, end.table)
  {
    steps := LostRun();
    w := TwoUpdates(Start, Start, "A", []);
    end := TwoUpdates(Returned(7), Returned(7), "B", [(1, B_PATCH), (0, Nothing)]);
    LowerOwner();
  }

  lemma {:induction false} LowerOwner()
    ensures Lower("a@b.c") == "a@b.c"
  {
  }

  ghost predicate Moves(w: World, step: Step, w': World) { Enabled(w, step) && Next(w, step) == w' }

  lemma {:induction false} Prepend(w: World, step: Step, mid: World, steps: seq<Step>, end: World)
    requires Moves(w, step, mid) && Path(mid, steps, end)
    ensures Path(w, [step] + steps, end)
  {
    assert ([step] + steps)[1..] == steps;
  }

  // ---------------------------------------------------------------- progress and termination

  lemma {:induction false} FreshId(used: set<nat>) returns (id: nat)
    ensures forall x :: x in used ==> x < id
    decreases |used|
  {
    if used == {} {
      id := 0;
    } else {
      var x :| x in used;
      id := FreshId(used - {x});
      assert forall y :: y in used ==> y == x || y in used - {x};
      if id <= x { id := x + 1; }
    }
  }

  /** Row and key locks never deadlock: while a call is unfinished, some call can take its next step
      without failing. */
  lemma {:induction false} LocksNeverDeadlock(w: World) returns (step: Step)
    requires Safe(w)
    requires exists p :: 0 <= p < |w.procs| && !Finished(w.procs[p].phase)
    ensures Enabled(w, step) && !step.Raise? && !step.CommitThenRaise?
  {
    if p: nat :| p < |w.procs| && w.procs[p].phase.Flushed? {
      step := Commit(p);
    } else {
      var p: nat :| p < |w.procs| && !Finished(w.procs[p].phase);
      var Proc(call, ph) := w.procs[p];
      assert Fits(w.table, w.registered, PendingIds(w.procs), call, ph);
      var id := FreshId(w.registered.Keys);
      var salt: nat := 0;
      step := match ph
        case Hashed(_) => LookUp(p)
        case Checked(_) => FlushInsert(p, id)
        case Loaded(_) => if call.Update? then FlushUpdate(p) else FlushDelete(p)
        case Seen(_) => Verify(p)
        case Trusted(_) => Rehash(p, salt)
        case Rehashed(_, _) => Refetch(p)
        case Refetched(_, _, _) => FlushRehash(p)
        case _ =>
          if call.Register? then HashPassword(p, salt) else if call.Authenticate? then ReadUser(p) else Fetch(p);
    }
  }

  ghost function Distance(ph: Phase): nat {
    match ph
    case Start => 7
    case Hashed(_) => 6
    case Seen(_) => 6
    case Checked(_) => 5
    case Loaded(_) => 5
    case Trusted(_) => 5
    case Rehashed(_, _) => 4
    case Refetched(_, _, _) => 3
    case Flushed(_, _, _) => 2
    case Returned(_) => 0
    case Raised(_) => 0
  }

  ghost function Remaining(procs: seq<Proc>): nat {
    if procs == [] then 0 else Distance(procs[0].phase) + Remaining(procs[1..])
  }

  lemma {:induction false} RemainingUpdate(procs: seq<Proc>, p: nat, proc: Proc)
    requires p < |procs|
    ensures Remaining(procs[p := proc]) == Remaining(procs) - Distance(procs[p].phase) + Distance(proc.phase)
  {
    if p > 0 {
      assert procs[p := proc][1..] == procs[1..][p - 1 := proc];
      RemainingUpdate(procs[1..], p - 1, proc);
    } else {
      assert procs[p := proc][1..] == procs[1..];
    }
  }

  lemma {:induction false} StepGetsCloser(w: World, step: Step)
    requires Enabled(w, step)
    ensures Distance(PhaseAfter(w, step)) < Distance(w.procs[step.p].phase)
  {
  }

  /** Every run is finite: n calls take at most seven steps each. */
  lemma {:induction false} EveryRunEnds(w: World, steps: seq<Step>, end: World)
    requires Path(w, steps, end)
    ensures |steps| + Remaining(end.procs) <= Remaining(w.procs)
    decreases |steps|
  {
    if steps != [] {
      var p := steps[0].p;
      StepGetsCloser(w, steps[0]);
      RemainingUpdate(w.procs, p, Proc(w.procs[p].call, PhaseAfter(w, steps[0])));
      EveryRunEnds(Next(w, steps[0]), steps[1..], end);
    }
  }
}
