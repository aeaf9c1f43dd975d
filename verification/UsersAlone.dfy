/** What decides each call of the user service: the tables it looks at on its way, in any company, and, when
    nobody else is at work, the table it finds. The latter is what UserService.dfy says of its methods. */
module UsersAlone {
  import opened Wrappers
  import opened Users
  import opened UsersTheorems
  import opened UsersLogins
  import UserServices

  /** No row has the address in any letter case. */
  ghost predicate Free(t: Table, email: string) {
    forall id :: id in t ==> !Addressed(t[id].email, email)
  }

  lemma {:induction false} FreeIsMissed(t: Table, email: string)
    ensures GetByEmail(t, email).None? <==> Free(t, email)
  {
    AddressedIsLowerAlways();
    LookupMisses(t, email);
  }

  // ---------------------------------------------------------------- one step in any company

  /** A registration passes its check exactly when no row has the address at that moment, and is flushed
      exactly when none has at the flush: the whole row as asked for, enabled and no superuser. */
  lemma {:induction false} RegisterStepsExactly(w: World, p: nat, id: Id)
    ensures Enabled(w, LookUp(p)) ==>
              var Proc(c, ph) := w.procs[p];
              PhaseAfter(w, LookUp(p)) == if Free(w.table, c.email) then Checked(ph.hash) else Raised(false)
    ensures Enabled(w, FlushInsert(p, id)) ==>
              var Proc(c, ph) := w.procs[p];
              PhaseAfter(w, FlushInsert(p, id))
              == if Free(w.table, c.email)
                 then Flushed(Insert(id, Row(Lower(c.email), ph.hash, c.fullName, true, false)), None, id)
                 else Raised(false)
  {
    if p < |w.procs| && w.procs[p].call.Register? {
      FreeIsMissed(w.table, w.procs[p].call.email);
    }
  }

  /** Updates and deletes load their row exactly when it is there. */
  lemma {:induction false} FetchExactly(w: World, p: nat)
    requires Enabled(w, Fetch(p))
    ensures var id := w.procs[p].call.id;
      PhaseAfter(w, Fetch(p)) == if id in w.table then Loaded(w.table[id]) else Raised(false)
  {
  }

  /** The request asks for something else than the row has. */
  predicate ChangesRow(row: Row, newName: Option<Option<string>>, newActive: Option<Option<bool>>) {
    || (newName != None && newName != Some(row.fullName))
    || (newActive != None && newActive != Some(Some(row.isActive)))
  }

  /** An update's flush: refused for a null is_active; nothing to send if the loaded row is as asked for;
      an error if that row is gone meanwhile; else a write that makes it so. */
  lemma {:induction false} UpdateFlushExactly(w: World, p: nat)
    requires Enabled(w, FlushUpdate(p))
    ensures var Proc(Update(id, name, active), Loaded(row)) := w.procs[p];
      var after := PhaseAfter(w, FlushUpdate(p));
      if active == Some(None) || (ChangesRow(row, name, active) && id !in w.table) then after == Raised(false)
      else if !ChangesRow(row, name, active) then after == Flushed(Nothing, Some(row), id)
      else after.Flushed? && after.write.Patch? && after.write.id == after.id == id && after.loaded == Some(row)
           && Merge(row, after.write.changes) == UserServices.AsAsked(row, name, active)
  {
    var Proc(Update(id, name, active), Loaded(row)) := w.procs[p];
    if active != Some(None) { DiffExactly(row, name, active); }
  }

  lemma {:induction false} DiffExactly(row: Row, newName: Option<Option<string>>, newActive: Option<Option<bool>>)
    requires newActive != Some(None)
    ensures Diff(row, newName, newActive) == UNCHANGED <==> !ChangesRow(row, newName, newActive)
    ensures Merge(row, Diff(row, newName, newActive)) == UserServices.AsAsked(row, newName, newActive)
  {
    var ch := Diff(row, newName, newActive);
    assert ch.fullName == None <==> newName == None || newName == Some(row.fullName) by {
      if newName.Some? { assert newName == Some(newName.value); }
    }
    assert ch.isActive == None <==> newActive == None || newActive == Some(Some(row.isActive)) by {
      if newActive.Some? { assert newActive == Some(Some(newActive.value.value)); }
    }
    assert ch == Changes(ch.fullName, ch.isActive, None);
  }

  /** A delete's flush erases the row if it is still there and never fails. */
  lemma {:induction false} DeleteFlushExactly(w: World, p: nat)
    requires Enabled(w, FlushDelete(p))
    ensures var Proc(Delete(id), Loaded(row)) := w.procs[p];
      PhaseAfter(w, FlushDelete(p)) == Flushed(if id in w.table then Erase(id) else Nothing, Some(row), id)
  {
  }

  /** A rehash goes by the refetched row: nothing to do if it is gone or has the new hash already, an error
      if it goes between the two, else only the hash is sent. */
  lemma {:induction false} RehashExactly(w: World, p: nat)
    ensures Enabled(w, Refetch(p)) ==>
              var Rehashed(id, h) := w.procs[p].phase;
              PhaseAfter(w, Refetch(p))
              == if id in w.table then Refetched(id, h, w.table[id]) else Flushed(Nothing, None, id)
    ensures Enabled(w, FlushRehash(p)) ==>
              var Refetched(id, h, row) := w.procs[p].phase;
              PhaseAfter(w, FlushRehash(p))
              == if row.hash == h then Flushed(Nothing, Some(row), id)
                 else if id !in w.table then Raised(false)
                 else Flushed(Patch(id, Changes(None, None, Some(h))), Some(row), id)
  {
  }

  /** Every await may fail, leaving the table as it is; a commit may also be applied and still raise. */
  lemma {:induction false} AnyAwaitMayFail(w: World, p: nat)
    requires p < |w.procs|
    ensures !Finished(w.procs[p].phase) ==>
              && Enabled(w, Raise(p)) && Next(w, Raise(p)).table == w.table
              && Next(w, Raise(p)).procs[p].phase == Raised(false)
    ensures w.procs[p].phase.Flushed? ==>
              && Enabled(w, CommitThenRaise(p))
              && Next(w, CommitThenRaise(p)).table == Apply(w.table, w.procs[p].phase.write)
              && Next(w, CommitThenRaise(p)).procs[p].phase == Raised(true)
  {
  }

  // ---------------------------------------------------------------- registrations along a run

  /** The step that took a call to where it is. */
  lemma {:induction false} LastMove(w: World, steps: seq<Step>, end: World, p: nat) returns (n: nat, mid: World)
    requires Path(w, steps, end) && p < |w.procs| && p < |end.procs| && end.procs[p] != w.procs[p]
    ensures n < |steps| && steps[n].p == p && Path(w, steps[..n], mid) && Enabled(mid, steps[n])
    ensures mid.procs[p].call == w.procs[p].call == end.procs[p].call
    ensures PhaseAfter(mid, steps[n]) == end.procs[p].phase
    decreases |steps|
  {
    var w' := Next(w, steps[0]);
    if w'.procs[p] == end.procs[p] {
      n, mid := 0, w;
      assert steps[..0] == [];
    } else {
      n, mid := LastMove(w', steps[1..], end, p);
      assert steps[..n + 1][1..] == steps[1..][..n] && steps[..n + 1][0] == steps[0];
      n := n + 1;
    }
  }

  /** In any company, a registration that is past its check found the address free at its LookUp; one that
      is flushed, returned or committed found it free again at its FlushInsert. */
  lemma {:induction false} RegistrationFollowsItsChecks(w: World, steps: seq<Step>, end: World, p: nat)
    returns (i: nat, looked: World, j: nat, flushed: World)
    requires Path(w, steps, end) && p < |w.procs| && w.procs[p].call.Register? && w.procs[p].phase.Start?
    requires p < |end.procs| && !end.procs[p].phase.Start? && !end.procs[p].phase.Hashed?
    requires end.procs[p].phase != Raised(false)
    ensures i < |steps| && steps[i] == LookUp(p) && Path(w, steps[..i], looked)
    ensures Free(looked.table, w.procs[p].call.email)
    ensures !end.procs[p].phase.Checked? ==>
              i < j < |steps| && steps[j].FlushInsert? && steps[j].p == p && Path(w, steps[..j], flushed)
              && Free(flushed.table, w.procs[p].call.email)
  {
    var n, mid := LastMove(w, steps, end, p);
    if end.procs[p].phase.Returned? || end.procs[p].phase.Raised? {
      j, flushed := LastMove(w, steps[..n], mid, p);
      assert steps[..n][..j] == steps[..j];
    } else {
      j, flushed := n, mid;
    }
    if end.procs[p].phase.Checked? {
      i, looked := n, mid;
    } else {
      RegisterStepsExactly(flushed, p, steps[j].id);
      i, looked := LastMove(w, steps[..j], flushed, p);
      assert steps[..j][..i] == steps[..i];
    }
    RegisterStepsExactly(looked, p, 0);
  }

  // ---------------------------------------------------------------- a call by itself

  /** Row and hash of a new account, some salt apart. */
  ghost predicate NewAccount(row: Row, c: Call, params: nat)
    requires c.Register?
  {
    exists salt: nat :: row == Row(Lower(c.email), Hash(params, salt, c.password), c.fullName, true, false)
  }

  ghost predicate NewHash(h: Hash, password: string, params: nat) { h.params == params && h.password == password }

  /** Where a call that started on table t0 is when nobody else has moved. */
  ghost predicate AloneAt(t0: Table, params: nat, c: Call, ph: Phase, t: Table) {
    match c
    case Register(email, pw, _) =>
      (match ph
       case Start => t == t0
       case Hashed(h) => t == t0 && NewHash(h, pw, params)
       case Checked(h) => t == t0 && NewHash(h, pw, params) && Free(t0, email)
       case Flushed(write, _, id) =>
         t == t0 && Free(t0, email) && id !in t0
         && write.Insert? && write.id == id && NewAccount(write.row, c, params)
       case Returned(id) =>
         Free(t0, email) && id !in t0 && id in t && t == t0[id := t[id]] && NewAccount(t[id], c, params)
       case Raised(_) => t == t0 && !Free(t0, email)
       case _ => false)
    case Update(id, name, active) =>
      (match ph
       case Start => t == t0
       case Loaded(row) => t == t0 && id in t0 && row == t0[id]
       case Flushed(write, _, _) =>
         t == t0 && id in t0 && active != Some(None)
         && Apply(t0, write) == t0[id := UserServices.AsAsked(t0[id], name, active)]
       case Returned(_) => id in t0 && active != Some(None) && t == t0[id := UserServices.AsAsked(t0[id], name, active)]
       case Raised(_) => t == t0 && (id !in t0 || active == Some(None))
       case _ => false)
    case Delete(id) =>
      (match ph
       case Start => t == t0
       case Loaded(_) => t == t0 && id in t0
       case Flushed(write, _, _) => t == t0 && id in t0 && write == Erase(id)
       case Returned(_) => id in t0 && t == t0 - {id}
       case Raised(_) => t == t0 && id !in t0
       case _ => false)
    case Authenticate(email, pw) =>
      var found := RowRead(t0, email);
      (match ph
       case Start => t == t0
       case Seen(user) => t == t0 && user == found
       case Trusted(id) => t == t0 && Outdated(found, id, pw, params)
       case Rehashed(id, h) => t == t0 && Outdated(found, id, pw, params) && NewHash(h, pw, params)
       case Refetched(id, h, row) =>
         t == t0 && Outdated(found, id, pw, params) && NewHash(h, pw, params) && row == found.value.1
       case Flushed(write, _, id) =>
         t == t0 && Outdated(found, id, pw, params)
         && write.Patch? && write.id == id && write.changes.hash.Some? && NewHash(write.changes.hash.value, pw, params)
         && write.changes == Changes(None, None, write.changes.hash)
       case Returned(id) =>
         Passes(found, pw) && id == found.value.0
         && if found.value.1.hash.params == params then t == t0
            else id in t && t == t0[id := found.value.1.(hash := t[id].hash)] && NewHash(t[id].hash, pw, params)
       case Raised(_) => t == t0 && !Passes(found, pw)
       case _ => false)
  }

  ghost predicate Outdated(found: Option<(Id, Row)>, id: Id, password: string, params: nat) {
    Passes(found, password) && id == found.value.0 && found.value.1.hash.params != params
  }

  predicate Smooth(step: Step, p: nat) { step.p == p && !step.Raise? && !step.CommitThenRaise? }

  lemma {:induction false} RowReadIsThere(t: Table, email: string)
    ensures RowRead(t, email).Some? ==> RowRead(t, email).value.0 in t
                                        && t[RowRead(t, email).value.0] == RowRead(t, email).value.1
  {
  }

  lemma {:induction false} AloneRegister(t0: Table, w: World, step: Step)
    requires Safe(w) && Enabled(w, step) && Smooth(step, step.p) && w.procs[step.p].call.Register?
    requires AloneAt(t0, w.params, w.procs[step.p].call, w.procs[step.p].phase, w.table)
    ensures AloneAt(t0, w.params, w.procs[step.p].call, PhaseAfter(w, step), Next(w, step).table)
  {
    var Proc(c, ph) := w.procs[step.p];
    match step
    case LookUp(p) => RegisterStepsExactly(w, p, 0);
    case FlushInsert(p, id) =>
      RegisterStepsExactly(w, p, id);
      assert ph.hash == Hash(w.params, ph.hash.salt, c.password);
    case _ =>
  }

  lemma {:induction false} AloneUpdate(t0: Table, w: World, step: Step)
    requires Enabled(w, step) && Smooth(step, step.p) && w.procs[step.p].call.Update?
    requires AloneAt(t0, w.params, w.procs[step.p].call, w.procs[step.p].phase, w.table)
    ensures AloneAt(t0, w.params, w.procs[step.p].call, PhaseAfter(w, step), Next(w, step).table)
  {
    var Proc(c, ph) := w.procs[step.p];
    if step.FlushUpdate? {
      UpdateFlushExactly(w, step.p);
      if c.newActive != Some(None) && !ChangesRow(ph.row, c.newName, c.newActive) {
        assert UserServices.AsAsked(t0[c.id], c.newName, c.newActive) == t0[c.id];
        assert t0[c.id := t0[c.id]] == t0;
      }
    }
  }

  lemma {:induction false} AloneDelete(t0: Table, w: World, step: Step)
    requires Enabled(w, step) && Smooth(step, step.p) && w.procs[step.p].call.Delete?
    requires AloneAt(t0, w.params, w.procs[step.p].call, w.procs[step.p].phase, w.table)
    ensures AloneAt(t0, w.params, w.procs[step.p].call, PhaseAfter(w, step), Next(w, step).table)
  {
  }

  lemma {:induction false} AloneLogin(t0: Table, w: World, step: Step)
    requires Enabled(w, step) && Smooth(step, step.p) && w.procs[step.p].call.Authenticate?
    requires AloneAt(t0, w.params, w.procs[step.p].call, w.procs[step.p].phase, w.table)
    ensures AloneAt(t0, w.params, w.procs[step.p].call, PhaseAfter(w, step), Next(w, step).table)
  {
    RowReadIsThere(t0, w.procs[step.p].call.email);
  }

  lemma {:induction false} StepAlone(t0: Table, w: World, step: Step)
    requires Safe(w) && Enabled(w, step) && Smooth(step, step.p)
    requires AloneAt(t0, w.params, w.procs[step.p].call, w.procs[step.p].phase, w.table)
    ensures AloneAt(t0, w.params, w.procs[step.p].call, PhaseAfter(w, step), Next(w, step).table)
  {
    match w.procs[step.p].call
    case Register(_, _, _) => AloneRegister(t0, w, step);
    case Update(_, _, _) => AloneUpdate(t0, w, step);
    case Delete(_) => AloneDelete(t0, w, step);
    case Authenticate(_, _) => AloneLogin(t0, w, step);
  }

  lemma {:induction false} PathAlone(t0: Table, w: World, steps: seq<Step>, end: World, p: nat)
    requires Safe(w) && Path(w, steps, end) && p < |w.procs|
    requires forall k :: 0 <= k < |steps| ==> Smooth(steps[k], p)
    requires AloneAt(t0, w.params, w.procs[p].call, w.procs[p].phase, w.table)
    ensures p < |end.procs| && end.procs[p].call == w.procs[p].call
    ensures AloneAt(t0, w.params, w.procs[p].call, end.procs[p].phase, end.table)
    decreases |steps|
  {
    if steps != [] {
      StepAlone(t0, w, steps[0]);
      StepSafe(w, steps[0]);
      PathAlone(t0, Next(w, steps[0]), steps[1..], end, p);
    }
  }

  /** A call that runs by itself without failures ends as its method in UserService.dfy is said to: which
      calls return, which are refused, and what the table is then. */
  lemma {:induction false} AloneEndsAsContracted(w: World, steps: seq<Step>, end: World, p: nat)
    requires Safe(w) && Path(w, steps, end) && p < |w.procs| && w.procs[p].phase.Start?
    requires forall k :: 0 <= k < |steps| ==> Smooth(steps[k], p)
    requires p < |end.procs| && Finished(end.procs[p].phase)
    ensures var t, t', ph := w.table, end.table, end.procs[p].phase;
      match w.procs[p].call
      case Register(email, pw, name) =>
        if Free(t, email)
        then ph.Returned? && ph.id !in t
             && exists salt: nat :: t' == t[ph.id := Row(Lower(email), Hash(w.params, salt, pw), name, true, false)]
        else ph.Raised? && t' == t
      case Update(id, name, active) =>
        if id in t && active != Some(None)
        then ph.Returned? && t' == t[id := UserServices.AsAsked(t[id], name, active)]
        else ph.Raised? && t' == t
      case Delete(id) => if id in t then ph.Returned? && t' == t - {id} else ph.Raised? && t' == t
      case Authenticate(email, pw) =>
        var found := RowRead(t, email);
        if Passes(found, pw)
        then ph == Returned(found.value.0)
             && (if found.value.1.hash.params == w.params then t' == t
                 else exists salt: nat ::
                   t' == t[found.value.0 := found.value.1.(hash := Hash(w.params, salt, pw))])
        else ph.Raised? && t' == t
  {
    PathAlone(w.table, w, steps, end, p);
    SpellOut(w.table, w.params, w.procs[p].call, end.procs[p].phase, end.table);
  }

  lemma {:induction false} SpellOut(t0: Table, params: nat, c: Call, ph: Phase, t: Table)
    requires AloneAt(t0, params, c, ph, t) && Finished(ph)
    ensures c.Register? && ph.Returned? ==>
              exists salt: nat ::
                t == t0[ph.id := Row(Lower(c.email), Hash(params, salt, c.password), c.fullName, true, false)]
    ensures c.Authenticate? && ph.Returned? && RowRead(t0, c.email).value.1.hash.params != params ==>
              var found := RowRead(t0, c.email);
              exists salt: nat :: t == t0[found.value.0 := found.value.1.(hash := Hash(params, salt, c.password))]
  {
    if c.Authenticate? && ph.Returned? && RowRead(t0, c.email).value.1.hash.params != params {
      assert t[ph.id].hash == Hash(params, t[ph.id].hash.salt, c.password);
    }
  }

  // ---------------------------------------------------------------- and it does end

  ghost predicate OthersIdle(w: World, p: nat) {
    forall q :: 0 <= q < |w.procs| && q != p ==> !w.procs[q].phase.Flushed?
  }

  lemma {:induction false} AloneGoesOn(w: World, p: nat) returns (step: Step)
    requires Safe(w) && p < |w.procs| && !Finished(w.procs[p].phase) && OthersIdle(w, p)
    ensures Enabled(w, step) && Smooth(step, p)
  {
    var Proc(call, ph) := w.procs[p];
    assert Fits(w.table, w.registered, PendingIds(w.procs), call, ph);
    var id := FreshId(w.registered.Keys);
    var salt: nat := 0;
    step := match ph
      case Hashed(_) => LookUp(p)
      case Checked(_) => FlushInsert(p, id)
      case Loaded(_) => if call.Update? then FlushUpdate(p) else FlushDelete(p)
      case Seen(_) => Verify(p)
      case Trusted(_) => Rehash(p, salt)
      case Rehashed(_, _) => Refetch(p)
      case Refetched(_, _, _) => FlushRehash(p)
      case Flushed(_, _, _) => Commit(p)
      case _ =>
        if call.Register? then HashPassword(p, salt) else if call.Authenticate? then ReadUser(p) else Fetch(p);
  }

  /** With no open transaction beside it a call has such a run, from wherever it is to its end. */
  lemma {:induction false} AloneFinishes(w: World, p: nat) returns (steps: seq<Step>, end: World)
    requires Safe(w) && p < |w.procs| && OthersIdle(w, p)
    ensures Path(w, steps, end) && forall k :: 0 <= k < |steps| ==> Smooth(steps[k], p)
    ensures p < |end.procs| && Finished(end.procs[p].phase)
    decreases Distance(w.procs[p].phase)
  {
    if Finished(w.procs[p].phase) {
      steps, end := [], w;
    } else {
      var step := AloneGoesOn(w, p);
      StepSafe(w, step);
      StepGetsCloser(w, step);
      var rest;
      rest, end := AloneFinishes(Next(w, step), p);
      Prepend(w, step, Next(w, step), rest, end);
      steps := [step] + rest;
    }
  }
}
