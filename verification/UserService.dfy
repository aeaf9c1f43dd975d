/** The calls of UserService one at a time, statement by statement, with every await free to fail.
    Users.dfy has the same calls interleaved; here each is proved against what it must do alone. */
module UserServices {
  import opened Wrappers
  import opened Users
  import opened Session

  datatype Error = NotFound | Conflict | Unauthorized | Aborted

  datatype Result<+T> = Ok(value: T) | Err(error: Error)

  /** Fates of one transaction: its entry, its reads, the flush of what it has sent, its exit. */
  datatype Fates = Fates(enter: EnterFate, readsOk: bool, flushOk: bool, exit: ExitFate) {
    /** The call gets to see the table. */
    predicate Reaches(connected: bool) { enter.Begins? && connected && readsOk }

    /** It also gets to the end of its body. */
    predicate Flushes(connected: bool) { Reaches(connected) && flushOk }
  }

  /** run_cpu_bound: the permit is returned whether the job is awaited to its end or not. */
  method RunCpuBound<R>(cpu: Semaphore, job: () -> R, completes: bool) returns (r: Option<R>)
    requires cpu.value > 0
    modifies cpu
    ensures cpu.value == old(cpu.value)
    ensures r == if completes then Some(job()) else None
  {
    cpu.Acquire();
    r := if completes then Some(job()) else None;
    cpu.Release();
  }

  /** get_by_email over a snapshot. */
  method SelectByEmail(t: Table, email: string) returns (found: Option<Id>)
    ensures found.None? ==> forall id :: id in t ==> !Addressed(t[id].email, email)
    ensures found.Some? ==> found.value in t && Addressed(t[found.value].email, email)
  {
    AddressedIsLowerAlways();
    var rest := t.Keys;
    while rest != {}
      invariant rest <= t.Keys
      invariant forall id :: id in t && id !in rest ==> t[id].email != Lower(email)
      decreases |rest|
    {
      var id: Id :| id in rest;
      if t[id].email == Lower(email) {
        return Some(id);
      }
      rest := rest - {id};
    }
    return None;
  }

  /** One entry of model_dump(exclude_unset=True). */
  datatype Field = FullName(name: Option<string>) | Active(active: Option<bool>)

  function Dump(newName: Option<Option<string>>, newActive: Option<Option<bool>>): seq<Field> {
    (if newName.Some? then [FullName(newName.value)] else [])
    + (if newActive.Some? then [Active(newActive.value)] else [])
  }

  /** The attributes after the assignments; `nulled` when is_active was set to None. */
  datatype Entity = Entity(row: Row, nulled: bool)

  function Assigned(e: Entity, data: seq<Field>): Entity {
    if data == [] then e
    else
      var before := Assigned(e, data[..|data| - 1]);
      match data[|data| - 1]
      case FullName(n) => before.(row := before.row.(fullName := n))
      case Active(Some(b)) => Entity(before.row.(isActive := b), false)
      case Active(None) => before.(nulled := true)
  }

  /** for field, value in data.items(): setattr(user, field, value) */
  method SetAttributes(row: Row, data: seq<Field>) returns (e: Entity)
    ensures e == Assigned(Entity(row, false), data)
  {
    e := Entity(row, false);
    var i := 0;
    while i < |data|
      invariant 0 <= i <= |data| && e == Assigned(Entity(row, false), data[..i])
    {
      match data[i] {
        case FullName(n) => e := e.(row := e.row.(fullName := n));
        case Active(Some(b)) => e := Entity(e.row.(isActive := b), false);
        case Active(None) => e := e.(nulled := true);
      }
      i := i + 1;
      assert data[..i][..i - 1] == data[..i - 1];
    }
    assert data[..i] == data;
  }

  /** The row with every requested field as requested. */
  function AsAsked(row: Row, newName: Option<Option<string>>, newActive: Option<Option<bool>>): Row
    requires newActive != Some(None)
  {
    row.(fullName := if newName.Some? then newName.value else row.fullName,
         isActive := if newActive.Some? then newActive.value.value else row.isActive)
  }

  /** The loop over the dumped fields leaves exactly the row that sending the net changes gives, and
      that is the row the request asks for; an explicit null for is_active is the one refusal. */
  lemma {:induction false} AssignmentsAreNetChanges(row: Row, newName: Option<Option<string>>,
                                                    newActive: Option<Option<bool>>)
    ensures Assigned(Entity(row, false), Dump(newName, newActive)).nulled <==> newActive == Some(None)
    ensures Assigned(Entity(row, false), Dump(newName, newActive)).row == Merge(row, Diff(row, newName, newActive))
    ensures newActive != Some(None) ==> Merge(row, Diff(row, newName, newActive)) == AsAsked(row, newName, newActive)
  {
    var e, data := Entity(row, false), Dump(newName, newActive);
    if newActive.Some? {
      assert data[..|data| - 1] == Dump(newName, None);
    }
    if newName.Some? {
      assert Dump(newName, None)[..0] == [];
    }
    var named := if newName.Some? then row.(fullName := newName.value) else row;
    assert Assigned(e, Dump(newName, None)) == Entity(named, false);
  }

  class UserService {
    const db: Database
    const cpu: Semaphore
    const params: nat

    constructor (db: Database, cpu: Semaphore, params: nat)
      ensures this.db == db && this.cpu == cpu && this.params == params
    {
      this.db := db;
      this.cpu := cpu;
      this.params := params;
    }

    /** A fresh id and salt come from outside. */
    method Register(email: string, password: string, fullName: Option<string>, salt: nat, id: Id, hashOk: bool,
                    f: Fates)
      returns (r: Result<Id>)
      requires db.pool != cpu && cpu.value > 0 && (f.enter.CancelledWaiting? || db.pool.value > 0)
      requires id !in db.table
      modifies cpu, db`table, db.pool
      ensures cpu.value == old(cpu.value)
      ensures db.pool.value == old(db.pool.value) - if hashOk && Leaks(db.connected, f.enter, f.exit) then 1 else 0
      ensures var taken := exists j :: j in old(db.table) && Addressed(old(db.table)[j].email, email);
        && (r == Ok(id) <==> hashOk && f.Flushes(db.connected) && !taken && f.exit.commit.CommitOk? && f.exit.closeOk)
        && (r == Err(Conflict) <==> hashOk && f.Reaches(db.connected) && taken && f.exit.rollbackOk && f.exit.closeOk)
        && db.table == (if hashOk && f.Flushes(db.connected) && !taken && !f.exit.commit.CommitFails?
                        then old(db.table)[id := Row(Lower(email), Hash(params, salt, password), fullName, true, false)]
                        else old(db.table))
      ensures r.Ok? ==> r.value == id
      ensures r.Ok? ==> Addressed(db.table[id].email, email)
    {
      AddressedIsLowerAlways();
      var hashed := RunCpuBound(cpu, () => Hash(params, salt, password), hashOk);
      if hashed.None? {
        return Err(Aborted);
      }
      var uow := new UnitOfWork(db);
      var ok := uow.Aenter(f.enter);
      if !ok {
        return Err(Aborted);
      }
      if !f.readsOk {
        ok := uow.Aexit(true, f.exit);
        return Err(Aborted);
      }
      var existing := SelectByEmail(db.table, email);
      if existing.Some? {
        ok := uow.Aexit(true, f.exit);
        return Err(if ok then Conflict else Aborted);
      }
      uow.Send(Insert(id, NewRow(email, hashed.value, fullName)));
      ok := uow.Aexit(!f.flushOk, f.exit);
      OneWrite(old(db.table), Insert(id, NewRow(email, hashed.value, fullName)));
      return if ok && f.flushOk then Ok(id) else Err(Aborted);
    }

    method Update(id: Id, newName: Option<Option<string>>, newActive: Option<Option<bool>>, f: Fates)
      returns (r: Result<Row>)
      requires f.enter.CancelledWaiting? || db.pool.value > 0
      modifies db`table, db.pool
      ensures db.pool.value == old(db.pool.value) - if Leaks(db.connected, f.enter, f.exit) then 1 else 0
      ensures var t, sends := old(db.table), f.Flushes(db.connected) && id in old(db.table) && newActive != Some(None);
        && (r.Ok? <==> sends && f.exit.commit.CommitOk? && f.exit.closeOk)
        && (r == Err(NotFound) <==> f.Reaches(db.connected) && id !in t && f.exit.rollbackOk && f.exit.closeOk)
        && db.table == (if sends && !f.exit.commit.CommitFails? then t[id := AsAsked(t[id], newName, newActive)] else t)
        && (r.Ok? ==> r.value == db.table[id])
    {
      var uow := new UnitOfWork(db);
      var ok := uow.Aenter(f.enter);
      if !ok {
        return Err(Aborted);
      }
      if !f.readsOk {
        ok := uow.Aexit(true, f.exit);
        return Err(Aborted);
      }
      if id !in db.table {
        ok := uow.Aexit(true, f.exit);
        return Err(if ok then NotFound else Aborted);
      }
      var row := db.table[id];
      var user := SetAttributes(row, Dump(newName, newActive));
      AssignmentsAreNetChanges(row, newName, newActive);
      var write := Patch(id, Diff(row, newName, newActive));
      uow.Send(write);
      var raised := user.nulled || !f.flushOk;      // is_active is NOT NULL
      ok := uow.Aexit(raised, f.exit);
      OneWrite(old(db.table), write);
      assert Apply(old(db.table), write) == old(db.table)[id := user.row];
      return if ok && !raised then Ok(user.row) else Err(Aborted);
    }

    method Delete(id: Id, f: Fates) returns (r: Result<()>)
      requires f.enter.CancelledWaiting? || db.pool.value > 0
      modifies db`table, db.pool
      ensures db.pool.value == old(db.pool.value) - if Leaks(db.connected, f.enter, f.exit) then 1 else 0
      ensures var t := old(db.table);
        && (r.Ok? <==> f.Flushes(db.connected) && id in t && f.exit.commit.CommitOk? && f.exit.closeOk)
        && (r == Err(NotFound) <==> f.Reaches(db.connected) && id !in t && f.exit.rollbackOk && f.exit.closeOk)
        && db.table == if f.Flushes(db.connected) && !f.exit.commit.CommitFails? then t - {id} else t
    {
      var uow := new UnitOfWork(db);
      var ok := uow.Aenter(f.enter);
      if !ok {
        return Err(Aborted);
      }
      if !f.readsOk {
        ok := uow.Aexit(true, f.exit);
        return Err(Aborted);
      }
      if id !in db.table {
        assert db.table - {id} == db.table;
        ok := uow.Aexit(true, f.exit);
        return Err(if ok then NotFound else Aborted);
      }
      uow.Send(Erase(id));
      ok := uow.Aexit(!f.flushOk, f.exit);
      OneWrite(old(db.table), Erase(id));
      return if ok && f.flushOk then Ok(()) else Err(Aborted);
    }

    /** readOk: the lookup's own session; verifyOk: the first CPU job; f: the rehash. Only an account
        whose hash has other parameters than today's is written to, and only when the login is valid. */
    method Authenticate(email: string, password: string, salt: nat, readOk: bool, verifyOk: bool, hashOk: bool,
                        f: Fates)
      returns (r: Result<Id>)
      requires db.pool != cpu && cpu.value > 0 && db.pool.value > 0
      requires forall i, j :: i in db.table && j in db.table && i != j ==> db.table[i].email != db.table[j].email
      modifies cpu, db`table, db.pool
      ensures cpu.value == old(cpu.value)
      ensures forall id :: id in old(db.table) && Addressed(old(db.table)[id].email, email) ==>
        var t, row, outdated := old(db.table), old(db.table)[id], old(db.table)[id].hash.params != params;
        var valid := Verifies(row.hash, password) && row.isActive;
        && (r == Ok(id) <==> readOk && db.connected && verifyOk && valid
                             && (outdated ==> hashOk && f.Flushes(db.connected)
                                              && f.exit.commit.CommitOk? && f.exit.closeOk))
        && (r == Err(Unauthorized) <==> readOk && db.connected && verifyOk && !valid)
        && db.table == (if readOk && db.connected && verifyOk && valid && outdated
                           && hashOk && f.Flushes(db.connected) && !f.exit.commit.CommitFails?
                        then t[id := row.(hash := Hash(params, salt, password))] else t)
        && db.pool.value == old(db.pool.value)
             - (if readOk && db.connected && verifyOk && valid && outdated && hashOk && Leaks(true, f.enter, f.exit)
                then 1 else 0)
      ensures (forall id :: id in old(db.table) ==> !Addressed(old(db.table)[id].email, email)) ==>
        !r.Ok? && db.table == old(db.table) && (r == Err(Unauthorized) <==> readOk && db.connected && verifyOk)
    {
      AddressedIsLowerAlways();
      var ok := db.ReadScope(false, readOk, true);
      if !ok {
        return Err(Aborted);
      }
      var user := SelectByEmail(db.table, email);
      var candidate: Option<Hash> := if user.Some? then Some(db.table[user.value].hash) else None;
      var isValid := RunCpuBound(cpu, () => candidate.Some? && Verifies(candidate.value, password), verifyOk);
      if isValid.None? {
        return Err(Aborted);
      }
      if user.None? || !isValid.value || !db.table[user.value].isActive {
        return Err(Unauthorized);
      }
      var id := user.value;
      if db.table[id].hash.params != params {
        ok := RehashStored(id, password, salt, hashOk, f);
        if !ok {
          return Err(Aborted);
        }
      }
      return Ok(id);
    }

    method RehashStored(id: Id, password: string, salt: nat, hashOk: bool, f: Fates) returns (ok: bool)
      requires db.pool != cpu && cpu.value > 0 && db.pool.value > 0 && db.connected
      requires id in db.table
      modifies cpu, db`table, db.pool
      ensures cpu.value == old(cpu.value)
      ensures db.pool.value == old(db.pool.value) - if hashOk && Leaks(true, f.enter, f.exit) then 1 else 0
      ensures ok <==> hashOk && f.Flushes(true) && f.exit.commit.CommitOk? && f.exit.closeOk
      ensures db.table == if hashOk && f.Flushes(true) && !f.exit.commit.CommitFails?
                          then old(db.table)[id := old(db.table)[id].(hash := Hash(params, salt, password))]
                          else old(db.table)
    {
      var newHash := RunCpuBound(cpu, () => Hash(params, salt, password), hashOk);
      if newHash.None? {
        return false;
      }
      ok := StoreHash(id, newHash.value, f);
    }

    /** Refetch by id, and write only if the row is still there. */
    method StoreHash(id: Id, newHash: Hash, f: Fates) returns (ok: bool)
      requires db.pool.value > 0 && db.connected
      modifies db`table, db.pool
      ensures db.pool.value == old(db.pool.value) - if Leaks(true, f.enter, f.exit) then 1 else 0
      ensures ok <==> f.Reaches(true) && (id in old(db.table) ==> f.flushOk)
                      && f.exit.commit.CommitOk? && f.exit.closeOk
      ensures db.table == if id in old(db.table) && f.Flushes(true) && !f.exit.commit.CommitFails?
                          then old(db.table)[id := old(db.table)[id].(hash := newHash)]
                          else old(db.table)
    {
      var uow := new UnitOfWork(db);
      ok := uow.Aenter(f.enter);
      if !ok {
        return false;
      }
      if !f.readsOk {
        ok := uow.Aexit(true, f.exit);
        return false;
      }
      var write := Patch(id, Changes(None, None, Some(newHash)));
      var raised := false;
      if id in db.table {
        uow.Send(write);
        raised := !f.flushOk;
      }
      ok := uow.Aexit(raised, f.exit);
      ok := ok && !raised;
      OneWrite(old(db.table), write);
    }
  }

  lemma {:induction false} OneWrite(t: Table, w: Write)
    ensures ApplyAll(t, [] + [w]) == Apply(t, w)
  {
    assert ([] + [w])[..0] == [];
    assert ApplyAll(t, []) == t;
  }
}
