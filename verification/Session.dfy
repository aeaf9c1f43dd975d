/** Database sessions and UnitOfWork: the database permit and the transaction, step by step. */
module Session {
  import opened Wrappers
  import opened Users

  /** asyncio.Semaphore; a caller of Acquire is resumed only when a permit is there for it. */
  class Semaphore {
    var value: nat

    constructor (limit: nat)
      ensures value == limit
    {
      value := limit;
    }

    method Acquire()
      requires value > 0
      modifies this
      ensures value == old(value) - 1
    {
      value := value - 1;
    }

    method Release()
      modifies this
      ensures value == old(value) + 1
    {
      value := value + 1;
    }
  }

  /** `connected` stands for both the engine and the sessionmaker; `table` is what is committed. */
  class Database {
    const pool: Semaphore
    var connected: bool
    var table: Table

    constructor (pool: Semaphore)
      ensures this.pool == pool && !connected && table == map[]
    {
      this.pool := pool;
      connected := false;
      table := map[];
    }

    /** `async with db.session()`: whatever goes wrong inside, the permit comes back. */
    method ReadScope(cancelledWaiting: bool, body: bool, closes: bool) returns (ok: bool)
      requires cancelledWaiting || pool.value > 0
      modifies pool
      ensures pool.value == old(pool.value)
      ensures ok <==> !cancelledWaiting && connected && body && closes
    {
      if cancelledWaiting {
        return false;
      }
      pool.Acquire();
      ok := connected;              // the sessionmaker property raises when there is none
      if ok {
        ok := body && closes;
      }
      pool.Release();
    }
  }

  function ApplyAll(t: Table, writes: seq<Write>): Table {
    if writes == [] then t else Apply(ApplyAll(t, writes[..|writes| - 1]), writes[|writes| - 1])
  }

  /** One after the other, in the order sent. */
  lemma {:induction false} AppliesInOrder(t: Table, first: seq<Write>, last: Write)
    ensures ApplyAll(t, []) == t
    ensures ApplyAll(t, first + [last]) == Apply(ApplyAll(t, first), last)
  {
    assert (first + [last])[..|first|] == first;
  }

  predicate Visible(t: Table, write: Write) { write.Patch? ==> write.id in t }

  /** Every write finds its row after the ones before it. */
  predicate AllVisible(t: Table, writes: seq<Write>) {
    forall i :: 0 <= i < |writes| ==> Visible(ApplyAll(t, writes[..i]), writes[i])
  }

  datatype EnterFate = CancelledWaiting | BeginFails | Begins

  /** CommitLost: the server committed but the client got an error. */
  datatype CommitFate = CommitOk | CommitFails | CommitLost

  datatype ExitFate = ExitFate(commit: CommitFate, rollbackOk: bool, closeOk: bool)

  class UnitOfWork {
    const db: Database
    var session: Option<seq<Write>>
    var semCtx: Semaphore?

    constructor (db: Database)
      ensures this.db == db && session == None && semCtx == null
    {
      this.db := db;
      session := None;
      semCtx := null;
    }

    /** __aenter__: nothing here gives the permit back once it is taken. */
    method Aenter(fate: EnterFate) returns (ok: bool)
      requires fate.CancelledWaiting? || db.pool.value > 0
      requires session == None
      modifies this, db.pool
      ensures ok <==> fate.Begins? && db.connected
      ensures semCtx == db.pool
      ensures session == if !fate.CancelledWaiting? && db.connected then Some([]) else None
      ensures db.pool.value == if fate.CancelledWaiting? then old(db.pool.value) else old(db.pool.value) - 1
    {
      semCtx := db.pool;
      if fate.CancelledWaiting? {
        return false;
      }
      semCtx.Acquire();
      if !db.connected {
        return false;
      }
      session := Some([]);
      return fate.Begins?;
    }

    /** An UPDATE is only ever sent for a row the transaction can see. */
    method Send(write: Write)
      requires session.Some? && Visible(ApplyAll(db.table, session.value), write)
      modifies this`session
      ensures session == Some(old(session.value) + [write])
    {
      session := Some(session.value + [write]);
    }

    /** __aexit__: commit or roll back, then close and only then release. */
    method Aexit(raised: bool, fate: ExitFate) returns (ok: bool)
      requires session.Some? && semCtx == db.pool
      modifies this, db`table, db.pool
      ensures ok <==> fate.closeOk && if raised then fate.rollbackOk else fate.commit.CommitOk?
      ensures db.table == if raised || fate.commit.CommitFails? then old(db.table)
                          else ApplyAll(old(db.table), old(session.value))
      ensures db.pool.value == if fate.closeOk then old(db.pool.value) + 1 else old(db.pool.value)
      ensures fate.closeOk ==> session == None && semCtx == null
    {
      if !raised {
        ok := fate.commit.CommitOk?;
        if !fate.commit.CommitFails? {
          db.table := ApplyAll(db.table, session.value);
        }
      } else {
        ok := fate.rollbackOk;
      }
      if !fate.closeOk {
        return false;
      }
      session := None;
      if semCtx != null {
        semCtx.Release();
        semCtx := null;
      }
    }
  }

  /** What the code between enter and exit does: send these writes and finish, or raise. */
  datatype Body = Finishes(writes: seq<Write>) | BodyRaises(sent: seq<Write>) {
    function Writes(): seq<Write> { if Finishes? then writes else sent }
  }

  /** The permit is lost exactly when entering fails after the acquire or close() raises. */
  predicate Leaks(connected: bool, enter: EnterFate, exit: ExitFate) {
    !enter.CancelledWaiting? && (!connected || enter.BeginFails? || !exit.closeOk)
  }

  /** `async with UnitOfWork(db) as uow: body`, for every fate of every await in it. */
  method InUnitOfWork(db: Database, body: Body, enter: EnterFate, exit: ExitFate) returns (ok: bool)
    requires enter.CancelledWaiting? || db.pool.value > 0
    requires AllVisible(db.table, body.Writes())
    modifies db`table, db.pool
    ensures db.pool.value == old(db.pool.value) - if Leaks(db.connected, enter, exit) then 1 else 0
    ensures ok <==> enter.Begins? && db.connected && body.Finishes? && exit.commit.CommitOk? && exit.closeOk
    ensures db.table == if enter.Begins? && db.connected && body.Finishes? && !exit.commit.CommitFails?
                        then ApplyAll(old(db.table), body.writes) else old(db.table)
  {
    var uow := new UnitOfWork(db);
    ok := uow.Aenter(enter);
    if !ok {
      return false;
    }
    var writes := body.Writes();
    var i := 0;
    while i < |writes|
      invariant 0 <= i <= |writes|
      invariant uow.session == Some(writes[..i]) && uow.semCtx == db.pool
      invariant db.table == old(db.table) && db.pool.value == old(db.pool.value) - 1
    {
      uow.Send(writes[i]);
      assert writes[..i + 1] == writes[..i] + [writes[i]];
      i := i + 1;
    }
    assert writes[..i] == writes;
    var exited := uow.Aexit(body.BodyRaises?, exit);
    ok := body.Finishes? && exited;
  }
}
