/** UserService over a users table: any number of register, update, delete and authenticate calls,
    interleaved at every await. A transaction buffers its write, holds its locks from flush to commit,
    and reads what is committed at that moment (READ COMMITTED). */
module Users {

  import opened Wrappers

  // ---------------------------------------------------------------- the table

  type Id = nat

  /** An ideal argon2 hash: parameters, salt and the password it was made from. */
  datatype Hash = Hash(params: nat, salt: nat, password: string)

  predicate Verifies(h: Hash, password: string) { h.password == password }

  datatype Row = Row(email: string, hash: Hash, fullName: Option<string>, isActive: bool, isSuperuser: bool)

  type Table = map<Id, Row>

  /** The columns an UPDATE sets: SQLAlchemy sends only those with a net change. */
  datatype Changes = Changes(fullName: Option<Option<string>>, isActive: Option<bool>, hash: Option<Hash>)

  datatype Write = Insert(id: Id, row: Row) | Patch(id: Id, changes: Changes) | Erase(id: Id) | Nothing

  function Merge(row: Row, ch: Changes): Row {
    row.(fullName := if ch.fullName.Some? then ch.fullName.value else row.fullName,
         isActive := if ch.isActive.Some? then ch.isActive.value else row.isActive,
         hash := if ch.hash.Some? then ch.hash.value else row.hash)
  }

  function Apply(t: Table, w: Write): Table {
    match w
    case Insert(id, row) => t[id := row]
    case Patch(id, ch) => if id in t then t[id := Merge(t[id], ch)] else t
    case Erase(id) => t - {id}
    case Nothing => t
  }

  function LowerChar(c: char): char {
    if 'A' <= c <= 'Z' then ((c as int) + 32) as char else c
  }

  /** str.lower on the characters an address is made of. */
  function Lower(s: string): string {
    seq(|s|, i requires 0 <= i < |s| => LowerChar(s[i]))
  }

  /** The same character up to the case of the letters A to Z. */
  predicate SameLetter(a: char, b: char) {
    || a == b
    || ('A' <= a <= 'Z' && b as int == a as int + 32)
    || ('A' <= b <= 'Z' && a as int == b as int + 32)
  }

  /** The same address in any letter case. */
  predicate SameLetters(a: string, b: string) {
    |a| == |b| && forall i :: 0 <= i < |a| ==> SameLetter(a[i], b[i])
  }

  predicate NoCapitals(s: string) {
    forall i :: 0 <= i < |s| ==> !('A' <= s[i] <= 'Z')
  }

  /** Lower-casing forgets letter case and nothing else, and leaves no capital. */
  lemma {:induction false} LowerForgetsCase(a: string, b: string)
    ensures Lower(a) == Lower(b) <==> SameLetters(a, b)
    ensures NoCapitals(Lower(a)) && SameLetters(Lower(a), a)
  {
    if Lower(a) == Lower(b) {
      assert |Lower(a)| == |a| && |Lower(b)| == |b|;
      forall i | 0 <= i < |a| ensures SameLetter(a[i], b[i]) {
        assert LowerChar(a[i]) == Lower(a)[i] == Lower(b)[i] == LowerChar(b[i]);
      }
    }
    if SameLetters(a, b) {
      forall i | 0 <= i < |a| ensures Lower(a)[i] == Lower(b)[i] { assert SameLetter(a[i], b[i]); }
    }
  }

  /** A stored address is the one looked up: the same letters, in lower case. */
  predicate Addressed(stored: string, email: string) { NoCapitals(stored) && SameLetters(stored, email) }

  lemma {:induction false} AddressedIsLower(stored: string, email: string)
    ensures Addressed(stored, email) <==> stored == Lower(email)
  {
    LowerForgetsCase(email, stored);
    if Addressed(stored, email) {
      forall i | 0 <= i < |stored| ensures stored[i] == Lower(email)[i] { assert SameLetter(stored[i], email[i]); }
    }
  }

  lemma {:induction false} AddressedIsLowerAlways()
    ensures forall stored, email :: Addressed(stored, email) <==> stored == Lower(email)
  {
    forall stored, email ensures Addressed(stored, email) <==> stored == Lower(email) {
      AddressedIsLower(stored, email);
    }
  }

  /** The row UserRepository.get_by_email selects; at most one exists when emails are unique. */
  ghost function GetByEmail(t: Table, email: string): Option<Id> {
    if id :| id in t && t[id].email == Lower(email) then Some(id) else None
  }

  // ---------------------------------------------------------------- calls

  /** In an update the outer Option says whether the field was set in the request at all. */
  datatype Call =
    | Register(email: string, password: string, fullName: Option<string>)
    | Update(id: Id, newName: Option<Option<string>>, newActive: Option<Option<bool>>)
    | Delete(id: Id)
    | Authenticate(email: string, password: string)

  datatype Phase =
    | Start
    | Hashed(hash: Hash)
    | Checked(hash: Hash)
    | Loaded(row: Row)
    | Seen(user: Option<(Id, Row)>)
    | Trusted(id: Id)
    | Rehashed(id: Id, hash: Hash)
    | Refetched(id: Id, hash: Hash, row: Row)
    | Flushed(write: Write, loaded: Option<Row>, id: Id)
    | Returned(id: Id)
    | Raised(committed: bool)

  datatype Proc = Proc(call: Call, phase: Phase)

  /** What an id was created with. */
  datatype Account = Account(email: string, password: string)

  /** `registered` remembers the account of each id ever inserted; `log` the writes in commit order. */
  datatype World = World(table: Table, procs: seq<Proc>, registered: map<Id, Account>,
                         log: seq<(nat, Write)>, params: nat)

  datatype Step =
    | HashPassword(p: nat, salt: nat)
    | LookUp(p: nat)
    | FlushInsert(p: nat, id: Id)
    | Fetch(p: nat)
    | FlushUpdate(p: nat)
    | FlushDelete(p: nat)
    | ReadUser(p: nat)
    | Verify(p: nat)
    | Rehash(p: nat, salt: nat)
    | Refetch(p: nat)
    | FlushRehash(p: nat)
    | Commit(p: nat)
    | CommitThenRaise(p: nat)
    | Raise(p: nat)

  function NewRow(email: string, hash: Hash, fullName: Option<string>): Row {
    Row(Lower(email), hash, fullName, true, false)
  }

  /** The net changes of an update against the row it loaded. */
  function Diff(row: Row, newName: Option<Option<string>>, newActive: Option<Option<bool>>): Changes {
    Changes(if newName.Some? && newName.value != row.fullName then newName else None,
            if newActive.Some? && newActive.value.Some? && newActive.value.value != row.isActive then newActive.value
            else None,
            None)
  }

  const UNCHANGED := Changes(None, None, None)

  /** Two uncommitted writes the database makes wait for each other. */
  predicate Conflict(t: Table, a: Write, b: Write) {
    match (a, b)
    case (Insert(_, r), Insert(_, s)) => r.email == s.email
    case (Insert(_, r), Erase(id)) => id in t && t[id].email == r.email
    case (Erase(id), Insert(_, r)) => id in t && t[id].email == r.email
    case (Patch(i, _), Patch(j, _)) => i == j
    case (Patch(i, _), Erase(j)) => i == j
    case (Erase(i), Patch(j, _)) => i == j
    case (Erase(i), Erase(j)) => i == j
    case _ => false
  }

  predicate Blocked(w: World, p: nat, write: Write) {
    exists q :: 0 <= q < |w.procs| && q != p && w.procs[q].phase.Flushed?
                && Conflict(w.table, w.procs[q].phase.write, write)
  }

  predicate Finished(ph: Phase) { ph.Returned? || ph.Raised? }

  /** The write a flush would send, before the database has its say. */
  function Intended(call: Call, ph: Phase, id: Id): Write {
    match (call, ph)
    case (Register(email, _, name), Checked(h)) => Insert(id, NewRow(email, h, name))
    case (Update(uid, name, active), Loaded(row)) =>
      if Diff(row, name, active) == UNCHANGED then Nothing else Patch(uid, Diff(row, name, active))
    case (Delete(uid), Loaded(_)) => Erase(uid)
    case (Authenticate(_, _), Refetched(uid, h, row)) =>
      if row.hash == h then Nothing else Patch(uid, Changes(None, None, Some(h)))
    case _ => Nothing
  }

  predicate Enabled(w: World, step: Step) {
    step.p < |w.procs| &&
    var Proc(call, ph) := w.procs[step.p];
    match step
    case HashPassword(_, _) => call.Register? && ph.Start?
    case LookUp(_) => call.Register? && ph.Hashed?
    case FlushInsert(p, id) =>
      call.Register? && ph.Checked? && id !in w.registered && !Blocked(w, p, Intended(call, ph, id))
    case Fetch(_) => (call.Update? || call.Delete?) && ph.Start?
    case FlushUpdate(p) => call.Update? && ph.Loaded? && !Blocked(w, p, Intended(call, ph, 0))
    case FlushDelete(p) => call.Delete? && ph.Loaded? && !Blocked(w, p, Intended(call, ph, 0))
    case ReadUser(_) => call.Authenticate? && ph.Start?
    case Verify(_) => call.Authenticate? && ph.Seen?
    case Rehash(_, _) => call.Authenticate? && ph.Trusted?
    case Refetch(_) => call.Authenticate? && ph.Rehashed?
    case FlushRehash(p) => call.Authenticate? && ph.Refetched? && !Blocked(w, p, Intended(call, ph, 0))
    case Commit(_) => ph.Flushed?
    case CommitThenRaise(_) => ph.Flushed?
    case Raise(_) => !Finished(ph)
  }

  /** Where a step that commits nothing takes its call. */
  ghost function PhaseAfter(w: World, step: Step): Phase
    requires Enabled(w, step)
  {
    var Proc(call, ph) := w.procs[step.p];
    match step
    case HashPassword(_, salt) => Hashed(Hash(w.params, salt, call.password))
    case LookUp(_) => if GetByEmail(w.table, call.email).Some? then Raised(false) else Checked(ph.hash)
    case FlushInsert(_, id) =>
      // the unique index
      if GetByEmail(w.table, call.email).Some? then Raised(false) else Flushed(Intended(call, ph, id), None, id)
    case Fetch(_) => if call.id in w.table then Loaded(w.table[call.id]) else Raised(false)
    case FlushUpdate(_) =>
      if call.newActive == Some(None) then Raised(false)                    // NOT NULL
      else if Intended(call, ph, 0).Patch? && call.id !in w.table then Raised(false)   // stale row
      else Flushed(Intended(call, ph, 0), Some(ph.row), call.id)
    case FlushDelete(_) => Flushed(if call.id in w.table then Erase(call.id) else Nothing, Some(ph.row), call.id)
    case ReadUser(_) =>
      var found := GetByEmail(w.table, call.email);
      Seen(if found.Some? && found.value in w.table then Some((found.value, w.table[found.value])) else None)
    case Verify(_) =>
      if ph.user.None? || !Verifies(ph.user.value.1.hash, call.password) || !ph.user.value.1.isActive then Raised(false)
      else if ph.user.value.1.hash.params != w.params then Trusted(ph.user.value.0)
      else Returned(ph.user.value.0)
    case Rehash(_, salt) => Rehashed(ph.id, Hash(w.params, salt, call.password))
    case Refetch(_) =>
      if ph.id in w.table then Refetched(ph.id, ph.hash, w.table[ph.id]) else Flushed(Nothing, None, ph.id)
    case FlushRehash(_) =>
      if Intended(call, ph, 0).Patch? && ph.id !in w.table then Raised(false)
      else Flushed(Intended(call, ph, 0), Some(ph.row), ph.id)
    case Commit(_) => Returned(ph.id)
    case CommitThenRaise(_) => Raised(true)
    case Raise(_) => Raised(false)
  }

  ghost function Next(w: World, step: Step): World
    requires Enabled(w, step)
  {
    var Proc(call, ph) := w.procs[step.p];
    var moved := w.(procs := w.procs[step.p := Proc(call, PhaseAfter(w, step))]);
    if step.Commit? || step.CommitThenRaise? then
      moved.(table := Apply(w.table, ph.write), log := w.log + [(step.p, ph.write)])
    else if step.FlushInsert? && PhaseAfter(w, step).Flushed? then
      moved.(registered := w.registered[step.id := Account(Lower(call.email), call.password)])
    else moved
  }

  ghost predicate Path(w: World, steps: seq<Step>, end: World)
    decreases |steps|
  {
    if steps == [] then end == w
    else Enabled(w, steps[0]) && Path(Next(w, steps[0]), steps[1..], end)
  }
}
