/** Tokens against the table: what the chain of a login guarantees about its account while that account
    is updated, deleted or registered anew by anyone else. Refreshing never looks at the table; using an
    access token does. */
module Accounts {
  import opened Wrappers
  import opened Users
  import opened UsersTheorems
  import opened UsersLogins
  import Tokens

  /** str(uuid), of which all that matters is that ids have different texts. */
  ghost predicate Injective(show: Id -> string) {
    forall i, j :: show(i) == show(j) ==> i == j
  }

  /** The 401, 404 and 403 of the dependencies, and a subject that is no id. */
  datatype Access = Granted(id: Id, row: Row) | Unauthorized | BadSubject | NotFound | Disabled

  /** get_current_user: the token first, then the row of its subject. */
  ghost function CurrentUser(s: Tokens.Settings, show: Id -> string, token: Tokens.Token, now: nat, t: Table): Access {
    match Tokens.DecodeToken(s, token, Some(Tokens.Access), now)
    case Err(_) => Unauthorized
    case Ok(payload) =>
      if id :| show(id) == payload.sub then
        if id !in t then NotFound else if !t[id].isActive then Disabled else Granted(id, t[id])
      else BadSubject
  }

  /** Node n belongs to a chain that began with a login of account id. */
  ghost predicate ChainOf(s: Tokens.Settings, show: Id -> string, n: Tokens.Node, id: Id) {
    Injective(show) && Tokens.Issued(s, n).Some? && Tokens.Root(n).userId == show(id)
  }

  /** The seconds an access token of node n is good for. */
  predicate Fresh(s: Tokens.Settings, n: Tokens.Node, now: nat) {
    var iat := n.at.accessAt / Tokens.SECOND;
    iat * Tokens.SECOND <= now < (iat + s.accessMinutes * 60) * Tokens.SECOND
  }

  lemma {:induction false} SubjectIsAccount(s: Tokens.Settings, show: Id -> string, n: Tokens.Node, id: Id, now: nat)
    requires ChainOf(s, show, n, id)
    ensures var d := Tokens.DecodeToken(s, Tokens.Issued(s, n).value.access, Some(Tokens.Access), now);
      if Fresh(s, n, now) then d.Ok? && d.payload.sub == show(id) else d.Err?
  {
    Tokens.TokensReadBack(s, n, now);
  }

  /** A token of the chain opens its own account's live and active row within its lifetime, and
      nothing else ever. */
  lemma {:induction false} OpensOwnAccountOnly(s: Tokens.Settings, show: Id -> string, n: Tokens.Node, id: Id,
                                               now: nat, t: Table)
    requires ChainOf(s, show, n, id)
    ensures CurrentUser(s, show, Tokens.Issued(s, n).value.access, now, t)
         == if !Fresh(s, n, now) then Unauthorized
            else if id !in t then NotFound
            else if !t[id].isActive then Disabled
            else Granted(id, t[id])
  {
    SubjectIsAccount(s, show, n, id, now);
  }

  /** No refresh token of a chain is ever taken for an access token. */
  lemma {:induction false} RefreshTokensOpenNothing(s: Tokens.Settings, show: Id -> string, n: Tokens.Node, now: nat,
                                                    t: Table)
    requires Tokens.Issued(s, n).Some?
    ensures CurrentUser(s, show, Tokens.Issued(s, n).value.refresh, now, t) == Unauthorized
  {
    Tokens.ChainSucceedsInTime(s, n);
    Tokens.RefreshIsNoAccess(s, Tokens.Root(n).userId, n.at.refreshAt, n.at.refreshId, now);
  }

  /** Whoever made it, a token is accepted exactly if it decodes as an access token under our secret whose
      subject is the text of a live and active account's id. */
  lemma {:induction false} AcceptsExactly(s: Tokens.Settings, show: Id -> string, token: Tokens.Token, now: nat,
                                          t: Table)
    requires Injective(show)
    ensures var access := CurrentUser(s, show, token, now, t);
      && (access.Granted? ==>
            && token.Signed? && token.secret == s.secret && token.algorithm == s.algorithm
            && "typ" in token.claims && token.claims["typ"] == Tokens.Text("access")
            && "sub" in token.claims && token.claims["sub"] == Tokens.Text(show(access.id))
            && "exp" in token.claims && token.claims["exp"].Number?
            && now < token.claims["exp"].number * Tokens.SECOND
            && access.id in t && t[access.id].isActive && access.row == t[access.id])
      && forall id :: id in t && t[id].isActive
                      && Tokens.DecodeToken(s, token, Some(Tokens.Access), now).Ok?
                      && Tokens.DecodeToken(s, token, Some(Tokens.Access), now).payload.sub == show(id) ==>
           access == Granted(id, t[id])
  {
  }

  /** Whatever happens after a login, a token of its chain is accepted in a later state exactly within its
      lifetime and while the account's row is there and active; and the row is then that of the address
      and password the login gave, even if the same address has been registered anew. */
  lemma {:induction false} ChainSpeaksForItsLogin(w: World, steps: seq<Step>, end: World, p: nat,
                                                  s: Tokens.Settings, show: Id -> string, n: Tokens.Node, now: nat)
    requires Initial(w) && Path(w, steps, end)
    requires p < |end.procs| && end.procs[p].call.Authenticate? && end.procs[p].phase.Returned?
    requires ChainOf(s, show, n, end.procs[p].phase.id)
    ensures var Proc(c, Returned(id)) := end.procs[p];
      var access := CurrentUser(s, show, Tokens.Issued(s, n).value.access, now, end.table);
      && (access.Granted? <==> Fresh(s, n, now) && id in end.table && end.table[id].isActive)
      && (access.Granted? ==>
            access.id == id && access.row == end.table[id]
            && Addressed(access.row.email, c.email) && Verifies(access.row.hash, c.password))
  {
    LoginsLeaveCurrentHashes(w, steps, end, p);
    OpensOwnAccountOnly(s, show, n, end.procs[p].phase.id, now, end.table);
  }

  // ---------------------------------------------------------------- deleted accounts

  ghost predicate Gone(w: World, id: Id) {
    Known(w.registered, PendingIds(w.procs), id) && id !in w.table
  }

  lemma {:induction false} StepStaysGone(w: World, step: Step, id: Id)
    requires Safe(w) && Enabled(w, step) && Gone(w, id)
    ensures Gone(Next(w, step), id)
  {
    KnownStays(w, step, id);
    if (step.Commit? || step.CommitThenRaise?) && w.procs[step.p].phase.write.Insert? {
      assert w.procs[step.p].phase.write.id in PendingIds(w.procs);
    }
  }

  /** The commit of a delete leaves its account gone. */
  lemma {:induction false} DeletionIsGone(w: World, p: nat)
    requires Safe(w) && Enabled(w, Commit(p)) && w.procs[p].call.Delete?
    ensures Gone(Next(w, Commit(p)), w.procs[p].call.id)
  {
    assert Fits(w.table, w.registered, PendingIds(w.procs), w.procs[p].call, w.procs[p].phase);
    DeleteEffect(w, p);
    KnownStays(w, Commit(p), w.procs[p].call.id);
  }

  lemma {:induction false} StaysGone(w: World, steps: seq<Step>, end: World, id: Id)
    requires Safe(w) && Path(w, steps, end) && Gone(w, id)
    ensures Gone(end, id)
    decreases |steps|
  {
    if steps != [] {
      StepSafe(w, steps[0]);
      StepStaysGone(w, steps[0], id);
      StaysGone(Next(w, steps[0]), steps[1..], end, id);
    }
  }

  /** Once an account has been deleted no token of any of its chains is ever accepted again, whoever
      registers what; `mid` is any reachable state, as PathSafe has it. */
  lemma {:induction false} DeletedIsLockedOut(mid: World, steps: seq<Step>, end: World, id: Id,
                                              s: Tokens.Settings, show: Id -> string, n: Tokens.Node, now: nat)
    requires Safe(mid) && Gone(mid, id) && Path(mid, steps, end)
    requires ChainOf(s, show, n, id)
    ensures !CurrentUser(s, show, Tokens.Issued(s, n).value.access, now, end.table).Granted?
  {
    StaysGone(mid, steps, end, id);
    OpensOwnAccountOnly(s, show, n, id, now, end.table);
  }

  /** The chain itself goes on all the same: a further refresh in time still issues, for the same id. */
  lemma {:induction false} ChainOutlivesAccount(s: Tokens.Settings, show: Id -> string, n: Tokens.Node, id: Id,
                                                start: nat, at: Tokens.Stamp)
    requires ChainOf(s, show, n, id)
    ensures ChainOf(s, show, Tokens.FromRefresh(n, start, at), id)
            <==> Tokens.InTime(s, Tokens.FromRefresh(n, start, at))
  {
    Tokens.ChainSucceedsInTime(s, Tokens.FromRefresh(n, start, at));
  }
}
