/** The sliding-window rate limiter of src/app/middleware/rate_limit.py over an abstract Redis.
    A key holds a sorted set (member -> score) and an optional deadline on the server's clock. */
module RateLimit {

  import opened Wrappers

  /** A sorted-set member is the string "<now_ms>-<id(request)>". */
  datatype Member = Member(nowMs: int, requestId: int)

  datatype ZSet = ZSet(scores: map<Member, int>, deadline: Option<int>)

  type Store = map<string, ZSet>

  /** The Redis key a client's attempts are kept under. */
  function Key(prefix: string, client: string): string { prefix + ":" + client }

  // ---------------------------------------------------------------- Redis commands

  /** A key is gone once the server's clock is past its deadline. */
  function Evict(s: Store, key: string, srv: int): Store {
    if key in s && s[key].deadline.Some? && s[key].deadline.value < srv then s - {key} else s
  }

  function Scores(s: Store, key: string): map<Member, int> {
    if key in s then s[key].scores else map[]
  }

  /** Bounds are inclusive at both ends; a set left empty disappears with its deadline. */
  function ZRemRangeByScore(s: Store, key: string, lo: int, hi: int): Store {
    if key !in s then s
    else
      var kept := map m | m in s[key].scores && !(lo <= s[key].scores[m] <= hi) :: s[key].scores[m];
      if kept == map[] then s - {key} else s[key := ZSet(kept, s[key].deadline)]
  }

  function ZAdd(s: Store, key: string, m: Member, score: int): Store {
    s[key := ZSet(Scores(s, key)[m := score], if key in s then s[key].deadline else None)]
  }

  function ZCard(s: Store, key: string): nat {
    |Scores(s, key)|
  }

  /** EXPIRE counts whole seconds; a non-positive count deletes the key at once. */
  function Expire(s: Store, key: string, srv: int, seconds: int): Store {
    if key !in s then s
    else if seconds <= 0 then s - {key}
    else s[key := s[key].(deadline := Some(srv + seconds * 1000))]
  }

  // ---------------------------------------------------------------- one request

  /** `per_minute` and `window_seconds` of the middleware. */
  datatype Config = Config(limit: int, window: int) {
    function WindowMs(): int { window * 1000 }
  }

  /** What the client library reports: answered, applied with the answer lost, or never applied.
      Both of the last two surface as a RedisError. */
  datatype Reply = Answered | AnswerLost | NotApplied

  /** One request: its key, the caller's clock, Redis's clock when the transaction runs. */
  datatype Request = Request(key: string, now: nat, srv: int, id: int, reply: Reply) {
    function AsMember(): Member { Member(now, id) }
    predicate Recorded() { reply != NotApplied }
  }

  datatype Verdict = Admit(remaining: int) | Deny(retryAfter: int) | FailOpen

  /** Store just before the count is taken: expire, prune up to the inclusive cutoff, insert. */
  function Inserted(cfg: Config, s: Store, r: Request): Store {
    ZAdd(ZRemRangeByScore(Evict(s, r.key, r.srv), r.key, 0, r.now - cfg.WindowMs()),
         r.key, r.AsMember(), r.now)
  }

  /** The third answer of the transaction. */
  function Count(cfg: Config, s: Store, r: Request): nat {
    ZCard(Inserted(cfg, s, r), r.key)
  }

  /** The store after the whole MULTI/EXEC block (or untouched when it never ran). */
  function After(cfg: Config, s: Store, r: Request): Store {
    if r.Recorded() then Expire(Inserted(cfg, s, r), r.key, r.srv, cfg.window) else s
  }

  function Decide(cfg: Config, s: Store, r: Request): Verdict {
    if r.reply != Answered then FailOpen
    else if Count(cfg, s, r) > cfg.limit then Deny(cfg.window)
    else Admit(if cfg.limit - Count(cfg, s, r) > 0 then cfg.limit - Count(cfg, s, r) else 0)
  }

  function Slot(s: Store, key: string): Option<ZSet> {
    if key in s then Some(s[key]) else None
  }

  lemma {:induction false} OtherKeysUntouched(cfg: Config, s: Store, r: Request, k: string)
    requires k != r.key
    ensures Slot(After(cfg, s, r), k) == Slot(s, k)
  {
  }

  // ---------------------------------------------------------------- whole runs

  function Run(cfg: Config, trace: seq<Request>): Store {
    if trace == [] then map[]
    else After(cfg, Run(cfg, trace[..|trace| - 1]), trace[|trace| - 1])
  }

  function CountAt(cfg: Config, trace: seq<Request>, i: nat): nat
    requires i < |trace|
  {
    Count(cfg, Run(cfg, trace[..i]), trace[i])
  }

  function VerdictAt(cfg: Config, trace: seq<Request>, i: nat): Verdict
    requires i < |trace|
  {
    Decide(cfg, Run(cfg, trace[..i]), trace[i])
  }

  /** Recorded attempts on `key` among the first `n` requests with a clock value above `lo`:
      the window filter over the whole history, admitted and denied alike. */
  ghost function Attempts(trace: seq<Request>, n: nat, key: string, lo: int): set<int>
    requires n <= |trace|
  {
    set i: int | 0 <= i < n && trace[i].key == key && trace[i].Recorded() && trace[i].now > lo
  }

  // ---------------------------------------------------------------- environment assumptions

  /** Position i of the trace recorded an attempt on key k. */
  ghost predicate RecordedOn(trace: seq<Request>, k: string, i: int) {
    0 <= i < |trace| && trace[i].key == k && trace[i].Recorded()
  }

  /** Two recorded attempts on one key, in the order Redis executed them. */
  ghost predicate Later(trace: seq<Request>, i: int, j: int) {
    0 <= i < j < |trace| && RecordedOn(trace, trace[j].key, i) && RecordedOn(trace, trace[j].key, j)
  }

  /** The same with no recorded attempt on the key in between. */
  ghost predicate Consecutive(trace: seq<Request>, i: int, j: int) {
    Later(trace, i, j) && forall m :: i < m < j ==> !RecordedOn(trace, trace[j].key, m)
  }

  /** Redis's clock never goes back. */
  ghost predicate ServerMonotone(trace: seq<Request>) {
    forall i, j :: Later(trace, i, j) ==> trace[i].srv <= trace[j].srv
  }

  /** The clock value of an attempt trails every earlier one on its key by at most `d` ms. */
  ghost predicate SkewAtMost(d: nat, trace: seq<Request>) {
    forall i, j :: Later(trace, i, j) ==> trace[j].now >= trace[i].now - d
  }

  /** The key idles past its deadline between two consecutive attempts. */
  ghost predicate Expires(cfg: Config, trace: seq<Request>, l: int, k: int) {
    Consecutive(trace, l, k) && trace[k].srv - trace[l].srv > cfg.WindowMs()
  }

  /** Somewhere from attempt i to attempt j the key expires. */
  ghost predicate ExpiresBetween(cfg: Config, trace: seq<Request>, i: int, j: int) {
    exists l, k :: i <= l < k <= j < |trace| && Expires(cfg, trace, l, k) && trace[k].key == trace[j].key
  }

  /** Attempts the key's expiry lies between are a window less `d` apart for the callers too. */
  ghost predicate Clocks(cfg: Config, d: nat, trace: seq<Request>) {
    && SkewAtMost(d, trace)
    && forall i, j :: Later(trace, i, j) && ExpiresBetween(cfg, trace, i, j) ==>
         trace[j].now - trace[i].now >= cfg.WindowMs() - d
  }

  /** No two recorded attempts on one key share both clock value and object id, so neither the name of
      their member. */
  ghost predicate DistinctMembers(trace: seq<Request>) {
    forall i, j :: Later(trace, i, j) ==> trace[i].now != trace[j].now || trace[i].id != trace[j].id
  }

  // ---------------------------------------------------------------- the middleware object

  class RateLimitMiddleware {
    const cfg: Config
    const prefix: string
    var store: Store
    ghost var history: seq<Request>

    ghost predicate Valid()
      reads this
    {
      store == Run(cfg, history)
    }

    constructor (limit: int, window: int := 60, prefix: string := "ratelimit")
      ensures Valid() && history == [] && store == map[]
      ensures cfg == Config(limit, window) && this.prefix == prefix
    {
      cfg := Config(limit, window);
      this.prefix := prefix;
      store := map[];
      history := [];
    }

    /** The MULTI/EXEC block: four commands, no other client in between. */
    method Execute(r: Request) returns (count: nat)
      requires r.Recorded()
      modifies this`store
      ensures store == After(cfg, old(store), r)
      ensures count == Count(cfg, old(store), r)
    {
      var windowStart := r.now - cfg.window * 1000;
      var s := Evict(store, r.key, r.srv);
      s := ZRemRangeByScore(s, r.key, 0, windowStart);
      s := ZAdd(s, r.key, r.AsMember(), r.now);
      assert s == Inserted(cfg, store, r);
      count := ZCard(s, r.key);
      store := Expire(s, r.key, r.srv, cfg.window);
    }

    /** One call of dispatch. The clock reading, Redis's clock, the object id and the fate of the
        round trip come from outside; `call_next` runs exactly when the verdict is not Deny. */
    method Dispatch(client: string, now: nat, srv: int, id: int, reply: Reply) returns (v: Verdict)
      requires Valid()
      modifies this`store, this`history
      ensures Valid()
      ensures history == old(history) + [Request(Key(prefix, client), now, srv, id, reply)]
      ensures v == VerdictAt(cfg, history, |old(history)|)
      ensures forall k :: k != Key(prefix, client) ==> Slot(store, k) == Slot(old(store), k)
    {
      var r := Request(Key(prefix, client), now, srv, id, reply);
      ghost var before := history;
      history := history + [r];
      assert history[..|before|] == before;
      var count := 0;
      if r.Recorded() {
        count := Execute(r);
        forall k | k != r.key ensures Slot(store, k) == Slot(old(store), k) {
          OtherKeysUntouched(cfg, old(store), r, k);
        }
      }
      if reply != Answered {
        return FailOpen;
      }
      if count > cfg.limit {
        return Deny(cfg.window);
      }
      return Admit(if cfg.limit - count > 0 then cfg.limit - count else 0);
    }
  }

  // ---------------------------------------------------------------- client identity

  /** The request attributes `_client_identity` looks at. */
  datatype Peer = Peer(userId: Option<string>, forwardedFor: Option<string>, host: Option<string>)

  /** Python's str.strip removes these. */
  predicate IsSpace(c: char) {
    c in {' ', '\t', '\n', '\r', '\U{000B}', '\U{000C}', '\U{001C}', '\U{001D}', '\U{001E}', '\U{001F}',
          '\U{0085}', '\U{00A0}'}
  }

  function LStrip(s: string): string {
    if s != "" && IsSpace(s[0]) then LStrip(s[1..]) else s
  }

  function RStrip(s: string): string {
    if s != "" && IsSpace(s[|s| - 1]) then RStrip(s[..|s| - 1]) else s
  }

  function LeftmostHop(s: string): string {
    if s == "" || s[0] == ',' then "" else [s[0]] + LeftmostHop(s[1..])
  }

  predicate Truthy(s: Option<string>) { s.Some? && s.value != "" }

  /** The address an unauthenticated request is counted under. */
  function Address(p: Peer): string {
    if Truthy(p.forwardedFor) then RStrip(LStrip(LeftmostHop(p.forwardedFor.value)))
    else if p.host.Some? then p.host.value
    else "unknown"
  }

  function ClientIdentity(p: Peer): string {
    if Truthy(p.userId) then "user:" + p.userId.value else "ip:" + Address(p)
  }
}
