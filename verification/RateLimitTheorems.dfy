/** What the rate limiter promises over whole runs. */
module RateLimitTheorems {
  import opened Wrappers
  import opened RateLimit
  import Counting

  // ---------------------------------------------------------------- one step

  ghost function Pruned(cfg: Config, s: Store, r: Request): map<Member, int> {
    Scores(ZRemRangeByScore(Evict(s, r.key, r.srv), r.key, 0, r.now - cfg.WindowMs()), r.key)
  }

  lemma {:induction false} InsertedScores(cfg: Config, s: Store, r: Request)
    ensures Scores(Inserted(cfg, s, r), r.key) == Pruned(cfg, s, r)[r.AsMember() := r.now]
    ensures forall m :: m in Pruned(cfg, s, r) <==>
              m in Scores(Evict(s, r.key, r.srv), r.key)
              && !(0 <= Scores(s, r.key)[m] <= r.now - cfg.WindowMs())
    ensures forall m :: m in Pruned(cfg, s, r) ==> Pruned(cfg, s, r)[m] == Scores(s, r.key)[m]
  {
  }

  /** The members of the request's key that have neither expired nor fallen to the inclusive cutoff. */
  ghost function Survivors(cfg: Config, s: Store, r: Request): set<Member> {
    if r.key !in s || (s[r.key].deadline.Some? && s[r.key].deadline.value < r.srv) then {}
    else set m | m in s[r.key].scores && !(0 <= s[r.key].scores[m] <= r.now - cfg.window * 1000)
  }

  /** What one transaction leaves, answered or not: the survivors and the request itself, counted, kept for
      one more window, or nothing if the window is not positive; and no other key touched. One that was
      never applied leaves everything as it was. */
  lemma {:induction false} TransactionEffect(cfg: Config, s: Store, r: Request)
    ensures var s', kept := After(cfg, s, r), Survivors(cfg, s, r) + {Member(r.now, r.id)};
      && Count(cfg, s, r) == |kept|
      && (r.reply == NotApplied ==> s' == s)
      && (r.reply != NotApplied ==>
            if cfg.window <= 0 then r.key !in s'
            else r.key in s' && s'[r.key].deadline == Some(r.srv + cfg.window * 1000)
                 && s'[r.key].scores.Keys == kept && s'[r.key].scores[Member(r.now, r.id)] == r.now)
      && forall k :: k != r.key ==> Slot(s', k) == Slot(s, k)
  {
    InsertedScores(cfg, s, r);
    assert Scores(Inserted(cfg, s, r), r.key).Keys == Survivors(cfg, s, r) + {Member(r.now, r.id)};
    forall k | k != r.key ensures Slot(After(cfg, s, r), k) == Slot(s, k) {
      OtherKeysUntouched(cfg, s, r, k);
    }
  }

  /** Every stored member is a recorded attempt on the key, scored by its own clock value. */
  ghost predicate Traced(trace: seq<Request>, k: string, scores: map<Member, int>) {
    forall m :: m in scores ==>
      scores[m] == m.nowMs && exists i :: RecordedOn(trace, k, i) && trace[i].AsMember() == m
  }

  lemma {:induction false} TracedExtends(trace: seq<Request>, r: Request, k: string, scores: map<Member, int>)
    requires Traced(trace, k, scores)
    ensures Traced(trace + [r], k, scores)
  {
    var trace' := trace + [r];
    forall m | m in scores ensures exists i :: RecordedOn(trace', k, i) && trace'[i].AsMember() == m {
      var i :| RecordedOn(trace, k, i) && trace[i].AsMember() == m;
      assert RecordedOn(trace', k, i) && trace'[i] == trace[i];
    }
  }

  lemma {:induction false} TracedAfter(cfg: Config, trace: seq<Request>, s: Store, r: Request)
    requires r.Recorded() && Traced(trace, r.key, Scores(s, r.key))
    ensures Traced(trace + [r], r.key, Scores(After(cfg, s, r), r.key))
  {
    var trace', k, scores := trace + [r], r.key, Scores(Inserted(cfg, s, r), r.key);
    InsertedScores(cfg, s, r);
    TracedExtends(trace, r, k, Scores(s, k));
    forall m | m in scores
      ensures scores[m] == m.nowMs && exists i :: RecordedOn(trace', k, i) && trace'[i].AsMember() == m
    {
      if m == r.AsMember() {
        assert RecordedOn(trace', k, |trace|) && trace'[|trace|].AsMember() == m;
      }
    }
  }

  lemma {:induction false} RunIsTraced(cfg: Config, trace: seq<Request>, k: string)
    ensures Traced(trace, k, Scores(Run(cfg, trace), k))
  {
    if trace != [] {
      var n := |trace| - 1;
      var before, r := trace[..n], trace[n];
      assert trace == before + [r];
      RunIsTraced(cfg, before, k);
      if r.Recorded() && r.key == k {
        TracedAfter(cfg, before, Run(cfg, before), r);
      } else {
        if r.Recorded() { OtherKeysUntouched(cfg, Run(cfg, before), r, k); }
        assert Slot(Run(cfg, trace), k) == Slot(Run(cfg, before), k);
        TracedExtends(before, r, k, Scores(Run(cfg, before), k));
      }
    }
  }

  /** The last recorded attempt on k among the first n requests. */
  ghost predicate LastOn(trace: seq<Request>, n: nat, k: string, l: int) {
    n <= |trace| && 0 <= l < n && RecordedOn(trace, k, l) && forall m :: l < m < n ==> !RecordedOn(trace, k, m)
  }

  lemma {:induction false} LastExists(trace: seq<Request>, n: nat, k: string, i: int) returns (l: int)
    requires n <= |trace| && 0 <= i < n && RecordedOn(trace, k, i)
    ensures LastOn(trace, n, k, l) && i <= l
  {
    if RecordedOn(trace, k, n - 1) {
      l := n - 1;
    } else {
      l := LastExists(trace, n - 1, k, i);
    }
  }

  /** A key's deadline is a window after its last recorded attempt, which is still in the set. */
  lemma {:induction false} RunIsDated(cfg: Config, trace: seq<Request>, n: nat, k: string, l: int)
    requires LastOn(trace, n, k, l) && cfg.window > 0
    ensures var s := Run(cfg, trace[..n]);
      k in s && s[k].deadline == Some(trace[l].srv + cfg.WindowMs())
      && trace[l].AsMember() in s[k].scores && s[k].scores[trace[l].AsMember()] == trace[l].now
  {
    var s, r := Run(cfg, trace[..n - 1]), trace[n - 1];
    assert trace[..n][..n - 1] == trace[..n - 1];
    assert Run(cfg, trace[..n]) == After(cfg, s, r);
    if l == n - 1 {
      InsertedScores(cfg, s, r);
    } else {
      RunIsDated(cfg, trace, n - 1, k, l);
      assert !RecordedOn(trace, k, n - 1);
      if r.Recorded() { OtherKeysUntouched(cfg, s, r, k); }
      assert Slot(After(cfg, s, r), k) == Slot(s, k);
    }
  }

  /** Redis drops a key before a transaction exactly when the key idled past its deadline. */
  lemma {:induction false} EvictsWhenIdle(cfg: Config, trace: seq<Request>, l: int, k: nat)
    requires Consecutive(trace, l, k) && cfg.window > 0
    ensures var s := Run(cfg, trace[..k]);
      Evict(s, trace[k].key, trace[k].srv) == if Expires(cfg, trace, l, k) then s - {trace[k].key} else s
  {
    RunIsDated(cfg, trace, k, trace[k].key, l);
  }

  // ---------------------------------------------------------------- refinement

  /** The counted members at step j are attempts above the cutoff, whatever the clocks do. */
  lemma {:induction false} OnlyRecent(cfg: Config, trace: seq<Request>, j: nat, m: Member) returns (i: int)
    requires j < |trace| && m in Pruned(cfg, Run(cfg, trace[..j]), trace[j])
    ensures i in Attempts(trace, j, trace[j].key, trace[j].now - cfg.WindowMs())
    ensures trace[i].AsMember() == m
  {
    var s, r := Run(cfg, trace[..j]), trace[j];
    InsertedScores(cfg, s, r);
    RunIsTraced(cfg, trace[..j], r.key);
    i :| RecordedOn(trace[..j], r.key, i) && trace[..j][i].AsMember() == m;
    assert trace[i] == trace[..j][i];
  }

  /** With a window that is not positive a skew of d puts nothing within the window less d. */
  lemma {:induction false} RecentNeedsWindow(cfg: Config, d: nat, trace: seq<Request>, i: int, j: int)
    requires SkewAtMost(d, trace) && Later(trace, i, j) && trace[i].now > trace[j].now - (cfg.WindowMs() - d)
    ensures cfg.window > 0
  {
  }

  /** One transaction k <= j keeps an attempt i that is within the window less d of attempt j. */
  lemma {:induction false} StepKeepsRecent(cfg: Config, d: nat, trace: seq<Request>, i: int, k: nat, j: int)
    requires Later(trace, i, k) && Later(trace, i, j) && (k == j || Later(trace, k, j)) && Clocks(cfg, d, trace)
    requires trace[i].now > trace[j].now - (cfg.WindowMs() - d)
    requires trace[i].AsMember() in Scores(Run(cfg, trace[..k]), trace[k].key)
    ensures trace[i].AsMember() in Pruned(cfg, Run(cfg, trace[..k]), trace[k])
  {
    var s, r := Run(cfg, trace[..k]), trace[k];
    RecentNeedsWindow(cfg, d, trace, i, j);
    var l := LastExists(trace, k, r.key, i);
    assert Consecutive(trace, l, k);
    EvictsWhenIdle(cfg, trace, l, k);
    assert Expires(cfg, trace, l, k) ==> ExpiresBetween(cfg, trace, i, j);
    RunIsTraced(cfg, trace[..k], r.key);
    InsertedScores(cfg, s, r);
    assert trace[k].now <= trace[j].now + d;
  }

  lemma {:induction false} RecentSurvive(cfg: Config, d: nat, trace: seq<Request>, i: int, n: nat, j: int)
    requires Later(trace, i, j) && i < n <= j && Clocks(cfg, d, trace)
    requires trace[i].now > trace[j].now - (cfg.WindowMs() - d)
    ensures trace[i].AsMember() in Scores(Run(cfg, trace[..n]), trace[i].key)
  {
    var s, r := Run(cfg, trace[..n - 1]), trace[n - 1];
    assert trace[..n][..n - 1] == trace[..n - 1];
    assert Run(cfg, trace[..n]) == After(cfg, s, r);
    RecentNeedsWindow(cfg, d, trace, i, j);
    if i == n - 1 {
      InsertedScores(cfg, s, r);
    } else {
      RecentSurvive(cfg, d, trace, i, n - 1, j);
      if r.key != trace[i].key || !r.Recorded() {
        if r.Recorded() { OtherKeysUntouched(cfg, s, r, trace[i].key); }
        assert Slot(After(cfg, s, r), trace[i].key) == Slot(s, trace[i].key);
      } else {
        StepKeepsRecent(cfg, d, trace, i, n - 1, j);
        InsertedScores(cfg, s, r);
      }
    }
  }

  ghost function Members(trace: seq<Request>): seq<Member> {
    seq(|trace|, i requires 0 <= i < |trace| => trace[i].AsMember())
  }

  /** The members the transaction at step j counts. */
  ghost function Counted(cfg: Config, trace: seq<Request>, j: nat): set<Member>
    requires j < |trace|
  {
    Scores(Inserted(cfg, Run(cfg, trace[..j]), trace[j]), trace[j].key).Keys
  }

  lemma {:induction false} CountedAreAttempts(cfg: Config, trace: seq<Request>, j: nat, m: Member) returns (i: int)
    requires j < |trace| && m in Counted(cfg, trace, j)
    ensures i == j || i in Attempts(trace, j, trace[j].key, trace[j].now - cfg.WindowMs())
    ensures trace[i].AsMember() == m
  {
    InsertedScores(cfg, Run(cfg, trace[..j]), trace[j]);
    if m == trace[j].AsMember() {
      i := j;
    } else {
      i := OnlyRecent(cfg, trace, j, m);
    }
  }

  lemma {:induction false} RecentAreCounted(cfg: Config, d: nat, trace: seq<Request>, j: nat, i: int)
    requires j < |trace| && trace[j].Recorded() && Clocks(cfg, d, trace)
    requires i == j || i in Attempts(trace, j, trace[j].key, trace[j].now - (cfg.WindowMs() - d))
    ensures trace[i].AsMember() in Counted(cfg, trace, j)
  {
    InsertedScores(cfg, Run(cfg, trace[..j]), trace[j]);
    if i != j {
      assert Later(trace, i, j);
      RecentSurvive(cfg, d, trace, i, j, j);
      StepKeepsRecent(cfg, d, trace, i, j, j);
    }
  }

  lemma {:induction false} CountAtLeast(cfg: Config, d: nat, trace: seq<Request>, j: nat)
    requires j < |trace| && trace[j].Recorded()
    requires Clocks(cfg, d, trace) && DistinctMembers(trace)
    ensures 1 + |Attempts(trace, j, trace[j].key, trace[j].now - (cfg.WindowMs() - d))| <= CountAt(cfg, trace, j)
  {
    var recent := Attempts(trace, j, trace[j].key, trace[j].now - (cfg.WindowMs() - d));
    var counted := Counted(cfg, trace, j);
    forall i | i in recent + {j} ensures Members(trace)[i] in counted {
      RecentAreCounted(cfg, d, trace, j, i);
    }
    forall i, k | i in recent + {j} && k in recent + {j} && i != k ensures Members(trace)[i] != Members(trace)[k] {
      assert if i < k then Later(trace, i, k) else Later(trace, k, i);
    }
    Counting.DistinctEntries(Members(trace), recent + {j}, counted);
    assert CountAt(cfg, trace, j) == |counted|;
  }

  /** Whatever the clocks do, nothing is counted that the window over the full history does not hold. */
  lemma {:induction false} CountAtMost(cfg: Config, trace: seq<Request>, j: nat)
    requires j < |trace|
    ensures CountAt(cfg, trace, j) <= 1 + |Attempts(trace, j, trace[j].key, trace[j].now - cfg.WindowMs())|
  {
    var all := Attempts(trace, j, trace[j].key, trace[j].now - cfg.WindowMs());
    var counted := Counted(cfg, trace, j);
    forall m | m in counted ensures exists i :: i in all + {j} && Members(trace)[i] == m {
      var i := CountedAreAttempts(cfg, trace, j, m);
      assert i in all + {j} && Members(trace)[i] == m;
    }
    Counting.CoveredEntries(Members(trace), all + {j}, counted);
    assert CountAt(cfg, trace, j) == |counted|;
  }

  /** The pruned set against the full history, with clocks off by up to d: the count lies between
      the attempts within the window less d and the attempts within the whole window. */
  lemma {:induction false} WindowCount(cfg: Config, d: nat, trace: seq<Request>, j: nat)
    requires j < |trace| && trace[j].Recorded()
    requires Clocks(cfg, d, trace) && DistinctMembers(trace)
    ensures 1 + |Attempts(trace, j, trace[j].key, trace[j].now - (cfg.WindowMs() - d))| <= CountAt(cfg, trace, j)
    ensures CountAt(cfg, trace, j) <= 1 + |Attempts(trace, j, trace[j].key, trace[j].now - cfg.WindowMs())|
  {
    CountAtLeast(cfg, d, trace, j);
    CountAtMost(cfg, trace, j);
  }

  /** Recorded attempts on `key` among the first n whose clock value lies in (lo, hi]. */
  ghost function InWindow(trace: seq<Request>, n: nat, key: string, lo: int, hi: int): set<int>
    requires n <= |trace|
  {
    set i: int | 0 <= i < n && trace[i].key == key && trace[i].Recorded() && lo < trace[i].now <= hi
  }

  /** The sliding window of the documentation at step j: recorded attempts, admitted or denied, with
      clock values in (now - W, now]. */
  ghost function SlidingWindow(cfg: Config, trace: seq<Request>, j: nat): set<int>
    requires j < |trace|
  {
    InWindow(trace, j + 1, trace[j].key, trace[j].now - cfg.WindowMs(), trace[j].now)
  }

  /** Whenever Redis lets a key expire between two attempts, the callers' clocks are a window apart. */
  ghost predicate ExpiryHarmless(cfg: Config, trace: seq<Request>) {
    forall l, k :: Expires(cfg, trace, l, k) ==> trace[k].now - trace[l].now >= cfg.WindowMs()
  }

  ghost predicate CountsExactly(cfg: Config, trace: seq<Request>) {
    forall j :: 0 <= j < |trace| && trace[j].Recorded() ==> CountAt(cfg, trace, j) == |SlidingWindow(cfg, trace, j)|
  }

  lemma {:induction false} WindowIsAttempts(cfg: Config, trace: seq<Request>, j: nat)
    requires j < |trace| && trace[j].Recorded() && cfg.window > 0 && SkewAtMost(0, trace)
    ensures |SlidingWindow(cfg, trace, j)|
         == 1 + |Attempts(trace, j, trace[j].key, trace[j].now - cfg.WindowMs())|
  {
    var attempts := Attempts(trace, j, trace[j].key, trace[j].now - cfg.WindowMs());
    forall i | i in attempts ensures trace[i].now <= trace[j].now { assert Later(trace, i, j); }
    assert SlidingWindow(cfg, trace, j) == attempts + {j};
  }

  lemma {:induction false} HarmlessClocks(cfg: Config, trace: seq<Request>)
    requires SkewAtMost(0, trace) && ExpiryHarmless(cfg, trace)
    ensures Clocks(cfg, 0, trace)
  {
    forall i, j | Later(trace, i, j) && ExpiresBetween(cfg, trace, i, j)
      ensures trace[j].now - trace[i].now >= cfg.WindowMs()
    {
      var l, k :| i <= l < k <= j < |trace| && Expires(cfg, trace, l, k) && trace[k].key == trace[j].key;
      assert i == l || Later(trace, i, l);
      assert k == j || Later(trace, k, j);
    }
  }

  /** After an expiry the count starts again at one. */
  lemma {:induction false} ExpiryForgets(cfg: Config, trace: seq<Request>, l: int, k: nat)
    requires Expires(cfg, trace, l, k) && cfg.window > 0
    ensures Pruned(cfg, Run(cfg, trace[..k]), trace[k]) == map[] && CountAt(cfg, trace, k) == 1
  {
    EvictsWhenIdle(cfg, trace, l, k);
    InsertedScores(cfg, Run(cfg, trace[..k]), trace[k]);
    assert Counted(cfg, trace, k) == {trace[k].AsMember()};
    assert CountAt(cfg, trace, k) == |Counted(cfg, trace, k)|;
  }

  lemma {:induction false} EarlyExpiryMiscounts(cfg: Config, trace: seq<Request>, l: int, k: nat)
    requires Expires(cfg, trace, l, k) && cfg.window > 0 && SkewAtMost(0, trace)
    requires trace[k].now - trace[l].now < cfg.WindowMs()
    ensures CountAt(cfg, trace, k) < |SlidingWindow(cfg, trace, k)|
  {
    ExpiryForgets(cfg, trace, l, k);
    assert trace[l].now <= trace[k].now;
    assert {l as int, k as int} <= SlidingWindow(cfg, trace, k);
    Counting.SubsetSize({l as int, k as int}, SlidingWindow(cfg, trace, k));
  }

  /** With clock readings that never go back, the pruned and expiring sorted set counts at every step
      what the definition of a sliding window counts, exactly when no key expires on Redis's clock
      before its last attempt is a window old on the callers'. */
  lemma {:induction false} SlidingWindowRefinement(cfg: Config, trace: seq<Request>)
    requires cfg.window > 0 && SkewAtMost(0, trace) && DistinctMembers(trace)
    ensures CountsExactly(cfg, trace) <==> ExpiryHarmless(cfg, trace)
  {
    if ExpiryHarmless(cfg, trace) {
      HarmlessClocks(cfg, trace);
      forall j | 0 <= j < |trace| && trace[j].Recorded()
        ensures CountAt(cfg, trace, j) == |SlidingWindow(cfg, trace, j)|
      {
        WindowCount(cfg, 0, trace, j);
        WindowIsAttempts(cfg, trace, j);
      }
    } else {
      var l, k :| Expires(cfg, trace, l, k) && trace[k].now - trace[l].now < cfg.WindowMs();
      EarlyExpiryMiscounts(cfg, trace, l, k);
    }
  }

  /** The members transaction j would find if keys were never dropped for age. */
  ghost function PrunedOnly(cfg: Config, s: Store, r: Request): map<Member, int> {
    Scores(ZRemRangeByScore(s, r.key, 0, r.now - cfg.WindowMs()), r.key)
  }

  /** What a key's expiry drops at step j the prune of the same transaction would drop anyway. */
  ghost predicate ExpiryUnseen(cfg: Config, trace: seq<Request>, j: int)
    requires 0 <= j < |trace|
  {
    Pruned(cfg, Run(cfg, trace[..j]), trace[j]) == PrunedOnly(cfg, Run(cfg, trace[..j]), trace[j])
  }

  lemma {:induction false} HarmlessIsUnseen(cfg: Config, trace: seq<Request>, j: nat)
    requires j < |trace| && trace[j].Recorded()
    requires cfg.window > 0 && SkewAtMost(0, trace) && ExpiryHarmless(cfg, trace)
    ensures ExpiryUnseen(cfg, trace, j)
  {
    var s, r := Run(cfg, trace[..j]), trace[j];
    if Evict(s, r.key, r.srv) != s {
      RunIsTraced(cfg, trace[..j], r.key);
      forall m | m in s[r.key].scores ensures 0 <= s[r.key].scores[m] <= r.now - cfg.WindowMs() {
        assert s[r.key].scores == Scores(s, r.key);
        var i :| RecordedOn(trace[..j], r.key, i) && trace[..j][i].AsMember() == m;
        assert RecordedOn(trace, r.key, i) && trace[i] == trace[..j][i];
        var l := LastExists(trace, j, r.key, i);
        assert Consecutive(trace, l, j);
        EvictsWhenIdle(cfg, trace, l, j);
        assert i == l || Later(trace, i, l);
      }
    }
  }

  lemma {:induction false} EarlyExpiryIsSeen(cfg: Config, trace: seq<Request>, l: int, k: nat)
    requires Expires(cfg, trace, l, k) && cfg.window > 0 && trace[k].now - trace[l].now < cfg.WindowMs()
    ensures !ExpiryUnseen(cfg, trace, k)
  {
    ExpiryForgets(cfg, trace, l, k);
    RunIsDated(cfg, trace, k, trace[k].key, l);
    assert trace[l].AsMember() in PrunedOnly(cfg, Run(cfg, trace[..k]), trace[k]);
  }

  /** Letting keys expire is invisible to every transaction under exactly the same condition. */
  lemma {:induction false} ExpiryIsInvisible(cfg: Config, trace: seq<Request>)
    requires cfg.window > 0 && SkewAtMost(0, trace)
    ensures (forall j :: 0 <= j < |trace| && trace[j].Recorded() ==> ExpiryUnseen(cfg, trace, j))
            <==> ExpiryHarmless(cfg, trace)
  {
    if ExpiryHarmless(cfg, trace) {
      forall j | 0 <= j < |trace| && trace[j].Recorded() ensures ExpiryUnseen(cfg, trace, j) {
        HarmlessIsUnseen(cfg, trace, j);
      }
    } else {
      var l, k :| Expires(cfg, trace, l, k) && trace[k].now - trace[l].now < cfg.WindowMs();
      EarlyExpiryIsSeen(cfg, trace, l, k);
    }
  }

  // ---------------------------------------------------------------- safety

  function Verdicts(cfg: Config, trace: seq<Request>): (vs: seq<Verdict>)
    ensures |vs| == |trace|
  {
    if trace == [] then []
    else
      var n := |trace| - 1;
      Verdicts(cfg, trace[..n]) + [VerdictAt(cfg, trace, n)]
  }

  lemma {:induction false} VerdictsEach(cfg: Config, trace: seq<Request>)
    ensures forall i :: 0 <= i < |trace| ==> Verdicts(cfg, trace)[i] == VerdictAt(cfg, trace, i)
  {
    if trace != [] {
      var n := |trace| - 1;
      VerdictsEach(cfg, trace[..n]);
      assert Verdicts(cfg, trace) == Verdicts(cfg, trace[..n]) + [VerdictAt(cfg, trace, n)];
      forall i | 0 <= i < n ensures Verdicts(cfg, trace)[i] == VerdictAt(cfg, trace, i) {
        VerdictInPrefix(cfg, trace, n, i);
      }
    }
  }

  lemma {:induction false} VerdictInPrefix(cfg: Config, trace: seq<Request>, n: nat, i: nat)
    requires i < n <= |trace|
    ensures VerdictAt(cfg, trace[..n], i) == VerdictAt(cfg, trace, i)
  {
    assert trace[..n][..i] == trace[..i] && trace[..n][i] == trace[i];
  }

  datatype Kind = Admits | FailsOpen | Passes

  ghost predicate Is(v: Verdict, kind: Kind) {
    match kind
    case Admits => v.Admit?
    case FailsOpen => v.FailOpen?
    case Passes => !v.Deny?
  }

  /** Positions on `key` with a clock value in (lo, hi] and a verdict of the given kind. */
  ghost function Where(trace: seq<Request>, vs: seq<Verdict>, key: string, lo: int, hi: int, kind: Kind): set<int>
    requires |vs| == |trace|
  {
    set i: int | 0 <= i < |trace| && trace[i].key == key && Is(vs[i], kind) && lo < trace[i].now <= hi
  }

  lemma {:induction false} AdmittedHasRoom(cfg: Config, d: nat, trace: seq<Request>, j: nat)
    requires j < |trace| && VerdictAt(cfg, trace, j).Admit?
    requires Clocks(cfg, d, trace) && DistinctMembers(trace)
    ensures trace[j].Recorded()
    ensures 1 + |Attempts(trace, j, trace[j].key, trace[j].now - (cfg.WindowMs() - d))| <= cfg.limit
  {
    WindowCount(cfg, d, trace, j);
  }

  /** Every admitted position leaves room: its window, less d, holds at most limit - 1 others. */
  ghost predicate AdmittedHaveRoom(trace: seq<Request>, vs: seq<Verdict>, span: int, limit: int) {
    |vs| == |trace|
    && forall i :: 0 <= i < |trace| && vs[i].Admit? ==>
         trace[i].Recorded() && 1 + |Attempts(trace, i, trace[i].key, trace[i].now - span)| <= limit
  }

  lemma {:induction false} VerdictsHaveRoom(cfg: Config, d: nat, trace: seq<Request>)
    requires Clocks(cfg, d, trace) && DistinctMembers(trace)
    ensures AdmittedHaveRoom(trace, Verdicts(cfg, trace), cfg.WindowMs() - d, cfg.limit)
  {
    VerdictsEach(cfg, trace);
    forall i | 0 <= i < |trace| && Verdicts(cfg, trace)[i].Admit?
      ensures trace[i].Recorded()
      ensures 1 + |Attempts(trace, i, trace[i].key, trace[i].now - (cfg.WindowMs() - d))| <= cfg.limit
    {
      AdmittedHasRoom(cfg, d, trace, i);
    }
  }

  lemma {:induction false} PassedSplits(trace: seq<Request>, vs: seq<Verdict>, key: string, lo: int, hi: int)
    requires |vs| == |trace|
    ensures |Where(trace, vs, key, lo, hi, Passes)|
         == |Where(trace, vs, key, lo, hi, Admits)|
          + |Where(trace, vs, key, lo, hi, FailsOpen)|
  {
    var admitted := Where(trace, vs, key, lo, hi, Admits);
    var failed := Where(trace, vs, key, lo, hi, FailsOpen);
    assert Where(trace, vs, key, lo, hi, Passes) == admitted + failed;
  }

  /** The counting core of the safety bound: the last admitted position's room bounds them all. */
  lemma {:induction false} LastOneBoundsAll(trace: seq<Request>, vs: seq<Verdict>, key: string, span: int, lo: int,
                                            t: int, limit: int)
    requires AdmittedHaveRoom(trace, vs, span, limit) && t - lo <= span
    ensures |Where(trace, vs, key, lo, t, Admits)| <= if limit > 0 then limit else 0
  {
    var chosen := Where(trace, vs, key, lo, t, Admits);
    if chosen != {} {
      var j := Counting.LargestElement(chosen);
      Counting.SubsetSize(chosen - {j}, Attempts(trace, j, key, trace[j].now - span));
      assert chosen == (chosen - {j}) + {j};
    }
  }

  /** Bounded-skew safety: over any interval no longer than a window less d, at most `limit` requests are
      admitted, and what passes exceeds that by exactly the fail-opens of the interval. */
  lemma {:induction false} SkewSafety(cfg: Config, d: nat, trace: seq<Request>, key: string, lo: int, t: int)
    requires Clocks(cfg, d, trace) && DistinctMembers(trace)
    requires t - lo <= cfg.WindowMs() - d
    ensures |Where(trace, Verdicts(cfg, trace), key, lo, t, Admits)| <= if cfg.limit > 0 then cfg.limit else 0
    ensures |Where(trace, Verdicts(cfg, trace), key, lo, t, Passes)|
         == |Where(trace, Verdicts(cfg, trace), key, lo, t, Admits)|
          + |Where(trace, Verdicts(cfg, trace), key, lo, t, FailsOpen)|
  {
    var vs := Verdicts(cfg, trace);
    assert AdmittedHaveRoom(trace, vs, cfg.WindowMs() - d, cfg.limit) by {
      VerdictsHaveRoom(cfg, d, trace);
    }
    assert |Where(trace, vs, key, lo, t, Admits)| <= (if cfg.limit > 0 then cfg.limit else 0) by {
      LastOneBoundsAll(trace, vs, key, cfg.WindowMs() - d, lo, t, cfg.limit);
    }
    PassedSplits(trace, vs, key, lo, t);
  }

  /** Callers' clocks that stay within d of Redis's own clock, up to a constant, are such clocks. */
  lemma {:induction false} ClocksFromOffset(cfg: Config, d: nat, offset: int, trace: seq<Request>)
    requires ServerMonotone(trace)
    requires forall i :: 0 <= i < |trace| ==> trace[i].srv + offset - d <= trace[i].now <= trace[i].srv + offset
    ensures Clocks(cfg, d, trace)
  {
    forall i, j | Later(trace, i, j) && ExpiresBetween(cfg, trace, i, j)
      ensures trace[j].now - trace[i].now >= cfg.WindowMs() - d
    {
      var l, k :| i <= l < k <= j < |trace| && Expires(cfg, trace, l, k) && trace[k].key == trace[j].key;
      assert i == l || Later(trace, i, l);
      assert k == j || Later(trace, k, j);
    }
  }

  // ---------------------------------------------------------------- the bound is exact

  /** No run with clocks off by at most d lets more than `limit` through in an interval of this length. */
  ghost predicate SafeOver(cfg: Config, d: nat, span: int) {
    forall trace, key, lo, t ::
      ServerMonotone(trace) && Clocks(cfg, d, trace) && DistinctMembers(trace) && t - lo <= span ==>
        |Where(trace, Verdicts(cfg, trace), key, lo, t, Admits)| <= cfg.limit
  }

  /** The longest safe interval: a window less the skew. */
  function SafeSpan(cfg: Config, d: nat): nat {
    if cfg.WindowMs() >= d then cfg.WindowMs() - d else 0
  }

  /** `limit` requests at once, then one a window less d later for the caller, just past the deadline
      for Redis. */
  ghost predicate IsBurst(cfg: Config, d: nat, trace: seq<Request>) {
    && 0 < cfg.limit && 0 < cfg.window && |trace| == cfg.limit + 1
    && (forall i :: 0 <= i < |trace| ==> trace[i].key == "k" && trace[i].reply == Answered && trace[i].id == i)
    && (forall i :: 0 <= i < cfg.limit ==> trace[i].now == trace[i].srv == 1)
    && trace[cfg.limit].now == 1 + SafeSpan(cfg, d) && trace[cfg.limit].srv == cfg.WindowMs() + 2
  }

  lemma {:induction false} Burst(cfg: Config, d: nat) returns (trace: seq<Request>)
    requires cfg.limit > 0 && cfg.window > 0
    ensures IsBurst(cfg, d, trace)
  {
    trace := seq(cfg.limit, i => Request("k", 1, 1, i, Answered))
      + [Request("k", 1 + SafeSpan(cfg, d), cfg.WindowMs() + 2, cfg.limit, Answered)];
  }

  lemma {:induction false} BurstClocks(cfg: Config, d: nat, trace: seq<Request>)
    requires IsBurst(cfg, d, trace)
    ensures ServerMonotone(trace) && SkewAtMost(0, trace) && Clocks(cfg, d, trace) && DistinctMembers(trace)
  {
    assert SkewAtMost(0, trace);
    forall i, j | Later(trace, i, j) && ExpiresBetween(cfg, trace, i, j)
      ensures trace[j].now - trace[i].now >= cfg.WindowMs() - d
    {
      BurstGap(cfg, d, trace, i, j);
    }
  }

  lemma {:induction false} BurstGap(cfg: Config, d: nat, trace: seq<Request>, i: int, j: int)
    requires IsBurst(cfg, d, trace) && Later(trace, i, j) && ExpiresBetween(cfg, trace, i, j)
    ensures i < cfg.limit == j
  {
    var l, k :| i <= l < k <= j < |trace| && Expires(cfg, trace, l, k) && trace[k].key == trace[j].key;
    assert k == cfg.limit;
  }

  /** So early in a trace the count cannot have passed the limit. */
  lemma {:induction false} EarlyCount(cfg: Config, trace: seq<Request>, i: nat)
    requires i < |trace| && i < cfg.limit
    ensures CountAt(cfg, trace, i) <= cfg.limit
  {
    CountAtMost(cfg, trace, i);
    Counting.SubsetSize(Attempts(trace, i, trace[i].key, trace[i].now - cfg.WindowMs()), Counting.UpTo(i));
  }

  lemma {:induction false} BurstExpires(cfg: Config, d: nat, trace: seq<Request>, n: nat)
    requires IsBurst(cfg, d, trace) && n == cfg.limit
    ensures Expires(cfg, trace, n - 1, n)
  {
    assert trace[n - 1].key == trace[n].key && trace[n - 1].Recorded() && trace[n].Recorded();
  }

  lemma {:induction false} BurstCount(cfg: Config, d: nat, trace: seq<Request>, i: nat)
    requires IsBurst(cfg, d, trace) && i < |trace|
    ensures CountAt(cfg, trace, i) <= cfg.limit
  {
    if i < cfg.limit {
      EarlyCount(cfg, trace, i);
    } else {
      BurstExpires(cfg, d, trace, i);
      ExpiryForgets(cfg, trace, i - 1, i);
    }
  }

  lemma {:induction false} LowCountsAdmit(cfg: Config, trace: seq<Request>)
    requires forall i :: 0 <= i < |trace| ==> trace[i].reply == Answered
    requires forall i :: 0 <= i < |trace| ==> CountAt(cfg, trace, i) <= cfg.limit
    ensures forall i :: 0 <= i < |trace| ==> Verdicts(cfg, trace)[i].Admit?
  {
    forall i: nat | i < |trace| ensures Verdicts(cfg, trace)[i].Admit? { AnsweredCount(cfg, trace, i); }
  }

  lemma {:induction false} ThroughCount(trace: seq<Request>, vs: seq<Verdict>, hi: int, chosen: set<int>)
    requires |vs| == |trace|
    requires forall i :: i in chosen ==>
               0 <= i < |trace| && trace[i].key == "k" && 0 < trace[i].now <= hi && vs[i].Admit?
    ensures |chosen| <= |Where(trace, vs, "k", 0, hi, Admits)| <= |trace|
  {
    Counting.SubsetSize(chosen, Where(trace, vs, "k", 0, hi, Admits));
    Counting.SubsetSize(Where(trace, vs, "k", 0, hi, Admits), Counting.UpTo(|trace|));
  }

  lemma {:induction false} BurstWindow(cfg: Config, d: nat, trace: seq<Request>, vs: seq<Verdict>)
    requires IsBurst(cfg, d, trace) && |vs| == |trace| && forall i :: 0 <= i < |vs| ==> vs[i].Admit?
    ensures |Where(trace, vs, "k", 0, 1 + SafeSpan(cfg, d), Admits)| == cfg.limit + 1
  {
    ThroughCount(trace, vs, 1 + SafeSpan(cfg, d), Counting.UpTo(cfg.limit + 1));
  }

  /** Just past the safe length, with callers' clocks that never go back, limit + 1 are admitted. */
  lemma {:induction false} BurstGetsThrough(cfg: Config, d: nat, trace: seq<Request>)
    requires IsBurst(cfg, d, trace)
    ensures |Where(trace, Verdicts(cfg, trace), "k", 0, 1 + SafeSpan(cfg, d), Admits)| == cfg.limit + 1
  {
    forall i: nat | i < |trace| ensures CountAt(cfg, trace, i) <= cfg.limit { BurstCount(cfg, d, trace, i); }
    LowCountsAdmit(cfg, trace);
    BurstWindow(cfg, d, trace, Verdicts(cfg, trace));
  }

  /** The bound of SkewSafety is exact for every limit, window and skew: intervals up to a window less
      the skew are safe, longer ones are not. */
  lemma {:induction false} SafeSpanIsExact(cfg: Config, d: nat, span: int)
    requires cfg.limit > 0 && cfg.window > 0
    ensures SafeOver(cfg, d, span) <==> span <= SafeSpan(cfg, d)
  {
    if span <= SafeSpan(cfg, d) {
      forall trace, key, lo, t |
        ServerMonotone(trace) && Clocks(cfg, d, trace) && DistinctMembers(trace) && t - lo <= span
        ensures |Where(trace, Verdicts(cfg, trace), key, lo, t, Admits)| <= cfg.limit
      {
        if t <= lo {
          assert Where(trace, Verdicts(cfg, trace), key, lo, t, Admits) == {};
        } else {
          SkewSafety(cfg, d, trace, key, lo, t);
        }
      }
    } else {
      var trace := Burst(cfg, d);
      BurstClocks(cfg, d, trace);
      BurstGetsThrough(cfg, d, trace);
    }
  }

  /** So the full window is safe in every run exactly when there is no skew at all. */
  lemma {:induction false} FullWindowSafeIffNoSkew(cfg: Config, d: nat)
    requires cfg.limit > 0 && cfg.window > 0
    ensures SafeOver(cfg, d, cfg.WindowMs()) <==> d == 0
  {
    SafeSpanIsExact(cfg, d, cfg.WindowMs());
  }

  /** One millisecond between reading the clock and the transaction is enough: neither clock goes back,
      yet three requests pass in a window of a second limited to two, and the last is counted as one. */
  lemma {:induction false} ExpiryCanMiscount() returns (trace: seq<Request>)
    ensures SkewAtMost(0, trace) && ServerMonotone(trace) && DistinctMembers(trace) && |trace| == 3
    ensures CountAt(Config(2, 1), trace, 2) == 1 < |SlidingWindow(Config(2, 1), trace, 2)|
    ensures |Where(trace, Verdicts(Config(2, 1), trace), "k", 0, Config(2, 1).WindowMs(), Admits)| == 3
  {
    var cfg := Config(2, 1);
    trace := Burst(cfg, 1);
    BurstClocks(cfg, 1, trace);
    BurstGetsThrough(cfg, 1, trace);
    BurstExpires(cfg, 1, trace, 2);
    ExpiryForgets(cfg, trace, 1, 2);
    EarlyExpiryMiscounts(cfg, trace, 1, 2);
  }

  // ---------------------------------------------------------------- honest headers

  /** Recorded attempts on `key` after position j, up to and including k. */
  ghost function Since(trace: seq<Request>, key: string, j: nat, k: nat): set<int>
    requires j <= k < |trace|
  {
    set i: int | j < i <= k && trace[i].key == key && trace[i].Recorded()
  }

  lemma {:induction false} StoredSince(cfg: Config, trace: seq<Request>, j: nat, n: nat, m: Member)
    requires j < n <= |trace| && trace[j].Recorded()
    requires m in Scores(Run(cfg, trace[..n]), trace[j].key) && m !in Counted(cfg, trace, j)
    ensures exists i :: i in Since(trace, trace[j].key, j, n - 1) && trace[i].AsMember() == m
  {
    var key, s, r := trace[j].key, Run(cfg, trace[..n - 1]), trace[n - 1];
    assert trace[..n][..n - 1] == trace[..n - 1];
    assert Run(cfg, trace[..n]) == After(cfg, s, r);
    InsertedScores(cfg, s, r);
    if j < n - 1 {
      if RecordedOn(trace, key, n - 1) && m == r.AsMember() {
        assert n - 1 in Since(trace, key, j, n - 1);
      } else {
        if r.Recorded() && r.key != key {
          OtherKeysUntouched(cfg, s, r, key);
        }
        assert m in Scores(s, key);
        StoredSince(cfg, trace, j, n - 1, m);
        var i :| i in Since(trace, key, j, n - 2) && trace[i].AsMember() == m;
        assert i in Since(trace, key, j, n - 1);
      }
    }
  }

  /** From one attempt to a later one a count gains at most the attempts made since, whatever the
      clocks read, Redis drops or members coincide. */
  lemma {:induction false} CountGrowth(cfg: Config, trace: seq<Request>, j: nat, k: nat)
    requires j < k < |trace| && trace[k].key == trace[j].key && trace[j].Recorded() && trace[k].Recorded()
    ensures CountAt(cfg, trace, k) <= CountAt(cfg, trace, j) + |Since(trace, trace[j].key, j, k)|
  {
    var since := Since(trace, trace[j].key, j, k);
    var added := Counted(cfg, trace, k) - Counted(cfg, trace, j);
    forall m | m in added ensures exists i :: i in since && Members(trace)[i] == m {
      InsertedScores(cfg, Run(cfg, trace[..k]), trace[k]);
      if m == trace[k].AsMember() {
        assert k in since && Members(trace)[k] == m;
      } else {
        StoredSince(cfg, trace, j, k, m);
        var i :| i in Since(trace, trace[j].key, j, k - 1) && trace[i].AsMember() == m;
        assert i in since && Members(trace)[i] == m;
      }
    }
    Counting.CoveredEntries(Members(trace), since, added);
    Counting.SubsetSize(Counted(cfg, trace, k), Counted(cfg, trace, j) + added);
    assert CountAt(cfg, trace, k) == |Counted(cfg, trace, k)| && CountAt(cfg, trace, j) == |Counted(cfg, trace, j)|;
  }

  /** An answered request's verdict is its count against the limit. */
  lemma {:induction false} AnsweredCount(cfg: Config, trace: seq<Request>, k: nat)
    requires k < |trace|
    ensures Verdicts(cfg, trace)[k].FailOpen? <==> trace[k].reply != Answered
    ensures var count := CountAt(cfg, trace, k);
      !Verdicts(cfg, trace)[k].FailOpen? ==>
        Verdicts(cfg, trace)[k] == if count <= cfg.limit then Admit(cfg.limit - count) else Deny(cfg.window)
  {
    VerdictsEach(cfg, trace);
  }

  /** A response that reports r remaining is kept under any clocks at all: the next r attempts on the
      key, whenever they come, are admitted, and the header shrinks by at most one for each of them. */
  lemma {:induction false} RemainingIsHonest(cfg: Config, trace: seq<Request>, j: nat, k: nat)
    requires j < k < |trace|
    requires trace[k].key == trace[j].key && trace[k].reply == Answered
    requires Verdicts(cfg, trace)[j].Admit?
    requires |Since(trace, trace[j].key, j, k)| <= Verdicts(cfg, trace)[j].remaining
    ensures Verdicts(cfg, trace)[k].Admit?
    ensures Verdicts(cfg, trace)[k].remaining
         >= Verdicts(cfg, trace)[j].remaining - |Since(trace, trace[j].key, j, k)|
  {
    AnsweredCount(cfg, trace, j);
    AnsweredCount(cfg, trace, k);
    CountGrowth(cfg, trace, j, k);
  }

  /** int(time.time() * 1000) */
  function NowMs(time: real): int { (time * 1000.0).Floor }

  lemma {:induction false} WholeSecondsSurviveTruncation(t0: real, t1: real, seconds: int)
    requires t1 >= t0 + seconds as real
    ensures NowMs(t1) >= NowMs(t0) + seconds * 1000
    ensures NowMs(t0) as real <= t0 * 1000.0 < NowMs(t0) as real + 1.0
  {
    assert t1 * 1000.0 >= t0 * 1000.0 + (seconds * 1000) as real;
  }

  /** No recorded attempt on its key before j read a later clock value than j's. */
  ghost predicate Newest(trace: seq<Request>, j: int) {
    forall i :: Later(trace, i, j) ==> trace[i].now <= trace[j].now
  }

  lemma {:induction false} SilenceEmptiesTheWindow(trace: seq<Request>, j: nat, k: nat, w: int)
    requires j < k < |trace| && trace[k].key == trace[j].key && trace[k].now >= trace[j].now + w
    requires trace[j].Recorded() && Newest(trace, j) && Since(trace, trace[j].key, j, k) == {k}
    ensures Attempts(trace, k, trace[k].key, trace[k].now - w) == {}
  {
    var earlier := Attempts(trace, k, trace[k].key, trace[k].now - w);
    forall i | 0 <= i < k ensures i !in earlier {
      if i > j {
        assert i !in Since(trace, trace[j].key, j, k);
      } else if RecordedOn(trace, trace[j].key, i) {
        assert i == j || Later(trace, i, j);
      }
    }
  }

  lemma {:induction false} CountAfterSilence(cfg: Config, trace: seq<Request>, j: nat, k: nat)
    requires j < k < |trace| && trace[k].key == trace[j].key && trace[k].now >= trace[j].now + cfg.WindowMs()
    requires trace[j].Recorded() && Newest(trace, j) && Since(trace, trace[j].key, j, k) == {k}
    ensures CountAt(cfg, trace, k) == 1
  {
    SilenceEmptiesTheWindow(trace, j, k, cfg.WindowMs());
    CountAtMost(cfg, trace, k);
    OwnIsCounted(cfg, trace, k);
  }

  lemma {:induction false} OwnIsCounted(cfg: Config, trace: seq<Request>, k: nat)
    requires k < |trace|
    ensures CountAt(cfg, trace, k) >= 1
  {
    assert trace[k].AsMember() in Counted(cfg, trace, k);
    assert CountAt(cfg, trace, k) == |Counted(cfg, trace, k)|;
  }

  /** After a denial a client that stays silent for Retry-After seconds of real time starts from a
      count of one, so it is admitted whenever the limit allows anything at all. Redis's clock, the
      other keys' traffic and coinciding members do not matter. */
  lemma {:induction false} RetryAfterIsHonest(cfg: Config, trace: seq<Request>, j: nat, k: nat, tj: real, tk: real)
    requires j < k < |trace| && Newest(trace, j)
    requires trace[k].key == trace[j].key && trace[k].reply == Answered
    requires Verdicts(cfg, trace)[j].Deny?
    requires trace[j].now == NowMs(tj) && trace[k].now == NowMs(tk)
    requires tk >= tj + Verdicts(cfg, trace)[j].retryAfter as real
    requires Since(trace, trace[j].key, j, k) == {k}
    ensures CountAt(cfg, trace, k) == 1
    ensures Verdicts(cfg, trace)[k] == if cfg.limit >= 1 then Admit(cfg.limit - 1) else Deny(cfg.window)
  {
    AnsweredCount(cfg, trace, j);
    WholeSecondsSurviveTruncation(tj, tk, cfg.window);
    CountAfterSilence(cfg, trace, j, k);
    AnsweredCount(cfg, trace, k);
  }

  // ---------------------------------------------------------------- skew without expiry

  ghost predicate NeverExpires(cfg: Config, trace: seq<Request>) {
    forall l, k :: !Expires(cfg, trace, l, k)
  }

  /** The same when no key ever expires, so that only the callers' clocks are off. */
  ghost predicate SkewAloneSafe(cfg: Config, d: nat, span: int) {
    forall trace, key, lo, t ::
      NeverExpires(cfg, trace) && SkewAtMost(d, trace) && DistinctMembers(trace) && t - lo <= span ==>
        |Where(trace, Verdicts(cfg, trace), key, lo, t, Admits)| <= cfg.limit
  }

  /** `limit` requests at once, one a window later that prunes them all, one whose clock trails that. */
  ghost predicate IsTrailing(cfg: Config, d: nat, trace: seq<Request>) {
    && 0 < cfg.limit && 0 < cfg.window && |trace| == cfg.limit + 2
    && (forall i :: 0 <= i < |trace| ==> trace[i].key == "k" && trace[i].reply == Answered && trace[i].id == i)
    && (forall i :: 0 <= i < cfg.limit ==> trace[i].now == trace[i].srv == 1)
    && trace[cfg.limit].now == trace[cfg.limit].srv == cfg.WindowMs() + 1
    && trace[cfg.limit + 1].now == 1 + SafeSpan(cfg, d) && trace[cfg.limit + 1].srv == cfg.WindowMs() + 1
  }

  lemma {:induction false} Trailing(cfg: Config, d: nat) returns (trace: seq<Request>)
    requires cfg.limit > 0 && cfg.window > 0
    ensures IsTrailing(cfg, d, trace)
  {
    trace := seq(cfg.limit, i => Request("k", 1, 1, i, Answered))
      + [Request("k", cfg.WindowMs() + 1, cfg.WindowMs() + 1, cfg.limit, Answered),
         Request("k", 1 + SafeSpan(cfg, d), cfg.WindowMs() + 1, cfg.limit + 1, Answered)];
  }

  lemma {:induction false} TrailingClocks(cfg: Config, d: nat, trace: seq<Request>)
    requires IsTrailing(cfg, d, trace)
    ensures NeverExpires(cfg, trace) && SkewAtMost(d, trace) && DistinctMembers(trace)
  {
  }

  lemma {:induction false} TrailingPruned(cfg: Config, d: nat, trace: seq<Request>, n: nat)
    requires IsTrailing(cfg, d, trace) && n == cfg.limit
    ensures CountAt(cfg, trace, n) <= 1
  {
    CountAtMost(cfg, trace, n);
    assert Attempts(trace, n, trace[n].key, trace[n].now - cfg.WindowMs()) == {};
  }

  lemma {:induction false} NextCount(cfg: Config, trace: seq<Request>, n: nat)
    requires n + 1 < |trace| && trace[n].key == trace[n + 1].key && trace[n].Recorded() && trace[n + 1].Recorded()
    ensures CountAt(cfg, trace, n + 1) <= CountAt(cfg, trace, n) + 1
  {
    CountGrowth(cfg, trace, n, n + 1);
    assert Since(trace, trace[n].key, n, n + 1) == {n + 1};
  }

  lemma {:induction false} TrailingLast(cfg: Config, d: nat, trace: seq<Request>, n: nat)
    requires IsTrailing(cfg, d, trace) && n == cfg.limit
    requires CountAt(cfg, trace, n) <= 1
    ensures CountAt(cfg, trace, n + 1) <= 2
  {
    assert trace[n].key == trace[n + 1].key;
    assert trace[n].Recorded() && trace[n + 1].Recorded();
    NextCount(cfg, trace, n);
  }

  lemma {:induction false} TrailingThird(cfg: Config, d: nat, trace: seq<Request>, n: nat)
    requires IsTrailing(cfg, d, trace) && n == cfg.limit
    ensures CountAt(cfg, trace, n + 1) <= 2
  {
    TrailingPruned(cfg, d, trace, n);
    TrailingLast(cfg, d, trace, n);
  }

  lemma {:induction false} TrailingCount(cfg: Config, d: nat, trace: seq<Request>, n: nat, i: nat)
    requires IsTrailing(cfg, d, trace) && n == cfg.limit && i <= n + 1 && (cfg.limit >= 2 || i <= n)
    ensures CountAt(cfg, trace, i) <= n
  {
    if i < n {
      EarlyCount(cfg, trace, i);
    } else if i == n {
      TrailingPruned(cfg, d, trace, n);
    } else {
      TrailingThird(cfg, d, trace, n);
    }
  }

  lemma {:induction false} TrailingWindow(cfg: Config, d: nat, trace: seq<Request>, vs: seq<Verdict>)
    requires IsTrailing(cfg, d, trace) && |vs| == |trace| && forall i :: 0 <= i < |vs| ==> vs[i].Admit?
    ensures |Where(trace, vs, "k", 0, 1 + SafeSpan(cfg, d), Admits)| > cfg.limit
  {
    ThroughCount(trace, vs, 1 + SafeSpan(cfg, d), Counting.UpTo(cfg.limit) + {cfg.limit + 1});
  }

  lemma {:induction false} TrailingGetsThrough(cfg: Config, d: nat, trace: seq<Request>)
    requires IsTrailing(cfg, d, trace) && cfg.limit >= 2
    ensures |Where(trace, Verdicts(cfg, trace), "k", 0, 1 + SafeSpan(cfg, d), Admits)| > cfg.limit
  {
    forall i: nat | i < |trace| ensures CountAt(cfg, trace, i) <= cfg.limit {
      TrailingCount(cfg, d, trace, cfg.limit, i);
    }
    LowCountsAdmit(cfg, trace);
    TrailingWindow(cfg, d, trace, Verdicts(cfg, trace));
  }

  /** With a limit of one, the first two of the same run are a window apart and both admitted. */
  lemma {:induction false} TwoGetThrough(cfg: Config, d: nat, trace: seq<Request>)
    requires IsTrailing(cfg, d, trace) && cfg.limit == 1
    ensures |Where(trace, Verdicts(cfg, trace), "k", 0, cfg.WindowMs() + 1, Admits)| > 1
  {
    TrailingAdmits(cfg, d, trace, 0);
    TrailingAdmits(cfg, d, trace, 1);
    TwoInWindow(cfg, d, trace, Verdicts(cfg, trace));
  }

  lemma {:induction false} TrailingAdmits(cfg: Config, d: nat, trace: seq<Request>, i: nat)
    requires IsTrailing(cfg, d, trace) && i <= cfg.limit
    ensures Verdicts(cfg, trace)[i].Admit?
  {
    TrailingCount(cfg, d, trace, cfg.limit, i);
    AnsweredCount(cfg, trace, i);
  }

  lemma {:induction false} TwoInWindow(cfg: Config, d: nat, trace: seq<Request>, vs: seq<Verdict>)
    requires IsTrailing(cfg, d, trace) && cfg.limit == 1 && |vs| == |trace| && vs[0].Admit? && vs[1].Admit?
    ensures |Where(trace, vs, "k", 0, cfg.WindowMs() + 1, Admits)| > 1
  {
    ThroughCount(trace, vs, cfg.WindowMs() + 1, {0, 1});
  }

  /** Some stored attempt on the key is at least as new as attempt i. */
  ghost predicate NewerStored(cfg: Config, trace: seq<Request>, i: int, n: nat)
    requires 0 <= i < n <= |trace|
  {
    exists m :: m in Scores(Run(cfg, trace[..n]), trace[i].key)
                && Scores(Run(cfg, trace[..n]), trace[i].key)[m] >= trace[i].now
  }

  lemma {:induction false} NotEvicted(cfg: Config, trace: seq<Request>, i: int, k: nat)
    requires Later(trace, i, k) && cfg.window > 0 && NeverExpires(cfg, trace)
    ensures Evict(Run(cfg, trace[..k]), trace[k].key, trace[k].srv) == Run(cfg, trace[..k])
  {
    var l := LastExists(trace, k, trace[k].key, i);
    assert Consecutive(trace, l, k);
    EvictsWhenIdle(cfg, trace, l, k);
  }

  /** Without expiry an attempt only goes when a newer one comes. */
  lemma {:induction false} NewerStays(cfg: Config, trace: seq<Request>, i: int, n: nat)
    requires 0 <= i < n <= |trace| && trace[i].Recorded() && cfg.window > 0 && NeverExpires(cfg, trace)
    ensures NewerStored(cfg, trace, i, n)
  {
    var k, s, r := trace[i].key, Run(cfg, trace[..n - 1]), trace[n - 1];
    assert trace[..n][..n - 1] == trace[..n - 1];
    assert Run(cfg, trace[..n]) == After(cfg, s, r);
    InsertedScores(cfg, s, r);
    if i == n - 1 {
      assert r.AsMember() in Scores(Run(cfg, trace[..n]), k);
    } else {
      NewerStays(cfg, trace, i, n - 1);
      var m :| m in Scores(s, k) && Scores(s, k)[m] >= trace[i].now;
      if r.key != k || !r.Recorded() {
        if r.Recorded() { OtherKeysUntouched(cfg, s, r, k); }
        assert Slot(After(cfg, s, r), k) == Slot(s, k);
        assert m in Scores(Run(cfg, trace[..n]), k);
      } else {
        NotEvicted(cfg, trace, i, n - 1);
        RunIsTraced(cfg, trace[..n - 1], k);
        assert Scores(Run(cfg, trace[..n]), k) == Pruned(cfg, s, r)[r.AsMember() := r.now];
        var kept := if m in Pruned(cfg, s, r) then m else r.AsMember();
        assert kept in Scores(Run(cfg, trace[..n]), k);
        assert Scores(Run(cfg, trace[..n]), k)[kept] >= trace[i].now;
      }
    }
  }

  lemma {:induction false} StoredIsAnother(cfg: Config, trace: seq<Request>, j: nat, m: Member)
    requires j < |trace| && trace[j].Recorded() && DistinctMembers(trace)
    requires m in Scores(Run(cfg, trace[..j]), trace[j].key)
    ensures m != trace[j].AsMember()
  {
    RunIsTraced(cfg, trace[..j], trace[j].key);
    var q :| RecordedOn(trace[..j], trace[j].key, q) && trace[..j][q].AsMember() == m;
    assert trace[q] == trace[..j][q] && Later(trace, q, j);
  }

  /** With a limit of one, an admitted request has pruned all there was: it is a window newer. */
  lemma {:induction false} AloneIsNewer(cfg: Config, trace: seq<Request>, i: nat, j: nat)
    requires Later(trace, i, j) && cfg.window > 0 && NeverExpires(cfg, trace) && DistinctMembers(trace)
    requires CountAt(cfg, trace, j) <= 1
    ensures trace[j].now >= trace[i].now + cfg.WindowMs()
  {
    var s, r := Run(cfg, trace[..j]), trace[j];
    NewerStays(cfg, trace, i, j);
    var m :| m in Scores(s, r.key) && Scores(s, r.key)[m] >= trace[i].now;
    NotEvicted(cfg, trace, i, j);
    InsertedScores(cfg, s, r);
    StoredIsAnother(cfg, trace, j, m);
    assert CountAt(cfg, trace, j) == |Counted(cfg, trace, j)|;
    if m in Pruned(cfg, s, r) {
      Counting.SubsetSize({m, r.AsMember()}, Counted(cfg, trace, j));
    }
  }

  lemma {:induction false} OneAtATime(cfg: Config, trace: seq<Request>, key: string, lo: int, t: int)
    requires cfg.limit == 1 && cfg.window > 0 && NeverExpires(cfg, trace) && DistinctMembers(trace)
    requires t - lo <= cfg.WindowMs()
    ensures |Where(trace, Verdicts(cfg, trace), key, lo, t, Admits)| <= 1
  {
    var chosen := Where(trace, Verdicts(cfg, trace), key, lo, t, Admits);
    VerdictsEach(cfg, trace);
    if chosen != {} {
      var j := Counting.LargestElement(chosen);
      forall i | i in chosen ensures i == j {
        if i < j { AloneIsNewer(cfg, trace, i, j); }
      }
      assert chosen == {j};
    }
  }

  /** The longest safe interval when no key expires; a single request at a time is safe from skew. */
  function SafeSpanAlone(cfg: Config, d: nat): int {
    if cfg.limit == 1 then cfg.WindowMs() else SafeSpan(cfg, d)
  }

  lemma {:induction false} ShortIsSafe(cfg: Config, d: nat, trace: seq<Request>, key: string, lo: int, t: int)
    requires cfg.limit > 0 && cfg.window > 0 && t - lo <= SafeSpanAlone(cfg, d)
    requires NeverExpires(cfg, trace) && SkewAtMost(d, trace) && DistinctMembers(trace)
    ensures |Where(trace, Verdicts(cfg, trace), key, lo, t, Admits)| <= cfg.limit
  {
    if cfg.limit == 1 {
      OneAtATime(cfg, trace, key, lo, t);
    } else if t <= lo {
      assert Where(trace, Verdicts(cfg, trace), key, lo, t, Admits) == {};
    } else {
      SkewSafety(cfg, d, trace, key, lo, t);
    }
  }

  /** Even when no key ever expires, callers' clocks off by up to d shorten the safe interval just as
      much, unless a single request is allowed: then the full window is safe, and no more. */
  lemma {:induction false} SkewAloneIsExact(cfg: Config, d: nat, span: int)
    requires cfg.limit > 0 && cfg.window > 0
    ensures SkewAloneSafe(cfg, d, span) <==> span <= SafeSpanAlone(cfg, d)
  {
    if span <= SafeSpanAlone(cfg, d) {
      forall trace, key, lo, t |
        NeverExpires(cfg, trace) && SkewAtMost(d, trace) && DistinctMembers(trace) && t - lo <= span
        ensures |Where(trace, Verdicts(cfg, trace), key, lo, t, Admits)| <= cfg.limit
      {
        ShortIsSafe(cfg, d, trace, key, lo, t);
      }
    } else {
      var trace := Trailing(cfg, d);
      TrailingClocks(cfg, d, trace);
      if cfg.limit == 1 {
        TwoGetThrough(cfg, d, trace);
      } else {
        TrailingGetsThrough(cfg, d, trace);
      }
    }
  }

  // ---------------------------------------------------------------- conservative simulation

  /** A limiter that prunes and refreshes alike but inserts only the requests it admits. */
  ghost function LazyAfter(cfg: Config, s: Store, r: Request): Store {
    if !r.Recorded() then s
    else if Count(cfg, s, r) <= cfg.limit then Expire(Inserted(cfg, s, r), r.key, r.srv, cfg.window)
    else Expire(ZRemRangeByScore(Evict(s, r.key, r.srv), r.key, 0, r.now - cfg.WindowMs()), r.key, r.srv, cfg.window)
  }

  ghost function LazyRun(cfg: Config, trace: seq<Request>): Store {
    if trace == [] then map[]
    else LazyAfter(cfg, LazyRun(cfg, trace[..|trace| - 1]), trace[|trace| - 1])
  }

  /** The lazy store holds a part of the real one, with the same deadlines. */
  ghost predicate Within(lazy: Store, full: Store) {
    forall k :: k in lazy ==> WithinAt(lazy, full, k)
  }

  ghost predicate WithinAt(lazy: Store, full: Store, k: string)
    requires k in lazy
  {
    k in full && lazy[k].deadline == full[k].deadline
    && forall m :: m in lazy[k].scores ==> m in full[k].scores && lazy[k].scores[m] == full[k].scores[m] == m.nowMs
  }

  lemma {:induction false} PrunedWithin(cfg: Config, lazy: Store, full: Store, r: Request)
    requires Within(lazy, full)
    ensures Pruned(cfg, lazy, r).Keys <= Pruned(cfg, full, r).Keys
    ensures Count(cfg, lazy, r) <= Count(cfg, full, r)
  {
    InsertedScores(cfg, lazy, r);
    InsertedScores(cfg, full, r);
    Counting.SubsetSize(Scores(Inserted(cfg, lazy, r), r.key).Keys, Scores(Inserted(cfg, full, r), r.key).Keys);
  }

  lemma {:induction false} KeyStaysWithin(cfg: Config, lazy: Store, full: Store, r: Request)
    requires Within(lazy, full) && r.Recorded() && r.key in LazyAfter(cfg, lazy, r)
    ensures WithinAt(LazyAfter(cfg, lazy, r), After(cfg, full, r), r.key)
  {
    PrunedWithin(cfg, lazy, full, r);
    InsertedScores(cfg, lazy, r);
    InsertedScores(cfg, full, r);
    var lazy', full' := LazyAfter(cfg, lazy, r), After(cfg, full, r);
    forall m | m in lazy'[r.key].scores
      ensures m in full'[r.key].scores && lazy'[r.key].scores[m] == full'[r.key].scores[m] == m.nowMs
    {
      if m != r.AsMember() || Count(cfg, lazy, r) > cfg.limit {
        assert m in Pruned(cfg, lazy, r) && m in Pruned(cfg, full, r);
        assert Scores(lazy, r.key)[m] == Scores(full, r.key)[m];
      }
    }
  }

  lemma {:induction false} LazyLeavesOthers(cfg: Config, s: Store, r: Request, k: string)
    requires k != r.key
    ensures Slot(LazyAfter(cfg, s, r), k) == Slot(s, k)
  {
    if r.Recorded() {
      var pruned := ZRemRangeByScore(Evict(s, r.key, r.srv), r.key, 0, r.now - cfg.WindowMs());
      assert Slot(pruned, k) == Slot(s, k);
      assert Slot(Inserted(cfg, s, r), k) == Slot(s, k);
    }
  }

  lemma {:induction false} OthersStayWithin(cfg: Config, lazy: Store, full: Store, r: Request, k: string)
    requires Within(lazy, full) && k != r.key && k in LazyAfter(cfg, lazy, r)
    ensures WithinAt(LazyAfter(cfg, lazy, r), After(cfg, full, r), k)
  {
    LazyLeavesOthers(cfg, lazy, r, k);
    OtherKeysUntouched(cfg, full, r, k);
    assert k in lazy && WithinAt(lazy, full, k);
  }

  lemma {:induction false} StepWithin(cfg: Config, lazy: Store, full: Store, r: Request)
    requires Within(lazy, full)
    ensures Within(LazyAfter(cfg, lazy, r), After(cfg, full, r))
  {
    if r.Recorded() {
      var lazy', full' := LazyAfter(cfg, lazy, r), After(cfg, full, r);
      if r.key in lazy' {
        KeyStaysWithin(cfg, lazy, full, r);
      }
      forall k | k in lazy' && k != r.key ensures WithinAt(lazy', full', k) {
        OthersStayWithin(cfg, lazy, full, r, k);
      }
    }
  }

  lemma {:induction false} RunsWithin(cfg: Config, trace: seq<Request>)
    ensures Within(LazyRun(cfg, trace), Run(cfg, trace))
  {
    if trace != [] {
      var n := |trace| - 1;
      RunsWithin(cfg, trace[..n]);
      StepWithin(cfg, LazyRun(cfg, trace[..n]), Run(cfg, trace[..n]), trace[n]);
    }
  }

  /** Counting denied attempts too is only ever stricter: on the same arrivals, under any clocks,
      the admitted-only limiter admits every request this one admits. */
  lemma {:induction false} Conservative(cfg: Config, trace: seq<Request>, i: nat)
    requires i < |trace| && VerdictAt(cfg, trace, i).Admit?
    ensures Decide(cfg, LazyRun(cfg, trace[..i]), trace[i]).Admit?
    ensures Decide(cfg, LazyRun(cfg, trace[..i]), trace[i]).remaining >= VerdictAt(cfg, trace, i).remaining
  {
    RunsWithin(cfg, trace[..i]);
    PrunedWithin(cfg, LazyRun(cfg, trace[..i]), Run(cfg, trace[..i]), trace[i]);
  }

  // ---------------------------------------------------------------- client isolation

  function Only(trace: seq<Request>, key: string): seq<Request> {
    if trace == [] then []
    else
      var n := |trace| - 1;
      Only(trace[..n], key) + (if trace[n].key == key then [trace[n]] else [])
  }

  /** The verdicts of a merged trace, kept for one key only. */
  function VerdictsOf(cfg: Config, trace: seq<Request>, key: string): seq<Verdict> {
    if trace == [] then []
    else
      var n := |trace| - 1;
      VerdictsOf(cfg, trace[..n], key) + (if trace[n].key == key then [VerdictAt(cfg, trace, n)] else [])
  }

  lemma {:induction false} InsertIsLocal(cfg: Config, s: Store, s': Store, r: Request)
    requires Slot(s, r.key) == Slot(s', r.key)
    ensures Scores(Inserted(cfg, s, r), r.key) == Scores(Inserted(cfg, s', r), r.key)
  {
    InsertedScores(cfg, s, r);
    InsertedScores(cfg, s', r);
    assert Pruned(cfg, s, r) == Pruned(cfg, s', r);
  }

  lemma {:induction false} StepIsLocal(cfg: Config, s: Store, s': Store, r: Request)
    requires Slot(s, r.key) == Slot(s', r.key)
    ensures Decide(cfg, s, r) == Decide(cfg, s', r)
    ensures Slot(After(cfg, s, r), r.key) == Slot(After(cfg, s', r), r.key)
  {
    InsertIsLocal(cfg, s, s', r);
    if r.Recorded() {
      SlotAfter(cfg, s, r);
      SlotAfter(cfg, s', r);
    }
  }

  lemma {:induction false} SlotAfter(cfg: Config, s: Store, r: Request)
    requires r.Recorded()
    ensures Slot(After(cfg, s, r), r.key)
         == if cfg.window <= 0 then None
            else Some(ZSet(Scores(Inserted(cfg, s, r), r.key), Some(r.srv + cfg.WindowMs())))
  {
  }

  /** Traffic on other keys changes nothing: neither the stored set nor any verdict. */
  lemma {:induction false} Isolation(cfg: Config, trace: seq<Request>, key: string)
    ensures Slot(Run(cfg, trace), key) == Slot(Run(cfg, Only(trace, key)), key)
    ensures VerdictsOf(cfg, trace, key) == Verdicts(cfg, Only(trace, key))
  {
    if trace != [] {
      var n := |trace| - 1;
      var before, r := trace[..n], trace[n];
      Isolation(cfg, before, key);
      if r.key == key {
        assert Only(trace, key)[..|Only(trace, key)| - 1] == Only(before, key);
        StepIsLocal(cfg, Run(cfg, before), Run(cfg, Only(before, key)), r);
      } else {
        OtherKeysUntouched(cfg, Run(cfg, before), r, key);
        assert Only(trace, key) == Only(before, key);
      }
    }
  }

  /** The code points below 256 that str.strip removes. */
  ghost predicate BlankCode(n: int) { 9 <= n <= 13 || 28 <= n <= 32 || n == 133 || n == 160 }

  ghost predicate Blank(s: string) { forall c :: c in s ==> BlankCode(c as int) }

  lemma {:induction false} SpacesAreBlank(c: char)
    ensures IsSpace(c) <==> BlankCode(c as int)
  {
  }

  lemma {:induction false} LeftmostHopEnds(first: string, rest: string)
    requires ',' !in first && (rest == "" || rest[0] == ',')
    ensures LeftmostHop(first + rest) == first
  {
    if first != "" {
      assert (first + rest)[1..] == first[1..] + rest;
      LeftmostHopEnds(first[1..], rest);
    } else {
      assert first + rest == rest;
    }
  }

  lemma {:induction false} LStripDrops(lead: string, s: string)
    requires Blank(lead) && (s == "" || !IsSpace(s[0]))
    ensures LStrip(lead + s) == s
  {
    if lead != "" {
      SpacesAreBlank(lead[0]);
      assert lead[0] in lead && forall c :: c in lead[1..] ==> c in lead;
      assert (lead + s)[1..] == lead[1..] + s;
      LStripDrops(lead[1..], s);
    } else {
      assert lead + s == s;
    }
  }

  lemma {:induction false} RStripDrops(s: string, trail: string)
    requires Blank(trail) && (s == "" || !IsSpace(s[|s| - 1]))
    ensures RStrip(s + trail) == s
  {
    if trail != "" {
      var n := |trail| - 1;
      SpacesAreBlank(trail[n]);
      assert trail[n] in trail && forall c :: c in trail[..n] ==> c in trail;
      assert (s + trail)[|s + trail| - 1] == trail[n];
      assert (s + trail)[..|s + trail| - 1] == s + trail[..n];
      RStripDrops(s, trail[..n]);
    } else {
      assert s + trail == s;
    }
  }

  /** The address is the first entry of the header, without the blanks around it, however many hops
      follow. */
  ghost predicate Names(header: string, address: string) {
    && ',' !in address
    && (address != "" ==> !BlankCode(address[0] as int) && !BlankCode(address[|address| - 1] as int))
    && exists lead, trail, hops :: Splits(header, lead, address, trail, hops)
  }

  ghost predicate Splits(header: string, lead: string, address: string, trail: string, hops: string) {
    header == lead + address + trail + hops && Blank(lead) && Blank(trail) && (hops == "" || hops[0] == ',')
  }

  lemma {:induction false} BlankHasNoComma(s: string)
    requires Blank(s)
    ensures ',' !in s
  {
  }

  lemma {:induction false} ForwardedAddress(p: Peer, header: string, address: string)
    requires p.forwardedFor == Some(header) && header != "" && Names(header, address)
    ensures Address(p) == address
  {
    var lead, trail, hops :| Splits(header, lead, address, trail, hops);
    BlankHasNoComma(lead);
    BlankHasNoComma(trail);
    LeftmostHopEnds(lead + address + trail, hops);
    StripsTo(lead, address, trail);
  }

  lemma {:induction false} StripsTo(lead: string, address: string, trail: string)
    requires Blank(lead) && Blank(trail)
    requires address != "" ==> !BlankCode(address[0] as int) && !BlankCode(address[|address| - 1] as int)
    ensures RStrip(LStrip(lead + address + trail)) == address
  {
    if address != "" {
      SpacesAreBlank(address[0]);
      SpacesAreBlank(address[|address| - 1]);
      assert lead + address + trail == lead + (address + trail);
      LStripDrops(lead, address + trail);
      RStripDrops(address, trail);
    } else {
      assert lead + address + trail == (lead + trail) + "";
      LStripDrops(lead + trail, "");
    }
  }

  lemma {:induction false} HopSplits(s: string)
    ensures |LeftmostHop(s)| <= |s| && s[..|LeftmostHop(s)|] == LeftmostHop(s) && ',' !in LeftmostHop(s)
    ensures var hops := s[|LeftmostHop(s)|..]; hops == "" || hops[0] == ','
  {
    if s != "" && s[0] != ',' { HopSplits(s[1..]); }
  }

  lemma {:induction false} LStripSplits(s: string) returns (lead: string)
    ensures s == lead + LStrip(s) && Blank(lead) && (LStrip(s) != "" ==> !IsSpace(LStrip(s)[0]))
  {
    if s != "" && IsSpace(s[0]) {
      SpacesAreBlank(s[0]);
      lead := LStripSplits(s[1..]);
      lead := [s[0]] + lead;
    } else {
      lead := "";
    }
  }

  lemma {:induction false} RStripSplits(s: string) returns (trail: string)
    ensures s == RStrip(s) + trail && Blank(trail)
    ensures RStrip(s) != "" ==> !IsSpace(RStrip(s)[|RStrip(s)| - 1]) && RStrip(s)[0] == s[0]
  {
    if s != "" && IsSpace(s[|s| - 1]) {
      SpacesAreBlank(s[|s| - 1]);
      trail := RStripSplits(s[..|s| - 1]);
      trail := trail + [s[|s| - 1]];
    } else {
      trail := "";
    }
  }

  /** Every header names some address. */
  lemma {:induction false} HeaderNames(header: string) returns (address: string)
    ensures Names(header, address)
  {
    HopSplits(header);
    var first := LeftmostHop(header);
    var lead := LStripSplits(first);
    var trail := RStripSplits(LStrip(first));
    var hops := header[|first|..];
    address := RStrip(LStrip(first));
    assert Splits(header, lead, address, trail, hops);
    if address != "" {
      SpacesAreBlank(address[0]);
      SpacesAreBlank(address[|address| - 1]);
    }
    forall c | c in address ensures c in first { }
  }

  /** Whom a request counts as. */
  datatype Who = User(name: string) | At(address: string)

  /** A signed-in user counts as such; anyone else as the first address of a forwarding header, or as
      the host at the other end, or as unknown when there is none. Empty values count as absent. */
  ghost predicate CountsAs(p: Peer, who: Who) {
    if p.userId != None && p.userId != Some("") then who == User(p.userId.value)
    else if p.forwardedFor != None && p.forwardedFor != Some("") then
      who.At? && Names(p.forwardedFor.value, who.address)
    else who == At(if p.host == None then "unknown" else p.host.value)
  }

  function KeyText(prefix: string, who: Who): string {
    match who
    case User(name) => prefix + ":user:" + name
    case At(address) => prefix + ":ip:" + address
  }

  /** Every request counts as somebody, and that alone makes its key. */
  lemma {:induction false} KeysTell(prefix: string, p: Peer) returns (who: Who)
    ensures CountsAs(p, who)
    ensures forall w :: CountsAs(p, w) ==> Key(prefix, ClientIdentity(p)) == KeyText(prefix, w)
  {
    if p.userId != None && p.userId != Some("") {
      who := User(p.userId.value);
      assert prefix + ":" + ("user:" + who.name) == prefix + ":user:" + who.name;
    } else {
      if p.forwardedFor != None && p.forwardedFor != Some("") {
        var address := HeaderNames(p.forwardedFor.value);
        who := At(address);
      } else {
        who := At(if p.host == None then "unknown" else p.host.value);
      }
      forall w | CountsAs(p, w) ensures Key(prefix, ClientIdentity(p)) == KeyText(prefix, w) {
        if p.forwardedFor != None && p.forwardedFor != Some("") {
          ForwardedAddress(p, p.forwardedFor.value, w.address);
        }
        assert Address(p) == w.address;
        assert prefix + ":" + ("ip:" + w.address) == prefix + ":ip:" + w.address;
      }
    }
  }

  lemma {:induction false} TextsDiffer(prefix: string, a: Who, b: Who)
    ensures KeyText(prefix, a) == KeyText(prefix, b) <==> a == b
  {
    var n, x, y := |prefix|, KeyText(prefix, a), KeyText(prefix, b);
    assert x[n + 1] == if a.User? then 'u' else 'i';
    assert y[n + 1] == if b.User? then 'u' else 'i';
    assert if a.User? then x[n + 6..] == a.name else x[n + 4..] == a.address;
    assert if b.User? then y[n + 6..] == b.name else y[n + 4..] == b.address;
  }

  /** Two requests share a counter exactly when they count as the same user, or both come without one
      from the same address; clients that connect directly, exactly when their hosts are equal. */
  lemma {:induction false} IdentitiesAreFaithful(prefix: string, p: Peer, q: Peer, a: Who, b: Who)
    requires CountsAs(p, a) && CountsAs(q, b)
    ensures Key(prefix, ClientIdentity(p)) == Key(prefix, ClientIdentity(q)) <==> a == b
  {
    var w := KeysTell(prefix, p);
    var v := KeysTell(prefix, q);
    TextsDiffer(prefix, a, b);
  }

  lemma {:induction false} DirectClients(prefix: string, p: Peer, q: Peer, host: string, host': string)
    requires p == Peer(None, None, Some(host)) && q == Peer(None, None, Some(host'))
    ensures Key(prefix, ClientIdentity(p)) == prefix + ":ip:" + host
    ensures Key(prefix, ClientIdentity(p)) == Key(prefix, ClientIdentity(q)) <==> host == host'
  {
    var w := KeysTell(prefix, p);
    assert CountsAs(p, At(host)) && CountsAs(q, At(host'));
    IdentitiesAreFaithful(prefix, p, q, At(host), At(host'));
  }
}
