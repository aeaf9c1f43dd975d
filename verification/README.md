# FastAPI service: limiter, concurrency, users and tokens, verified

A Dafny model of the four parts of the service that keep real state, with proofs about whole
runs rather than single calls. `dafny verify dfyconfig.toml` checks everything.

| file | part of the service |
|---|---|
| `RateLimit.dfy`, `RateLimitTheorems.dfy` | the Redis sliding-window limiter: `dispatch` as a class over a store of sorted sets with deadlines, and what it promises over every trace of requests |
| `Permits.dfy`, `Liveness.dfy`, `Programs.dfy`, `Scopes.dfy` | all counting semaphores and database locks at once, any number of tasks, failures, cancellations and lost permits; and that a UnitOfWork loses its permit there exactly as its statements in `Session.dfy` do |
| `Simulation.dfy` | that every run of `Users.dfy` is one of `Permits.dfy`, each call following its program in `Programs.dfy` |
| `Executor.dfy` | `run_cpu_bound`: permits, callers and worker threads |
| `Gather.dfy` | `gather_with_concurrency` and `bounded_map` under every scheduler |
| `Supervisor.dfy` | the background task supervisor and its close |
| `Session.dfy`, `UserService.dfy` | `Database.session`, `UnitOfWork` and `UserService` statement by statement, each await free to fail |
| `Users.dfy`, `UsersTheorems.dfy`, `UsersLogins.dfy`, `UsersAlone.dfy` | the same calls interleaved at every await over one table; and that a call running alone does what its method in `UserService.dfy` does |
| `Tokens.dfy` | JWT creation and decoding, login, refresh chains |
| `Accounts.dfy` | the chains of `Tokens.dfy` against the table of `Users.dfy`: what a chain is worth after its account was changed or deleted |
| `Counting.dfy`, `Wrappers.dfy` | cardinalities of finite sets; `Option` |

## How the parts are modelled

**Limiter.** A request carries its key, the caller's clock, Redis's clock, an object id and the fate
of the round trip (answered, applied but answer lost, never applied). Runs are arbitrary sequences of
requests of any keys. What is assumed of the environment is named where it is needed, and only about
recorded attempts on the same key: `DistinctMembers` (no two share the string `<now_ms>-<id>`),
`SkewAtMost(d)` (a clock reading trails earlier ones by at most d ms), and `Clocks(d)`, which adds that
two attempts between which the key expired on Redis's clock are a window less d apart for the callers
as well. `ClocksFromOffset` shows that clocks within d of a Redis clock that never goes back, up to a
constant, meet it. A key expires once Redis's clock is past its deadline; Redis evicts nothing.

**Permits.** A coroutine is the list of permits it holds and the acquires and releases it still means
to do. A step advances one task, unwinds it (exception, cancellation from the request timeout, early
return), or fails in one of the two places of a UnitOfWork where no release follows: inside `__aenter__`
after the acquire, and in `close()`. Service calls are programs of this kind, alone or as awaitables of any
number of simultaneous gathers; row locks and unique-key locks of the database are semaphores too, so
the deadlock theorem covers waiting inside the database as well as outside. Critical sections end:
work between two permit operations is not a step of its own.

**Gather.** A child waits, runs, or has been asked to stop: then it has either been refused its permit or
is cleaning up and still holding it, free to end as cancelled, with an error, or with a value after all.
Without `return_exceptions` the call is over at the first child to fail or settle as cancelled,
otherwise when all have settled; whatever is in flight then goes on by itself.

**Users.** Each call of `register`, `update`, `delete` and `authenticate` moves from await to await, and
may raise at any of them. A transaction buffers one write, waits at flush for conflicting
uncommitted writes (READ COMMITTED with row locks and a unique index on email), and applies it at
commit. A commit may also be applied and still raise, because its answer was lost or `close()`
failed. SQLAlchemy's UPDATE names only the columns with a net change, raises when its row is gone, and
its DELETE does not. Hashes are ideal: parameters, salt and password. `UserService.dfy` has the same code as
methods over `Database` and `UnitOfWork` objects, one call at a time, with the whole result stated
for every combination of failures. Ids and salts come from outside.

**Tokens.** A signed token is its claims together with secret and algorithm. Verification follows PyJWT 2.13 with
the options the code passes; expiry is as in section 4.1.4 of RFC 7519, with times in whole seconds.

## Where the code differs from its own description

- `src/app/middleware/timeout.py:6-8` and `src/app/db/session.py:125-129` promise that permits and
  sessions come back on cancellation. `UnitOfWork` acquires by hand: an exception or cancellation in
  `__aenter__` after the acquire, or out of `close()` in `__aexit__`, loses the permit for good.
  `Conservation` counts exactly these losses, `LeakedPoolStrands` and `OneLeakDeadlocks` show what they lead to.
- `src/app/middleware/rate_limit.py:1-16` describes a sliding window shared by all replicas. The key's
  expiry runs on Redis's clock and the prune on the callers': even when neither ever goes back the count
  is that of the window exactly when no key expires before its last attempt is a window old for the
  callers (`SlidingWindowRefinement`); a millisecond between reading the clock and the transaction can be
  enough (`ExpiryCanMiscount`). Under `Clocks(d)` the limit holds over intervals of a window less
  d and over no longer ones (`SafeSpanIsExact`), so over the full window exactly when d is 0
  (`FullWindowSafeIffNoSkew`). Without any expiry the bound is the same, except that a limit of 1 is safe over
  the full window under any skew (`SkewAloneIsExact`).
- `src/app/core/concurrency.py:192-193` relies on there being as many permits as workers. A permit stands
  for a live job exactly until a caller is cancelled while its job runs, since the thread runs on without
  one (`LoadWithoutOrphans`). The pool then carries up to twice the limit, with at most the limit queued, and
  never more (`LoadUnderCancellation`, `FactorTwoIsReached`).
- `src/app/middleware/timeout.py:6-8` again, for a gather: without `return_exceptions` a cancelled
  `gather_with_concurrency` can be over while children are still cleaning up with their permits. All are sure
  to be back by then exactly with `return_exceptions` or at most one awaitable (`CancellationIsExact`); the
  others bring theirs back later (`LeftBehind`).
- `src/app/core/concurrency.py:163` says that `aclose` waits up to `grace_seconds`. Its `wait_for` cancels the
  gather at the deadline and then waits until every child has settled, so it returns with nothing held
  (`AfterClose`), but in time exactly when every cancelled task has settled by the deadline (`GraceIsExact`,
  `GraceCanPass`).
- A login is decided by the row it read first: an account disabled before the login returns can still be
  logged in to (`LoginFollowsItsRead`, `DisabledTooLate`).
- An `update` that sets a field to the value it has just read sends nothing for it, so a concurrent
  update can win although both return (`LostNoOpUpdate`; `UpdateEffect` has the exact condition).
- A call that raises may still have committed, when the commit's answer is lost or `close()` raises
  after it: only a raise out of the body is guaranteed to leave no trace (`Atomicity`, `InUnitOfWork`).
- `extra_claims` may override `typ`: a created token passes for the other type exactly when they do so
  with that type's name (`OverridingClaimsCanMixTypes`); no caller in the repository passes any.
- `refresh` never reads the users table, so the chain of a deleted or disabled account goes on; its access
  tokens are refused all the same (`ChainOutlivesAccount`, `DeletedIsLockedOut`, `OpensOwnAccountOnly`).
- `src/app/api/deps.py:103-104` stores the user id for the limiter, but the limiter has read
  `request.state` before the dependency runs; the model takes that attribute as an input.

## Model

| member | source | states |
|---|---|---|
| RateLimitTheorems.TransactionEffect | src/app/middleware/rate_limit.py:65-70 | a transaction counts the request and every member that had neither expired nor fallen to the inclusive cutoff, and leaves just those for one more window, whether its answer arrives or not; one never applied leaves the store alone; no other key is touched |
| RateLimit.RateLimitMiddleware.Dispatch | src/app/middleware/rate_limit.py:54-89 | whatever the fate of the round trip, the verdict is the one the full attempt history gives, the store stays the run of that history, and no other key changes |
| RateLimitTheorems.WindowCount | src/app/middleware/rate_limit.py:61-70 | with clocks off by up to d, the pruned, expiring set counts at least the attempts of the window less d and at most those of the whole window |
| RateLimitTheorems.CountAtMost | src/app/middleware/rate_limit.py:65-70 | under any clocks nothing is counted that the window over the full history does not hold |
| RateLimitTheorems.SlidingWindowRefinement | src/app/middleware/rate_limit.py:1-16 | with clock readings that never go back, every count is the number of recorded attempts, admitted or denied, in (now - W, now] of the full history, if and only if no key expires on Redis's clock between two consecutive attempts less than a window apart for the callers |
| RateLimitTheorems.ExpiryCanMiscount | src/app/middleware/rate_limit.py:66-69 | a run in which neither clock goes back, yet the last of three requests is counted as one and all pass under a limit of two |
| RateLimitTheorems.ExpiryIsInvisible | src/app/middleware/rate_limit.py:66-69 | with readings that never go back, what expiry drops the inclusive prune of the same transaction would drop anyway, at every step, if and only if the same condition holds |
| RateLimitTheorems.SkewSafety | src/app/middleware/rate_limit.py:61-76 | in every run, over any interval of length at most W - d, at most `limit` requests of a client are admitted; what passes exceeds the admitted by exactly the fail-opens |
| RateLimitTheorems.ClocksFromOffset | src/app/middleware/rate_limit.py:61 | replicas whose clocks are within d of a common one satisfy the clock hypothesis |
| RateLimitTheorems.SafeSpanIsExact | src/app/middleware/rate_limit.py:61-76 | for every limit, window and skew d: all runs admit at most `limit` in every interval of a given length if and only if the length is at most W - d |
| RateLimitTheorems.FullWindowSafeIffNoSkew | src/app/middleware/rate_limit.py:61-76 | the full window is safe in all runs if and only if d is 0 |
| RateLimitTheorems.SkewAloneIsExact | src/app/middleware/rate_limit.py:61-76 | if no key ever expires, all runs admit at most `limit` in every interval of a given length if and only if the length is at most W - d, or W for a limit of one |
| RateLimitTheorems.CountGrowth | src/app/middleware/rate_limit.py:65-70 | under any clocks a later count exceeds an earlier one by at most the attempts made since |
| RateLimitTheorems.AnsweredCount | src/app/middleware/rate_limit.py:71-88 | a request fails open exactly when no answer came; otherwise it is admitted, with limit less count remaining, or denied for a window, exactly by whether its count is within the limit |
| RateLimitTheorems.RemainingIsHonest | src/app/middleware/rate_limit.py:86-89 | under any clocks, after a response with r remaining the next r attempts on the key are admitted whenever they come, and the header falls by at most one for each |
| RateLimitTheorems.WholeSecondsSurviveTruncation | src/app/middleware/rate_limit.py:61-62 | the clock value is the time cut down to a millisecond, and that loses nothing over whole seconds of real time |
| RateLimitTheorems.RetryAfterIsHonest | src/app/middleware/rate_limit.py:76-84 | a denied client silent for Retry-After seconds of real time starts from a count of one, so is admitted exactly when the limit is at least one, provided no earlier attempt of its own read a later clock than the denied one; Redis's clock does not matter |
| RateLimitTheorems.Conservative | src/app/middleware/rate_limit.py:66-76 | on the same arrivals, under any clocks, a limiter that records admitted requests only admits whatever this one admits, with at least as much remaining |
| RateLimitTheorems.Isolation | src/app/middleware/rate_limit.py:59-70 | in a merged trace a key's stored set and all its verdicts are those of its own requests alone |
| RateLimitTheorems.KeysTell | src/app/middleware/rate_limit.py:59-60 | every request counts as a signed-in user or as an address, by its attributes alone, and its key is the prefix with `user:` or `ip:` and that |
| RateLimitTheorems.IdentitiesAreFaithful | src/app/middleware/rate_limit.py:92-104 | two requests share a key exactly when they count as the same user, or both as nobody at the same address |
| RateLimitTheorems.DirectClients | src/app/middleware/rate_limit.py:104 | clients without user or header are counted under their host, and share a key exactly when their hosts are equal |
| RateLimitTheorems.ForwardedAddress | src/app/middleware/rate_limit.py:98-102 | a forwarded request counts under the first entry of the header without the blanks around it, however many hops follow |
| Permits.Conservation | src/app/db/session.py:114-176 | in every reachable state free + held permits + leaking steps so far is the limit of each semaphore |
| Permits.LostIsLeaked | src/app/db/session.py:151-176 | the lost count grows exactly with the failed entries and failed closes |
| Scopes.FateIsARun | src/app/db/session.py:151-176 | whatever a task holds before a scope, does in it and after it: every fate of the awaits has a run that moves the pools as the statements do, one permit lost exactly when `Session.Leaks` holds |
| Scopes.RunIsAFate | src/app/db/session.py:151-176 | every run, with any steps of other tasks in between, takes the task through the scope on the course of some fate, and loses the scope's permit exactly when `Session.Leaks` holds of it |
| Permits.QuietPools | src/app/db/session.py:121-176 | when nothing is active all permits are back but the leaked ones, however the tasks ended |
| Permits.BoundsHold | src/app/core/concurrency.py:81-93 | local and global bounds hold together in every state, and no task holds two permits of one rank, so never a database and a CPU permit |
| Liveness.Progress | src/app/core/concurrency.py:89-93 | with ascending nesting and no pool leaked away, some unfinished task can always move without cancelling anyone |
| Liveness.Terminates | src/app/core/concurrency.py:74-101 | every step of every kind uses up work: runs are no longer than their programs |
| Liveness.LeakedPoolStrands | src/app/db/session.py:151-157 | once a pool has leaked away, a task waiting for it stays where it is for the rest of the run unless it is unwound |
| Liveness.OneLeakDeadlocks | src/app/db/session.py:151-157 | a two-step run, one failed entry, after which another call waits and nothing can move |
| Programs.ProgramsFit | src/app/services/user_service.py:64-131 | every service call takes permits and locks in ascending rank and gives them all back |
| Programs.ProgramsTake | src/app/services/user_service.py:40-131 | which permits and locks each call takes, and in which order |
| Programs.OnePermitCalls | src/app/services/user_service.py:41-46 | a read, a CPU job and an outbound request take their one permit around all they do |
| Programs.GatheredAround | src/app/core/concurrency.py:91-93 | inside a gather a call takes the gather-local permit around all the others |
| Programs.JobsAreDisciplined | src/app/core/concurrency.py:81-93 | so does every service call run as an awaitable of any bounded gather |
| Programs.ServiceNeverDeadlocks | src/app/services/user_service.py:40-131 | any number of calls, in any number of gathers, under any scheduling, failures and cancellations without a leak: all finished with every pool full, or one can move; and runs are bounded |
| Executor.LoadUnderCancellation | src/app/core/concurrency.py:183-198 | with cancellations: at most n threads busy, every queued live job has a permit holder, at most 2n live jobs, permits add up |
| Executor.DrainsCompletely | src/app/core/concurrency.py:195-198 | a run that can only go on by cancelling someone has no caller waiting, no job live and every permit back |
| Executor.Terminates | src/app/core/concurrency.py:195-198 | every step uses up work, so each run reaches that point |
| Executor.PermitsTrackJobs | src/app/core/concurrency.py:192-198 | along any run every live job has a permit holder in every state if and only if no caller is cancelled while its job runs |
| Executor.LoadWithoutOrphans | src/app/core/concurrency.py:192-198 | in such runs at most n jobs are live and every submitted job finds an idle worker |
| Executor.LoadWithoutCancellation | src/app/core/concurrency.py:192-198 | in particular when nobody is cancelled |
| Executor.FactorTwoIsReached | src/app/core/concurrency.py:195-198 | for every n a run that reaches 2n live jobs with n of them queued |
| Gather.Bounded | src/app/core/concurrency.py:89-101 | in every interleaving at most `limit` awaitables are in flight, and all permits are back once all have settled |
| Gather.EnteredAtMostOnce | src/app/core/concurrency.py:91-93 | no run enters an awaitable twice |
| Gather.NeverStuckEarly | src/app/core/concurrency.py:89-93 | a run that cannot go on has settled every awaitable |
| Gather.OrderPreserved | src/app/core/concurrency.py:98-101 | every maximal run without cancellation gives result i from input i, whatever the completion order |
| Gather.CollectIsInput | src/app/core/concurrency.py:98-101 | the results assembled by position from any complete log are the inputs' outcomes |
| Gather.Terminates | src/app/core/concurrency.py:91-101 | no run, cancellations included, has more steps than the awaitables' states allow |
| Gather.LeftBehind | src/app/core/concurrency.py:91-93 | from whatever state a call ends in, every continuation that cannot go on has settled all children and brought every permit back |
| Gather.CallEnds | src/app/core/concurrency.py:98-101 | at the end of any call, cancelled or not, the permits missing are those of the children in flight; all are back and settled if and only if the last completion was everyone's |
| Gather.CancellationIsExact | src/app/core/concurrency.py:98-101 | a cancelled call is sure to have every permit back if and only if it has return_exceptions or at most one awaitable |
| Gather.EndsWhileCleaningUp | src/app/core/concurrency.py:91-101 | a three-step run of two or more awaitables: one runs, the call is cancelled, another is refused its permit, and the call is over with the first still holding its own |
| Gather.RaisesCleanupError | src/app/core/concurrency.py:91-101 | a cancelled call that raises the first child's cleanup error instead of a CancelledError, with another still in flight |
| Gather.GatherWithConcurrency | src/app/core/concurrency.py:74-101 | every call is a whole run of the machine; it refuses exactly the non-positive limits; with no failure or with return_exceptions the list is the inputs' outcomes in order; otherwise it raises the first failure or cancellation to settle; with return_exceptions a cancelled call raises a CancelledError with everything settled and every permit back |
| Gather.BoundedMap | src/app/core/concurrency.py:104-116 | uncancelled, gives a list exactly when a plain loop over the items would, and the same one; otherwise the first failure to complete, which is the loop's when items complete in order; with return_exceptions or one item every permit is back at the end, cancelled or not |
| Gather.SequentialRunRaises | src/app/core/concurrency.py:104-116 | the loop raises the first failing item's error |
| Gather.SequentialMapAt | src/app/core/concurrency.py:104-116 | entry i of the sequential map is the function on item i |
| Supervisor.TracksExactly | src/app/core/concurrency.py:132-160 | in every run the supervisor holds exactly the tasks whose callback has not run, and the log names each failed one once and no other |
| Supervisor.EveryEndIsReported | src/app/core/concurrency.py:150-160 | however a task ends its callback can run, after which it is no longer held and is logged exactly if it failed |
| Supervisor.OnlyShrinks | src/app/core/concurrency.py:162-172 | from the close on no task joins; the tasks stay inside the list that was cancelled |
| Supervisor.AfterClose | src/app/core/concurrency.py:162-177 | when aclose has returned nothing is held: every task it cancelled has settled and its callback has run, within the grace period or not |
| Supervisor.GraceIsExact | src/app/core/concurrency.py:163-177 | once the grace period is over aclose returns without a further task settling if and only if every cancelled task had settled by then; those that had not are asked again |
| Supervisor.UnsettledHoldsBack | src/app/core/concurrency.py:173-177 | a cancelled task that does not settle keeps aclose waiting, for as long as it takes |
| Supervisor.GraceCanPass | src/app/core/concurrency.py:173-177 | a run in which the grace period passes and aclose goes on waiting |
| Supervisor.DrainCanFinish | src/app/core/concurrency.py:173-177 | while draining, gather can return or some cancelled task or callback can go on |
| Supervisor.BackgroundTaskSupervisor.Spawn | src/app/core/concurrency.py:135-148 | refused exactly when closed; otherwise the new task joins and nothing else changes |
| Supervisor.BackgroundTaskSupervisor.OnDone | src/app/core/concurrency.py:150-160 | the task leaves and is logged exactly if it failed |
| Supervisor.BackgroundTaskSupervisor.BeginClose | src/app/core/concurrency.py:162-171 | the loop asks exactly the held tasks to cancel, and the object is closed |
| Session.Database.ReadScope | src/app/db/session.py:114-122 | however the scope ends the permit count is what it was |
| Session.UnitOfWork.Aenter | src/app/db/session.py:151-157 | which failures leave the permit taken and which do not |
| Session.UnitOfWork.Aexit | src/app/db/session.py:159-176 | commit, rollback and close: the table, the permit and the outcome for every combination of failures |
| Session.InUnitOfWork | src/app/db/session.py:125-176 | for every body and every failure: the table changes by all the writes or none, a raising body changes nothing, and the permit is lost exactly when `Leaks` says |
| Session.AppliesInOrder | src/app/db/session.py:125-137 | the writes of a transaction apply one after the other |
| UserServices.RunCpuBound | src/app/core/concurrency.py:195-198 | the permit is back whether the job is awaited to its end or not |
| UserServices.SelectByEmail | src/app/repositories/user_repository.py:27-29 | finds a row whose stored address is in lower case and has the letters looked up, in any case, if and only if there is one |
| UserServices.SetAttributes | src/app/services/user_service.py:95-97 | the loop leaves the attributes that `Assigned` gives |
| UserServices.AssignmentsAreNetChanges | src/app/services/user_service.py:95-98 | assigning every dumped field gives the row that sending only net changes gives, which is the row asked for; refused exactly for an explicit null of is_active |
| UserServices.UserService.Register | src/app/services/user_service.py:64-88 | success, conflict and the table for every failure at every await; the permits taken are back unless the UnitOfWork leaks |
| UserServices.UserService.Update | src/app/services/user_service.py:90-99 | the stored row becomes the one asked for exactly when the call reaches its commit; NotFound exactly when the row is missing |
| UserServices.UserService.Delete | src/app/services/user_service.py:101-106 | the row and no other is gone exactly when the call reaches its commit |
| UserServices.UserService.Authenticate | src/app/services/user_service.py:109-131 | returns exactly for an active account with the right password, writes only when the hash is outdated, and then only a hash of the same password |
| UserServices.UserService.RehashStored | src/app/services/user_service.py:124-130 | replaces the stored hash and nothing else |
| UserServices.UserService.StoreHash | src/app/services/user_service.py:126-130 | does nothing when the row is gone |
| UsersTheorems.StepSafe | src/app/services/user_service.py:64-131 | every step of every interleaving keeps the table sound, what each call has established, and uncommitted writes apart |
| UsersTheorems.PasswordsSurvive | src/app/services/user_service.py:109-131 | in every reachable state each stored hash verifies exactly the password its user registered with, and its address is the registered one |
| Users.LowerForgetsCase | src/app/services/user_service.py:73 | lower-casing makes two addresses equal exactly when they differ at most in the case of A to Z, and leaves no capital |
| UsersTheorems.EmailsStayUnique | src/app/repositories/user_repository.py:27-29 | in every reachable state addresses have no capitals and differ in more than letter case, and a lookup in any letter case finds exactly its user, or nothing when nobody has the address |
| UsersTheorems.Atomicity | src/app/services/user_service.py:75-106 | the committed table is always a replay of whole writes, one per committed call; a raise before the commit is not among them, a normal return is, once |
| UsersTheorems.RegisterEffect | src/app/services/user_service.py:79-88 | a commit adds one row with a new id, the lower-cased address and a hash of the password, and changes no other |
| UsersAlone.RegisterStepsExactly | src/app/services/user_service.py:76-86 | a registration passes its check exactly when no row has the address in any letter case at that moment, and is flushed, as the row asked for, exactly when none has at the flush |
| UsersAlone.RegistrationFollowsItsChecks | src/app/services/user_service.py:75-88 | in every run a registration past its check found the address free at its lookup, and one flushed, returned or committed found it free again at its flush |
| UsersAlone.FetchExactly | src/app/services/user_service.py:90-106 | an update or delete loads its row exactly when it is there |
| UsersAlone.UpdateFlushExactly | src/app/services/user_service.py:95-98 | refused for a null is_active; silent if nothing changes; an error if the row went meanwhile; otherwise a write that makes the row as asked |
| UsersAlone.DeleteFlushExactly | src/app/repositories/user_repository.py:57-59 | erases the row if it is still there and does not fail if it is not |
| UsersAlone.RehashExactly | src/app/services/user_service.py:126-130 | nothing if the refetched row is gone, an error if it goes before the flush, else the hash alone is sent |
| UsersAlone.AnyAwaitMayFail | src/app/db/session.py:159-176 | every unfinished call may raise and leave the table alone, and a commit may be applied and still raise |
| UsersAlone.AloneEndsAsContracted | src/app/services/user_service.py:64-131 | a call that runs by itself ends as the contract of its method says: exactly which calls return and which are refused, and the whole table |
| UsersAlone.AloneFinishes | src/app/services/user_service.py:64-131 | and with no open transaction beside it there is such a run to its end |
| UsersTheorems.DeleteEffect | src/app/services/user_service.py:101-106 | a commit removes exactly that row, also when it was already gone |
| UsersTheorems.RehashEffect | src/app/services/user_service.py:124-130 | a commit of a login changes at most a hash, into another of the same password |
| UsersTheorems.UpdateEffect | src/app/services/user_service.py:90-99 | after the commit a requested field is as asked if and only if the request changed the value it had loaded or the stored value is still that one; all else is untouched |
| UsersTheorems.LostNoOpUpdate | src/app/services/user_service.py:95-99 | a run of two updates where one returns and its field is not as asked |
| Simulation.ServiceRunsAsPermits | src/app/services/user_service.py:64-131 | every interleaving of the service over the table is a leak-free run of the semaphores, in which each call follows its program; wherever it ends each call holds what its phase says, and a write waits exactly for row and key locks of one |
| Simulation.StartsAtProgram | src/app/services/user_service.py:64-131 | a call about to start stands before the program `Programs.dfy` gives it |
| Simulation.LocksAreFree | src/app/db/session.py:159-176 | a flush that goes through finds every lock it takes held by no other uncommitted write |
| Simulation.BlockedExactly | src/app/db/session.py:159-176 | a flush is held up exactly while another uncommitted write has a row or address lock it needs |
| UsersTheorems.LocksNeverDeadlock | src/app/services/user_service.py:75-106 | while a call is unfinished some call can take its next step without failing |
| UsersTheorems.EveryRunEnds | src/app/services/user_service.py:64-131 | each step shortens what is left: at most seven steps a call |
| UsersLogins.LoginsLeaveCurrentHashes | src/app/services/user_service.py:109-131 | a login that returned a user gave the address and password that user was registered with; from then on in any company the row, while it lives, has them and a hash of today's parameters |
| UsersLogins.DisabledNeverLogIn | src/app/services/user_service.py:121-122 | while nobody active has an address, no login for it gets past the check or commits anything |
| UsersLogins.LoginFollowsItsRead | src/app/services/user_service.py:109-131 | a login gets past its check if and only if the row it read, as it was in the state of that read, was active and had its password; it returns or commits for that row only |
| UsersLogins.DisabledTooLate | src/app/services/user_service.py:110-122 | a run in which an account's disabling commits and returns and a login that had read before it returns after it |
| Tokens.RoundTrip | src/app/core/security.py:81-144 | decoding a created token gives back what went in, exactly from its second of issue until the setting's minutes (access) or days (refresh) later and for its own type; the error in every other case |
| Tokens.ClaimsOfCreated | src/app/core/security.py:96-110 | extra claims go in as they are and win over the code's own, which are otherwise all there |
| Tokens.DecodeIsExact | src/app/core/security.py:113-144 | for any token, whoever made it: the exact condition for acceptance, what the payload is, and exactly when it is refused as expired or of the wrong type |
| Tokens.TypesNeverMix | src/app/core/security.py:113-144 | no token, however made, is accepted as both types |
| Tokens.OverridingClaimsCanMixTypes | src/app/core/security.py:104-105 | a created token decodes as the other type if and only if an extra claim overrides `typ` with that type's name and the time is within its lifetime |
| Tokens.ChainSucceedsInTime | src/app/services/auth_service.py:16-48 | a chain of refreshes succeeds if and only if every call comes before its parent's expiry in whole seconds |
| Tokens.TokensReadBack | src/app/services/auth_service.py:16-48 | every pair of a chain decodes to the login's subject, with scopes only on the login's own access token |
| Tokens.OnlyRefreshTokensRotate | src/app/services/auth_service.py:31-36 | whatever is presented, success means a refresh token under our secret |
| Tokens.AccessTokensNeverRotate | src/app/services/auth_service.py:31-36 | no access token of any chain is ever rotated |
| Tokens.LifetimeBound | src/app/services/auth_service.py:37-48 | k rotations after a login at t0 the refresh token expires by t0 + (k+1)R and the access token by t0 + kR + A, for R the setting's days and A its minutes, plus the calls' own duration |
| Tokens.ExpiresInIsHonest | src/app/services/auth_service.py:29-48 | the reported expires_in is the access token's exp minus iat, on login and on every refresh |
| Accounts.OpensOwnAccountOnly | src/app/api/deps.py:92-105 | what an access token of a login's chain opens, at any time and on any table: the live, active row of the login's own id within its lifetime, nothing else |
| Accounts.RefreshTokensOpenNothing | src/app/api/deps.py:82-90 | no refresh token of a chain is ever taken for an access token |
| Accounts.AcceptsExactly | src/app/api/deps.py:72-105 | any token that is let in is an unexpired access token under our secret naming the live, active account it opens, and every such token that decodes is let in |
| Accounts.ChainSpeaksForItsLogin | src/app/services/auth_service.py:16-48 | after any interleaving, a token of a login's chain is accepted exactly within its lifetime and while that row is there and active, and the row is then of the address and password the login gave, even if the address was registered anew |
| Accounts.DeletionIsGone | src/app/services/user_service.py:101-106 | once a delete commits its account is gone |
| Accounts.DeletedIsLockedOut | src/app/api/deps.py:92-102 | a gone account never comes back: no token of its chains is accepted in any later state |
| Accounts.ChainOutlivesAccount | src/app/services/auth_service.py:31-48 | the next refresh of a chain issues for the same id if and only if it is in time, whatever became of the account |

## Left out

- RateLimitTheorems.SlidingWindowRefinement: is stated for a positive window; the default is 60 seconds. `CountAtMost`, `WindowCount` and `CountGrowth` hold for all.
- Gather.GatherWithConcurrency: a cancellation that reaches the caller between gather having its result and the caller being resumed replaces the result by a CancelledError; only cancellations before that are modelled, and a second one changes nothing the model sees.
- Simulation.ServiceRunsAsPermits: is stated for as many database permits as there are calls, since the table model does not count permits; calls waiting for a permit are the subject of `ServiceNeverDeadlocks`.
- Programs.ServiceNeverDeadlocks: excludes leaking steps, because with them it is false (`OneLeakDeadlocks`); `Progress` has the exact margin, one permit left in every pool.
- Programs.ServiceNeverDeadlocks: does not model a gather whose awaitables start gathers of their own and wait for them, nor a `with_semaphore` function called under the permit it takes.
- UserServices.UserService.Register: and its sister methods describe one call with no other in between; interleavings are the subject of `Users.dfy`.
- UserServices.UserService.Authenticate: assumes the table has distinct addresses, which `EmailsStayUnique` proves of every reachable table.
- `UserRepository.list_`, `UserService.list_` and `UserService.get`: reads without effect; pagination has no tie-break. Only the permit use of reads is modelled.
- Fairness of `asyncio.Semaphore`, and hence when a waiting task is resumed: progress is about runs, not delays.
- `Database.connect`, `disconnect` and `healthcheck`: set-up, tear-down and a probe that bypasses the semaphore; whether a sessionmaker exists is a field.
- `ConcurrencyLimits.aclose`, `with_semaphore`'s search for a limits object, and `timeout_after`.
- `created_at` and `updated_at`: set by the server and read by nothing modelled.
- Retries in the HTTP client: each attempt takes the HTTP permit on its own, as `Outbound` does.
- The body of `call_next`: it runs exactly when the verdict is not a denial, and its response only gains the headers.
- Two `aclose` calls at once: a second one may begin after the first has ended.
- Letter case and white space beyond ASCII and Latin-1 in addresses and headers.
- Collisions of random ids and of sorted-set members, Redis eviction, and a Redis clock that goes back: excluded by hypothesis.
- Strength of argon2 and HMAC, their timing, and the dummy hash verified on a miss: hash and signature are ideal.
- Time claims that are fractions or strings of digits, which PyJWT would convert.
- Claims that are dates beyond the range of `datetime`.
