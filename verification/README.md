# resilience-kit: a Dafny model

The stateful primitives of resilience-kit, and the places where two implementations of one contract have to
agree. `dafny verify dfyconfig.toml` checks the whole project.

Each component is modelled twice in its module. A class has the fields and the methods of the original, and a
pure function says what one atomic section (a locked section, one script run, one stretch between two awaits)
does to them; the methods are proved to do exactly that. Runs are sequences of such sections, any of them that is
not enabled changes nothing, so that a statement about every sequence of events is a statement about every run
and every interleaving.

- **Circuit breaker.** `MemoryBreaker.dfy` (the in-process machine, and `BreakerTypes`), `BreakerRuns.dfy` (calls
  in flight around it), `LuaBreaker.dfy` (the script on its hash with a deadline), `BreakerBisimulation.dfy` (the two
  side by side), `BreakerEquivalence.dfy` (what a caller can observe of their difference, and overlapping calls around
  both), `RedisBreaker.dfy` (the Redis breaker with its fallback), `RedisBreakerRuns.dfy` (calls, resets and looks in
  flight around it, while any command may fail), `RedisBreakerTimeouts.dfy` (how long it stays shut when it is open).
- **Retry.** `Retry.dfy` (which classes are retried, the attempt loop, the delays) and `Resilient.dfy` (the breaker
  around the retry loop, and the load on a dead upstream).
- **Throttle.** `SlidingLog.dfy` (the full log of admissions, the specification), `MemoryThrottle.dfy` (the deque),
  `SlidingLua.dfy` (the sorted set, its counter and EXPIRE), `ThrottleAgreement.dfy` (when deque and sorted set
  agree), `RedisThrottle.dfy` (both fail modes), `RedisThrottleRuns.dfy` (overlapping checks and outages),
  `FixedWindow.dfy` (two weighted buckets).
- **Fire and forget.** `FireAndForget.dfy` (module `Dispatch`: queue, worker, close), `DispatchRuns.dfy`
  (conservation, order, drain), `AuditDispatcher.dfy` (sanitise, retry, fall back), `AuditPrivacy.dfy` (the
  dispatcher with a redactor).
- **Cache, redactor, Luhn.** `Cache.dfy`, `Redactor.dfy`, `Luhn.dfy`.
- `Prelude.dfy` and `Exceptions.dfy` hold what all of them share.

Conventions. Clocks never go back, and the client and Redis read one clock. Times and delays are exact reals; the
fixed window counts whole microseconds, which is what Redis reports. A Redis key with a deadline is there before it
and gone after it; the parameter `keep` stands for either answer at the deadline itself, and every theorem holds for
both. A Redis command is answered, refused, or executed with its reply lost.

Where the code and its documentation part, the model follows the code:

- `FireAndForget.submit` documents `False` when an older event had to be dropped; under DROP_OLDEST the code returns
  `True`, and does not count the event it lets in as submitted (`Dispatch.FireAndForget.Submit`). So the events
  accepted are the submitted ones plus the displaced ones.
- `aclose` documents that pending events count as dropped after the timeout; the batch that the worker holds does
  not (`DispatchRuns.UncountedAfterShutdown`).
- The in-process throttle still denies a check at exactly `now + reset_after`; the next slot opens just after it
  (`MemoryThrottle.ResetAfterIsExact`).
- A denial by the sliding-window script reports the time until the newest admission has aged, while the next slot
  opens when the oldest has (`SlidingLua.DenialWaitsForNewest`).
- The two sliding windows differ for a check exactly one window after a retained admission, and only then; the script
  is given the whole seconds of a rate, so for other rates the two differ whenever an admission has an age in between
  (`ThrottleAgreement.ThrottlesAgreeExactly`).
- The two breakers can part when outcomes of overlapping calls arrive while the breaker is open, and when the hash
  expires. `BreakerEquivalence` says exactly when a caller can tell (`LateRecordingAlikeExactly`,
  `ExpiryAlikeExactly`), and has runs on which it shows (`LateFailureIsVisible`, `BreakerBisimulation.ExpiryIsVisible`).
- An open Redis breaker stays shut until its timeout while Redis answers. When Redis fails, it lets a call in before
  that exactly when the call finds the fallback not open (`RedisBreakerTimeouts.EarlyAdmissionExactly`).
- The fixed window admits at most `limit` in each bucket, but a window of the same width can hold twice the limit
  (`FixedWindow.TwiceTheLimitIsReached`).
- `audit.write_failed` counts a batch before the fallback is asked, and a shutdown timeout can cut a flush off at any
  of its awaits, so the metric can be ahead of what is written or lost by the one batch that the fallback holds
  (`AuditDispatcher.EveryEventAccounted`).

## Model

| member | source | states |
|---|---|---|
| MemoryBreaker.InMemoryAsyncBreaker.constructor | src/resilience_kit/circuit_breaker/memory_impl.py:58-72 | a new breaker is closed, with zero counters and no opening time |
| MemoryBreaker.InMemoryAsyncBreaker.MaybeHalfOpen | src/resilience_kit/circuit_breaker/memory_impl.py:164-175 | an open breaker whose timeout has passed becomes half-open with a zero success count; anything else stays |
| MemoryBreaker.InMemoryAsyncBreaker.Gate | src/resilience_kit/circuit_breaker/memory_impl.py:113-116 | a call is rejected exactly when the breaker is open |
| MemoryBreaker.InMemoryAsyncBreaker.RecordFailure | src/resilience_kit/circuit_breaker/memory_impl.py:177-186 | the whole state after a failure, in each state, a late one included |
| MemoryBreaker.InMemoryAsyncBreaker.RecordSuccess | src/resilience_kit/circuit_breaker/memory_impl.py:188-200 | the whole state after a success, in each state |
| MemoryBreaker.InMemoryAsyncBreaker.OpenLocked | src/resilience_kit/circuit_breaker/memory_impl.py:202-208 | opening clears both counters and notes the time |
| MemoryBreaker.InMemoryAsyncBreaker.Reset | src/resilience_kit/circuit_breaker/memory_impl.py:142-149 | a reset brings back the initial state |
| MemoryBreaker.InMemoryAsyncBreaker.Call | src/resilience_kit/circuit_breaker/memory_impl.py:112-130 | a call runs its sections in order, judges the outcome (cancelled and excluded ones uncounted), and hands it on |
| MemoryBreaker.InMemoryAsyncBreaker.State | src/resilience_kit/circuit_breaker/memory_impl.py:132-140 | looking at the state may half-open the breaker, and changes nothing else |
| BreakerTypes.JudgedExactly | src/resilience_kit/circuit_breaker/memory_impl.py:117-130 | a return is a success; an exception counts for nothing if and only if its class is or descends from CancelledError or an excluded class; any other is a failure |
| MemoryBreaker.CallRecordsExactly | src/resilience_kit/circuit_breaker/memory_impl.py:112-130 | a rejected or excused call leaves the breaker as it entered, a return leaves what a recorded success leaves, any other exception what a recorded failure leaves; an admitted call hands its own outcome on |
| BreakerRuns.CallIsRun | src/resilience_kit/circuit_breaker/memory_impl.py:112-130 | the method is a run in which nothing comes between: the same breaker and answer, and no call left in flight |
| BreakerRuns.NoAdmissionBeforeTimeout | src/resilience_kit/circuit_breaker/memory_impl.py:112-208 | under every interleaving of calls in flight, after an opening at t no gate admits before t + reset_timeout unless the breaker is reset, late outcomes included |
| BreakerRuns.CountersExactAlways | src/resilience_kit/circuit_breaker/memory_impl.py:164-208 | in every reachable concurrent state the counter of the current state is the length of the trailing run of recorded outcomes since that state began, below its threshold; while it is open the late failures since the last success count towards the next fail_max; and the opening time is unset exactly in CLOSED |
| BreakerRuns.LeavesExactlyAtThreshold | src/resilience_kit/circuit_breaker/memory_impl.py:142-208 | for every reachable state and event, if and only if: it opens at fail_max or on a half-open failure, closes at success_threshold or by reset, half-opens when the timeout has passed |
| LuaBreaker.BreakerHash.WriteState | src/resilience_kit/circuit_breaker/lua_scripts.py:38-41 | every write sets all fields and renews the deadline |
| LuaBreaker.BreakerHash.Eval | src/resilience_kit/circuit_breaker/lua_scripts.py:43-89 | the hash and the reply after each of the four actions, read from an expired, absent or present hash |
| LuaBreaker.TtlIsCeiling | src/resilience_kit/circuit_breaker/lua_scripts.py:27 | the time to live is the least whole number of seconds not below ten timeouts |
| LuaBreaker.WritesRenew | src/resilience_kit/circuit_breaker/lua_scripts.py:38-80 | every recorded outcome and every half-opening renews it; the hash is found until it is over and not after; no other question writes |
| LuaBreaker.NoAdmissionBeforeTimeout | src/resilience_kit/circuit_breaker/lua_scripts.py:27-85 | in every sequence of script runs, no `is_available` says yes before reset_timeout after a failure that left the hash open, expiry after ceil(10 * reset_timeout) included |
| BreakerBisimulation.HalfOpeningKeepsRelated | src/resilience_kit/circuit_breaker/lua_scripts.py:45-57 | from related states `is_available` and the in-process half-opening reach related states with one answer |
| BreakerBisimulation.RecordingKeepsRelated | src/resilience_kit/circuit_breaker/lua_scripts.py:59-85 | recording one outcome in both keeps them related, although the unused counters differ |
| BreakerBisimulation.Bisimilar | src/resilience_kit/circuit_breaker/lua_scripts.py:43-89 | from related states, every sequential run with the same clock and outcomes and no expiry gives the same answers and the same visible state after every step |
| BreakerBisimulation.BisimilarFromStart | src/resilience_kit/circuit_breaker/memory_impl.py:112-208 | the same from a fresh breaker and an absent hash |
| BreakerBisimulation.LateRecordingKeepsRelatedExactly | src/resilience_kit/circuit_breaker/memory_impl.py:177-200 | for an outcome that arrives while the breaker is open: the exact condition under which the fields in use still agree |
| BreakerBisimulation.ExpiryKeepsRelatedExactly | src/resilience_kit/circuit_breaker/lua_scripts.py:29-41 | at an expiry the fields in use still agree exactly when the in-process breaker is closed with no failures |
| BreakerBisimulation.ExpiryIsVisible | src/resilience_kit/circuit_breaker/lua_scripts.py:27-41 | a concrete run on which expiry makes the two differ |
| BreakerEquivalence.MemoryRunsAreSound | src/resilience_kit/circuit_breaker/memory_impl.py:164-208 | every reachable in-process state has its counters below their thresholds |
| BreakerEquivalence.HashRunsAreSound | src/resilience_kit/circuit_breaker/lua_scripts.py:43-89 | every reachable hash has its counters below their thresholds, and an open one lives at least its whole TTL after its last failure |
| BreakerEquivalence.RemainingIsExact | src/resilience_kit/circuit_breaker/lua_scripts.py:51-57 | after a rejection the next question is answered yes if and only if it comes no sooner than the remaining seconds of the reply |
| BreakerEquivalence.RecordRepliesState | src/resilience_kit/circuit_breaker/lua_scripts.py:59-89 | the reply to a record or a reset tells the state that a question at once would tell |
| BreakerEquivalence.FailuresTellApart | src/resilience_kit/circuit_breaker/memory_impl.py:177-186 | two closed breakers with different failure counts: a run of failing calls on which one opens before the other |
| BreakerEquivalence.SuccessesTellApart | src/resilience_kit/circuit_breaker/memory_impl.py:188-198 | two half-open breakers with different success counts: a run of successes on which one closes before the other |
| BreakerEquivalence.TimeTellsApart | src/resilience_kit/circuit_breaker/lua_scripts.py:45-49 | two breakers opened at different times: a look that finds only one of them half-open |
| BreakerEquivalence.RelatedExactlyWhenAlike | src/resilience_kit/circuit_breaker/lua_scripts.py:43-89 | two reachable states agree in the fields in use if and only if no sequential run that the hash outlives shows a caller any difference |
| BreakerEquivalence.LateRecordingAlikeExactly | src/resilience_kit/circuit_breaker/memory_impl.py:177-200 | a late outcome goes unseen by every later caller if and only if it is a failure that trips the in-process breaker anew or comes at the time of opening, or a success before the timeout |
| BreakerEquivalence.ExpiryAlikeExactly | src/resilience_kit/circuit_breaker/lua_scripts.py:29-41 | an expiry goes unseen by every later caller if and only if the in-process breaker is closed with no failures |
| BreakerEquivalence.OverlappingBisimilar | src/resilience_kit/circuit_breaker/memory_impl.py:112-208 | on every run of overlapping calls whose late outcomes are of that kind, without expiry, both breakers give the same admissions and the same visible state after every step |
| BreakerEquivalence.LateFailureIsVisible | src/resilience_kit/circuit_breaker/lua_scripts.py:72-80 | a run of overlapping calls after which one breaker admits a call that the other rejects |
| RedisBreaker.RedisAsyncBreaker.constructor | src/resilience_kit/circuit_breaker/redis_impl.py:80-96 | starts healthy, with a fresh fallback |
| RedisBreaker.RedisAsyncBreaker.Degrade | src/resilience_kit/circuit_breaker/redis_impl.py:268-285 | marking degraded is idempotent and keeps the first time |
| RedisBreaker.RedisAsyncBreaker.EvalOrDegrade | src/resilience_kit/circuit_breaker/redis_impl.py:257-266 | a failed command degrades the breaker, whether Redis executed it or not |
| RedisBreaker.RedisAsyncBreaker.Call | src/resilience_kit/circuit_breaker/redis_impl.py:121-146 | the whole state and the answer of a call, for every fate of its two commands |
| RedisBreaker.RedisAsyncBreaker.Reset | src/resilience_kit/circuit_breaker/redis_impl.py:163-170 | resets the fallback whatever becomes of the command |
| RedisBreaker.RedisAsyncBreaker.State | src/resilience_kit/circuit_breaker/redis_impl.py:148-161 | asks the script while healthy, and the fallback otherwise or when the script fails |
| RedisBreaker.CallRecordsExactly | src/resilience_kit/circuit_breaker/redis_impl.py:121-146 | both stores, both flags and the answer after a call, by the fates of its commands and what its function did: success and failure are recorded in the hash unless refused, excused exceptions never, and an unanswered first command makes it a call of the fallback |
| RedisBreaker.ResetExactly | src/resilience_kit/circuit_breaker/redis_impl.py:163-170 | a reset clears both stores, except a hash that Redis was not told to clear, and degrades exactly when unanswered |
| RedisBreaker.RedisAsyncBreaker.TryRecover | src/resilience_kit/circuit_breaker/redis_impl.py:192-210 | recovers exactly when degraded and answered |
| RedisBreakerRuns.AlwaysInOrder | src/resilience_kit/circuit_breaker/redis_impl.py:121-285 | in every interleaving of calls, resets and looks (each cut at its awaits), failures and recoveries, each store is the replay of its own log and each call's record matches what it did |
| RedisBreakerRuns.CallsRunAndCountOnce | src/resilience_kit/circuit_breaker/redis_impl.py:121-146 | each call awaits its function at most once, yields that outcome or a rejection without awaiting it, and is counted in at most one of hash and fallback, exactly once if countable and not refused |
| RedisBreakerRuns.HealthyExactlyWhenNotDegraded | src/resilience_kit/circuit_breaker/redis_impl.py:192-285 | healthy holds exactly when degraded_since is unset |
| RedisBreakerRuns.CallIsRun | src/resilience_kit/circuit_breaker/redis_impl.py:121-146 | the method is a run in which nothing comes between: the same stores, flags and answer |
| RedisBreakerRuns.ResetIsRun | src/resilience_kit/circuit_breaker/redis_impl.py:163-170 | so is a reset |
| RedisBreakerRuns.LookIsRun | src/resilience_kit/circuit_breaker/redis_impl.py:148-161 | so is a look at the state, which reports that of the store it asked |
| RedisBreakerRuns.HealthyCallIsLuaCall | src/resilience_kit/circuit_breaker/redis_impl.py:121-146 | while Redis answers, a call is the script run before it and the one that records it, as in the comparison of the two breakers |
| RedisBreaker.FallbackAdmitsWhileHashIsOpen | src/resilience_kit/circuit_breaker/redis_impl.py:121-133 | for every state in which the hash says no: the call is rejected if Redis answers, and otherwise admitted if and only if the fallback is not open |
| RedisBreaker.FreshFallbackAdmits | src/resilience_kit/circuit_breaker/redis_impl.py:95-129 | right after an opening in Redis the fallback still admits |
| RedisBreakerTimeouts.AdmittedExactly | src/resilience_kit/circuit_breaker/redis_impl.py:121-136 | in any state a call begins to await its function if and only if the script says yes to it or it finds the fallback not open at its gate |
| RedisBreakerTimeouts.EarlyAdmissionExactly | src/resilience_kit/circuit_breaker/redis_impl.py:121-146 | under every interleaving and every failure of Redis, after a recorded failure at t has left the hash open and until Redis executes a reset, a call is admitted before t + reset_timeout if and only if it finds the fallback not open |
| RedisBreakerTimeouts.FallbackShutBeforeTimeout | src/resilience_kit/circuit_breaker/redis_impl.py:121-129 | a fallback that has opened admits nothing before its own timeout unless it is reset |
| RedisBreakerTimeouts.BothShutBeforeTimeout | src/resilience_kit/circuit_breaker/redis_impl.py:121-146 | with both open, nothing is admitted before the earlier of the two timeouts |
| RedisBreakerTimeouts.ShutBeforeTimeoutWithoutOutage | src/resilience_kit/circuit_breaker/redis_impl.py:121-146 | while Redis answers, nothing is admitted before t + reset_timeout unless the breaker is reset |
| RedisBreakerTimeouts.OutageLetsCallIn | src/resilience_kit/circuit_breaker/redis_impl.py:125-129 | in any state, a call that the hash would reject gets in if and only if Redis fails it and the fallback is not open |
| Retry.FilterRetryOn | src/resilience_kit/retry/decorator.py:41-56 | keeps exactly the listed classes that are not `ServiceUnavailableError` or below it |
| Retry.RunExactly | src/resilience_kit/retry/decorator.py:115-168 | the number of attempts and the outcome are the only ones that fit: every attempt but the last fails retryably, the last ends the run |
| Retry.NeverRetriesUnavailable | src/resilience_kit/retry/decorator.py:126-130 | a `ServiceUnavailableError` ends the run at once and is what comes out, whatever classes are listed |
| Retry.ContinuesExactly | src/resilience_kit/retry/decorator.py:126-139 | an attempt is followed by another if and only if one is left and it raised an instance of a listed class, listed class and exception both being no ServiceUnavailableError |
| Retry.EndsExactly | src/resilience_kit/retry/decorator.py:162-168 | what comes out is what the last attempt did, or None if the attempts are used up and nothing is to be raised; no attempt at all only for max_attempts below one |
| Retry.AlwaysFailing | src/resilience_kit/retry/decorator.py:115-168 | a function that always fails retryably is awaited max_attempts times, then its exception is raised |
| Retry.Attempt | src/resilience_kit/retry/decorator.py:115-168 | the loop makes that run, sleeps once between attempts, and computes each delay from the one before |
| Retry.DelayWithin | src/resilience_kit/retry/backoff.py:25-71 | every delay of every run is within 0 and max_delay; decorrelated ones start at the base and at most triple; exponential ones never shrink |
| Retry.DelayExactly | src/resilience_kit/retry/backoff.py:43-71 | plain delays begin at the base and grow by the exponential base up to the cap; full jitter is the drawn part of that; decorrelated jitter the drawn mixture of the base and three times the delay before |
| Resilient.UpstreamPerAdmission | src/resilience_kit/decorators.py:107-129 | whatever the upstream does, invocations are at most admissions times max_attempts, within any time; exactly that if it is dead |
| Resilient.DeadBatch | src/resilience_kit/retry/decorator.py:115-168 | a retry batch of failures, each of any kind, makes max_attempts invocations and is one failure of the breaker |
| Resilient.StepIsRun | src/resilience_kit/decorators.py:107-129 | a call of the wrapped function is a call of the breaker around one whole run of the retry loop, recorded when it is over |
| Resilient.LoadOnDeadUpstream | src/resilience_kit/decorators.py:107-129 | on every sequential run from CLOSED on which every attempt of every call fails in some retryable, counted way, the calls admitted within T make at most max_attempts * (fail_max + floor(T / reset_timeout)) invocations |
| Resilient.LoadBoundReached | src/resilience_kit/decorators.py:107-129 | for every n a run that reaches the bound at T = n * reset_timeout |
| SlidingLog.WindowHoldsAtMostCount | src/resilience_kit/throttle/memory_impl.py:49-77 | every window of every run, wherever it starts, holds at most count admissions since the last reset, for both boundaries |
| SlidingLog.IntervalHoldsAtMost | src/resilience_kit/throttle/memory_impl.py:49-77 | every interval of length L holds at most count * (floor(L / w) + 1) admissions |
| SlidingLog.FindsAtMostCount | src/resilience_kit/throttle/memory_impl.py:55-56 | no check ever finds more than count admissions |
| MemoryThrottle.Prune | src/resilience_kit/throttle/memory_impl.py:52-54 | what is left begins at or after the cutoff |
| MemoryThrottle.InMemoryAsyncThrottle.Check | src/resilience_kit/throttle/memory_impl.py:49-77 | the loop prunes the deque of this key; the new deque, the whole decision, and every other key unchanged |
| MemoryThrottle.InMemoryAsyncThrottle.Reset | src/resilience_kit/throttle/memory_impl.py:79-86 | forgets this key and no other |
| MemoryThrottle.PruneIsLive | src/resilience_kit/throttle/memory_impl.py:52-54 | popping from the left of an ordered deque leaves exactly the entries not older than the cutoff |
| MemoryThrottle.DequeRefinesLog | src/resilience_kit/throttle/memory_impl.py:51-66 | on every run allowed and remaining are what counting the whole log would give |
| MemoryThrottle.DequeIsLiveLog | src/resilience_kit/throttle/memory_impl.py:51-58 | after every check of every run the deque is the log entries with ts >= now - w |
| MemoryThrottle.ResetAfterIsExact | src/resilience_kit/throttle/memory_impl.py:65-70 | after a denial, a check is admitted if and only if it comes strictly later than reset_after |
| MemoryThrottle.ResetAfterFreesSlot | src/resilience_kit/throttle/memory_impl.py:60-70 | after any check the next slot opens, nothing else coming, if and only if more than reset_after has passed |
| MemoryThrottle.DecisionWellStated | src/resilience_kit/throttle/memory_impl.py:71-77 | on every run limit, remaining, reset_after and reset_at agree with each other and with the rate |
| SlidingLua.SlidingWindow.Eval | src/resilience_kit/throttle/lua_scripts.py:36-58 | both keys with their deadlines and the reply after one run of the script |
| SlidingLua.SlidingWindow.Reset | src/resilience_kit/throttle/redis_impl.py:141-146 | deletes the sorted set and leaves the sequence counter |
| SlidingLua.RunTracks | src/resilience_kit/throttle/lua_scripts.py:42-58 | on every run the set holds exactly what still counts of the members added, its deadline is that of the newest, and the counter does not fall behind while a member lives |
| SlidingLua.AddNeverCollides | src/resilience_kit/throttle/lua_scripts.py:53-56 | ZADD never meets a live member, even after the counter restarted or the set was reset |
| SlidingLua.SetRefinesLog | src/resilience_kit/throttle/lua_scripts.py:42-58 | on every run, expiry on or off, answers and counts are those of counting the whole log |
| SlidingLua.WindowHoldsAtMostLimit | src/resilience_kit/throttle/lua_scripts.py:42-58 | no window (t - w, t] of any run holds more than limit admissions since the last reset |
| SlidingLua.ExpiryIsInvisible | src/resilience_kit/throttle/lua_scripts.py:53-56 | running with EXPIRE gives the answers and counts of running without it |
| SlidingLua.KeysLive | src/resilience_kit/throttle/lua_scripts.py:53-56 | both keys live for one window after an admission and are gone after it |
| SlidingLua.ResetKeepsNumbering | src/resilience_kit/throttle/redis_impl.py:141-146 | a reset empties the set and lets the numbering go on while the counter lives |
| SlidingLua.DenialWaitsForNewest | src/resilience_kit/throttle/lua_scripts.py:47-51 | when the next check after a denial is admitted, if and only if, and what the TTL in the reply measures instead |
| ThrottleAgreement.AnswersAgreeExactly | src/resilience_kit/throttle/redis_impl.py:96-106 | on one log the two answers look the same exactly when no admission is between the whole seconds and one window old |
| ThrottleAgreement.ThrottlesAgreeExactly | src/resilience_kit/throttle/redis_impl.py:96-106 | fed the same times, both throttles give the same allowed and remaining throughout a run if and only if no check finds a retained admission whose age is from int(per_seconds) to per_seconds |
| ThrottleAgreement.TouchesWholeSeconds | src/resilience_kit/throttle/redis_impl.py:216 | for a rate of whole seconds that is an admission exactly one window old |
| ThrottleAgreement.BoundaryIsVisible | src/resilience_kit/throttle/memory_impl.py:52-54 | a concrete run on which they differ |
| ThrottleAgreement.RedisDecisionWellStated | src/resilience_kit/throttle/redis_impl.py:96-106 | on every run the fields of the decision made of a reply agree with each other and with the rate |
| ThrottleAgreement.ResetAfterEmptiesWindow | src/resilience_kit/throttle/redis_impl.py:96-106 | after an admission the window is empty again, nothing else coming, if and only if reset_after has passed |
| RedisThrottle.RedisAsyncThrottle.Check | src/resilience_kit/throttle/redis_impl.py:87-106 | the whole state and the decision of a check, for every fate of the command and the probe |
| RedisThrottle.RedisAsyncThrottle.DegradedDecision | src/resilience_kit/throttle/redis_impl.py:123-133 | denies when failing closed, otherwise asks the fallback |
| RedisThrottle.RedisAsyncThrottle.MaybeProbe | src/resilience_kit/throttle/redis_impl.py:194-198 | probes only when the last probe is an interval old |
| RedisThrottle.RedisAsyncThrottle.TryRecover | src/resilience_kit/throttle/redis_impl.py:174-186 | recovers when degraded and answered |
| RedisThrottle.RedisAsyncThrottle.Degrade | src/resilience_kit/throttle/redis_impl.py:225-241 | idempotent, keeps the first time |
| RedisThrottle.RedisAsyncThrottle.Reset | src/resilience_kit/throttle/redis_impl.py:135-146 | clears the fallback whatever becomes of the command |
| RedisThrottle.CheckExactly | src/resilience_kit/throttle/redis_impl.py:87-133 | stores, flags, probe time and decision after a check by the fates of command and probe: it asks Redis when healthy or when a due probe is answered; what Redis does not answer is denied for the whole period when failing closed, and left to the fallback when failing open |
| RedisThrottle.ResetExactly | src/resilience_kit/throttle/redis_impl.py:141-146 | a reset clears both stores, except a set that Redis was not told to clear, and degrades exactly when unanswered |
| RedisThrottleRuns.CheckIsRun | src/resilience_kit/throttle/redis_impl.py:87-133 | the method is a run in which nothing comes between: the same stores, flags and answer |
| RedisThrottleRuns.ResetIsRun | src/resilience_kit/throttle/redis_impl.py:141-146 | so is a reset |
| RedisThrottleRuns.RunBacked | src/resilience_kit/throttle/redis_impl.py:87-146 | on every run of overlapping checks, resets and outages, each store follows its own log, and the admissions told to callers are backed by those of the stores |
| RedisThrottleRuns.OutagesAtMostDouble | src/resilience_kit/throttle/redis_impl.py:87-133 | however checks overlap and Redis fails and returns, no window sees more than count admissions failing closed, nor more than twice count failing open |
| RedisThrottleRuns.DoubleIsReached | src/resilience_kit/throttle/redis_impl.py:87-133 | for every rate, a run failing open on which one window sees exactly twice count |
| RedisThrottleRuns.HealthAndProbes | src/resilience_kit/throttle/redis_impl.py:168-198 | healthy and degraded_since never disagree, and two in-call probes are an interval apart |
| FixedWindow.FixedWindowKeys.Eval | src/resilience_kit/throttle/lua_scripts.py:65-90 | both counters with their deadlines and the reply after one run of the script |
| FixedWindow.KeysOf | src/resilience_kit/throttle/lua_scripts.py:71-75 | the keys computed by flooring name the bucket of now and the one before it |
| FixedWindow.ReplyIsExact | src/resilience_kit/throttle/lua_scripts.py:80-90 | on every run a check is admitted, by its reply and in the log, if and only if the weighted count of the admissions is below the limit; the count in the reply is that rounded up; the next bucket begins within the last of the seconds it gives |
| FixedWindow.CounterLives | src/resilience_kit/throttle/lua_scripts.py:87-88 | a counter reads as it is for two widths and as zero after that |
| FixedWindow.StillRead | src/resilience_kit/throttle/lua_scripts.py:77-88 | a counter that is read as current or previous is the number of admissions in its bucket: EXPIRE of two widths never drops it |
| FixedWindow.RunInOrder | src/resilience_kit/throttle/lua_scripts.py:87-88 | on every run every key counts its bucket and outlives the bucket after it |
| FixedWindow.ExpiryIsInvisible | src/resilience_kit/throttle/lua_scripts.py:77-88 | running with EXPIRE gives every reply that running without it gives |
| FixedWindow.BucketHoldsAtMostLimit | src/resilience_kit/throttle/lua_scripts.py:80-88 | no bucket of any run holds more than limit admissions |
| FixedWindow.EveryWindowIsBounded | src/resilience_kit/throttle/lua_scripts.py:71-88 | on every run a window of one width that ends at an admission at fraction p of its bucket holds fewer than limit * (1 + p) + 1 admissions |
| FixedWindow.NoWindowAboveTwiceLimit | src/resilience_kit/throttle/lua_scripts.py:71-88 | no window of one width, wherever it ends, holds more than twice the limit |
| FixedWindow.TwiceTheLimitIsReached | src/resilience_kit/throttle/lua_scripts.py:71-88 | for every limit below half the number of microseconds in a bucket, a run with a window of exactly one width that holds exactly twice the limit |
| Dispatch.FireAndForget.constructor | src/resilience_kit/dispatch/fire_and_forget.py:87-97 | nothing queued, not started, open |
| Dispatch.FireAndForget.Submit | src/resilience_kit/dispatch/fire_and_forget.py:120-133 | the whole state and the result: refused after close, accepted with room, the policy when full |
| Dispatch.FireAndForget.HandleOverflow | src/resilience_kit/dispatch/fire_and_forget.py:149-165 | one more dropped; the oldest makes room, or the newest is refused; the unfinished count stays |
| Dispatch.FireAndForget.TakeFirst | src/resilience_kit/dispatch/fire_and_forget.py:172-175 | the head of the queue begins a batch |
| Dispatch.FireAndForget.FillBatch | src/resilience_kit/dispatch/fire_and_forget.py:188-196 | the head joins the batch exactly while it is below batch_max, otherwise the flush begins |
| Dispatch.FireAndForget.FlushBatch | src/resilience_kit/dispatch/fire_and_forget.py:177-218 | one counter grows by the batch, and the loop marks every event of it done |
| Dispatch.FireAndForget.BeginClose | src/resilience_kit/dispatch/fire_and_forget.py:228-232 | closes once; waits only if the worker ever started |
| Dispatch.FireAndForget.EndClose | src/resilience_kit/dispatch/fire_and_forget.py:233-246 | the worker stops; a timeout counts what is queued as dropped and loses what is in hand |
| DispatchRuns.AlwaysConserved | src/resilience_kit/dispatch/fire_and_forget.py:104-246 | in every reachable state under both policies: submitted = flushed + flush_failed + queued + held, returned = submitted + dropped, unfinished = queued + held; the queue and every batch are within their bounds, no batch is empty |
| DispatchRuns.JoinsExactlyWhenNothingPends | src/resilience_kit/dispatch/fire_and_forget.py:233-235 | join completes if and only if nothing is queued and the worker is idle |
| DispatchRuns.UncountedAfterShutdown | src/resilience_kit/dispatch/fire_and_forget.py:236-246 | after a shutdown exactly the batch in hand is in no counter, at most max(1, batch_max) events; after a drain, none |
| DispatchRuns.AlwaysInOrder | src/resilience_kit/dispatch/fire_and_forget.py:149-196 | in every reachable state the flushed batches, the batch in hand and the queue, concatenated, are the accepted events in order minus exactly the displaced ones; none is displaced under DROP_NEWEST |
| DispatchRuns.DisplacesTheHead | src/resilience_kit/dispatch/fire_and_forget.py:156-164 | what DROP_OLDEST displaces is the event at the head of the queue, the oldest accepted one still queued |
| DispatchRuns.SubmitExactly | src/resilience_kit/dispatch/fire_and_forget.py:104-165 | on every run a submission is refused after close, queued while fewer than queue_size wait, and left to the policy only when the queue is full |
| DispatchRuns.BatchFills | src/resilience_kit/dispatch/fire_and_forget.py:184-196 | with enough events waiting a batch takes the first of them, one by one, up to batch_max and no further |
| DispatchRuns.WorkerNeverStuck | src/resilience_kit/dispatch/fire_and_forget.py:167-182 | while anything is unfinished the worker has a step to take |
| DispatchRuns.WorkerProgresses | src/resilience_kit/dispatch/fire_and_forget.py:167-218 | every step of the worker leaves it less to do |
| DispatchRuns.DrainDelivers | src/resilience_kit/dispatch/fire_and_forget.py:220-235 | every sequence of worker steps is bounded, and one that cannot go on has handed every accepted, undisplaced event to flush, in order, and lets join complete |
| AuditDispatcher.SanitizeAll | src/resilience_kit/audit/dispatch.py:131-140 | event by event, and an exception on any event is an exception for the batch |
| AuditDispatcher.SanitizedExactly | src/resilience_kit/audit/dispatch.py:131-140 | payload and details are sanitised each into its own place and all else is kept, event by event; the batch fails if and only if either part of some event does |
| AuditDispatcher.FireAndForgetDispatcher.Flush | src/resilience_kit/audit/dispatch.py:131-133 | raises exactly when the sanitiser does, and then calls no backend; otherwise writes the sanitised batch, or as much of it as comes before a cancellation |
| AuditDispatcher.FireAndForgetDispatcher.WriteWithRetry | src/resilience_kit/audit/dispatch.py:142-168 | the loop goes through the stretches between its awaits, whichever of them completes, fails or is cancelled, and ends where the cancellation finds it |
| AuditDispatcher.FireAndForgetDispatcher.FlushBatch | src/resilience_kit/dispatch/fire_and_forget.py:198-218 | the worker counts the batch as flushed exactly when the callback returns, and as nothing when it is cancelled |
| AuditDispatcher.FireAndForgetDispatcher.Submit | src/resilience_kit/audit/dispatch.py:123-125 | submits to the worker |
| AuditDispatcher.IsWorkerRun | src/resilience_kit/audit/dispatch.py:113-121 | an audit run is a run of the worker |
| AuditDispatcher.WriteIsRun | src/resilience_kit/audit/dispatch.py:142-168 | what the method does, cancelled or not, is a run of the steps below in which nothing else comes between |
| AuditDispatcher.AlwaysSettled | src/resilience_kit/audit/dispatch.py:131-168 | in every reachable state, inside a flush too: the settled batches are the sanitised images of the flushed ones, in order and each once; a flush fails exactly when the sanitiser raises; a flush under way or cut off is of the sanitised batch in hand |
| AuditDispatcher.LedgerAlwaysInOrder | src/resilience_kit/audit/dispatch.py:142-168 | in every reachable state every call of a backend is accounted for by a settled batch or the flush under way, and the metric by the batches that the primary failed three times |
| AuditDispatcher.EveryEventAccounted | src/resilience_kit/audit/dispatch.py:131-168 | in every reachable state submitted = written by primary + by fallback + lost + flush_failed + queued + held; write_failed = by fallback + lost + the batch held while the fallback is pending or was cut off |
| AuditDispatcher.FailuresCountedExactly | src/resilience_kit/audit/dispatch.py:142-168 | in any reachable state write_failed grows by the batch in hand, and the fallback is called with it, exactly with the third failure of the primary on it |
| AuditDispatcher.FatesExactly | src/resilience_kit/audit/dispatch.py:143-168 | a batch counts as written by the primary, written by the fallback, or lost exactly as the answers to their calls say |
| AuditDispatcher.RetriesUntilTaken | src/resilience_kit/audit/dispatch.py:143-166 | the primary is handed each batch until it takes it, three times at most, and the fallback exactly those it failed three times; these are all the calls there are, with those of a flush under way or cut off |
| AuditDispatcher.NothingAfterShutdown | src/resilience_kit/dispatch/fire_and_forget.py:236-246 | once the worker has stopped, at whichever await, no backend is called any more and nothing is counted |
| AuditDispatcher.OnlySanitisedReachesBackends | src/resilience_kit/audit/dispatch.py:131-140 | on every run, whatever holds of every sanitised payload holds of everything that either backend is handed, by finished, running and interrupted flushes alike |
| AuditPrivacy.NoSecretReachesBackend | src/resilience_kit/audit/dispatch.py:131-140 | with a redactor as sanitiser, no backend on any run is handed a payload with a matching key that is not redacted |
| AuditPrivacy.InvalidCardsStay | src/resilience_kit/audit/sanitizers.py:163-167 | the card rule leaves a text alone whose matches all fail the Luhn check |
| Cache.InMemoryAsyncCache.Get | src/resilience_kit/cache/memory_impl.py:51-59 | the value if fresh, otherwise None; an expired entry is removed, nothing else |
| Cache.InMemoryAsyncCache.Set | src/resilience_kit/cache/memory_impl.py:69-70 | the new entry and its expiry |
| Cache.InMemoryAsyncCache.Add | src/resilience_kit/cache/memory_impl.py:83-90 | creates exactly when there is no fresh entry |
| Cache.InMemoryAsyncCache.Incr | src/resilience_kit/cache/memory_impl.py:106-126 | the new value, or a type error that changes nothing |
| Cache.InMemoryAsyncCache.Delete | src/resilience_kit/cache/memory_impl.py:134-135 | removes the key if it is there |
| Cache.LazyEqualsEager | src/resilience_kit/cache/memory_impl.py:42-146 | for every sequence of operations and clock advances the lazy cache gives the answers of one that removes each entry the instant its expiry is reached, whose store is always the live part of the lazy one |
| Cache.IncrExpiry | src/resilience_kit/cache/memory_impl.py:106-126 | an increment keeps the expiry of a live key and restarts that of an expired one; when it can be read later, if and only if; all other keys stay |
| Cache.ReadBack | src/resilience_kit/cache/memory_impl.py:51-90 | what a read gives any time after a write, an add, a delete or a read of the same key, to the very moment of expiry |
| Cache.OthersUntouched | src/resilience_kit/cache/memory_impl.py:42-135 | an operation on one key makes no difference to a read of another |
| Luhn.DigitsOf | src/resilience_kit/audit/sanitizers.py:123 | raises exactly when some character passes isdigit and not int |
| Luhn.DigitInPlace | src/resilience_kit/audit/sanitizers.py:123 | the digits come out in the order of the text, each with its value |
| Luhn.LuhnOk | src/resilience_kit/audit/sanitizers.py:116-131 | the loop from the left with its parity decides the formula of Annex B of ISO/IEC 7812-1, counted from the right, for 13 to 19 digits of any alphabet |
| Luhn.TermIsDigitSum | src/resilience_kit/audit/sanitizers.py:128-130 | subtracting nine is adding up the digits of the doubled digit |
| Luhn.SeparatorsIgnored | src/resilience_kit/audit/sanitizers.py:123 | a character that is no digit can stand anywhere |
| Luhn.SingleErrorDetected | src/resilience_kit/audit/sanitizers.py:123-131 | changing any single digit of a valid number makes it invalid |
| Luhn.SwapDetected | src/resilience_kit/audit/sanitizers.py:123-131 | swapping neighbours of a valid number leaves it valid if and only if they are equal, or 0 and 9 |
| Luhn.TwinErrorDetected | src/resilience_kit/audit/sanitizers.py:123-131 | replacing a pair of equal digits by another leaves it valid if and only if they are 2 and 5, 3 and 6, or 4 and 7 |
| Luhn.ExactlyOneCheckDigit | src/resilience_kit/audit/sanitizers.py:123-131 | every prefix of 12 to 18 digits has exactly one valid check digit |
| Redactor.KeyMatchesExactly | src/resilience_kit/audit/sanitizers.py:111-113 | a key matches if and only if, in lower case, one of the field names stands somewhere in it |
| Redactor.ScrubText | src/resilience_kit/audit/sanitizers.py:219-230 | the loop applies the rules in order |
| Redactor.UnconfirmedStays | src/resilience_kit/audit/sanitizers.py:222-229 | a rule whose validator turns down every match changes nothing |
| Redactor.PieceMasked | src/resilience_kit/audit/sanitizers.py:222-229 | a match gives way to [REDACTED] if and only if there is no validator or it confirms it; everything between stays |
| Redactor.ScrubConcat | src/resilience_kit/audit/sanitizers.py:219-230 | each rule works on what the rules before it have left |
| Redactor.ScrubHidesMatch | src/resilience_kit/audit/sanitizers.py:219-230 | what scrubbing gives for a text in which some rule finds a confirmed match |
| Redactor.WalkValue | src/resilience_kit/audit/sanitizers.py:213-217 | the walk of the subclass, through the base class and back for every child |
| Redactor.BaseWalk | src/resilience_kit/audit/sanitizers.py:93-100 | the walk of the base class with dynamic dispatch |
| Redactor.WalkDict | src/resilience_kit/audit/sanitizers.py:102-109 | the loop over the items builds the redacted dict in order |
| Redactor.UncoveredPlace | src/resilience_kit/audit/sanitizers.py:93-109 | at every place under no matching key: kind, keys, order and length stay, a scalar stays, a string is its own scrub in the subclass and itself in the base class, and no place appears or disappears |
| Redactor.CoveredPlace | src/resilience_kit/audit/sanitizers.py:104-106 | at any depth the value of a matching key is REDACTED, and nothing below it is left |
| Redactor.WalkIsClean | src/resilience_kit/audit/sanitizers.py:102-113 | no matching key at any depth of the result holds anything but REDACTED |
| Redactor.UnchangedExactlyWhenClean | src/resilience_kit/audit/sanitizers.py:82-113 | the default class changes a payload if and only if a matching key holds something else than REDACTED |
| Redactor.DefaultIsIdempotent | src/resilience_kit/audit/sanitizers.py:82-113 | redacting twice is redacting once |
| Redactor.WalkKeepsWellFormed | src/resilience_kit/audit/sanitizers.py:102-109 | keys stay distinct |

## Left out

- Redis, asyncpg, httpx, prometheus, OpenTelemetry and Sentry: Redis is a hash, a sorted set and counters with deadlines, and a command that may fail; the other libraries are not part of this model.
- Rounding of floating-point numbers, the text of `str(now)` in member names, and millisecond granularity of deadlines.
- Clocks that go backwards, and client and server clocks that differ.
- Event-loop lock rebinding, several threads on one breaker, script loading and the NOSCRIPT retry: one locked section or script run is one atomic step.
- Sleeping itself: the retry loop's delays are computed and bounded, the audit writer's backoff is not modelled.
- The `get_stats` action of the breaker script and its reply to an unknown action; `constant_backoff`, which returns its argument.
- Metrics and log lines other than the counters of the worker and `audit.write_failed`.
- ThrottleAgreement.ThrottlesAgreeExactly: for rates of one second or more, because below that the script is given a window of zero; reset_after and reset_at are not compared, since the two backends measure different things.
- MemoryThrottle.DequeRefinesLog: for one key with one rate throughout; a rate that changes between checks is not modelled.
- RedisThrottleRuns.OutagesAtMostDouble: for one client of one key; several clients with a fallback each multiply the bound. Each admission counts from the moment its store decides it.
- BreakerEquivalence.OverlappingBisimilar: with one step for the whole admission of a call; what lies between the two locked sections of the in-process admission is in `BreakerRuns`.
- RedisBreakerRuns.CallsRunAndCountOnce: a record whose command is refused is counted nowhere; the original swallows that error too.
- Dispatch.FireAndForget.FillBatch: the interval of a batch can end at any moment; real time does not appear.
- Dispatch.FireAndForget.EndClose: the worker's flush is taken to let a cancellation through, and not to raise anything beyond `Exception`; a worker that has died and is started again is not modelled.
- AuditDispatcher.FireAndForgetDispatcher.WriteWithRetry: a failed or interrupted `write_many` may have stored part of a batch; what a backend keeps is not modelled, only what it is handed and whether it raises.
- `InlineDispatcher`, the in-task variant for tests: it only passes a list on.
- Cache.InMemoryAsyncCache.Incr: the clock is read once per operation, and a `bool` counts as the `int` it is.
- Redactor.WalkDict: keys are strings; a key that is no string, and a mapping that is no dict, are not modelled. What `lower` makes of a text, and which characters are digits, are parameters.
- Redactor.ScrubText: how a regular expression cuts a text is a parameter, with no assumption about it.
- `crypto/fernet.py`, `ssrf/`, `http_client/`, middleware, adapters, settings, provider resolution, the registry, scope keys, rate parsing and health reduction: easy members or library calls.
