# Kurama traffic control, modelled and verified

Kurama is a Kubernetes operator that starts runner Pods which send HTTP traffic at a
configured rate. This project models the parts that decide how much traffic is sent, what
the runners remember, and how the operator cleans up after a scenario, and proves what holds
of them in every run.

- **The rate budget.** Any number of runners read a requests-per-minute value (`RateSchedule`),
  reserve batches of permits from a fixed-window budget (`RateLimit`) and pace the granted
  slots (`Profile`, `Scheduler`). Redis is a hash with an optional deadline and a microsecond
  clock (`RedisHash`, `Windows`); both Lua scripts are atomic. `Ledger` holds an ideal limiter
  that never forgets a call, proves its budgets and that its refusals are justified, and shows
  that the Redis script with its expiring key and the in-process limiter decide exactly as it
  does; `LocalReadings` adds concurrent callers. `Fleet` interleaves N runner loops, each with
  settings of its own, on the shared keys and proves conservation of permits, the system budget,
  the traffic of a minute, retry progress, and what each step of a runner leads to.
- **Value stores.** The ring buffer of one process (`Stores`) and the shared Redis lists
  (`RedisStores`) are the same bounded queue; removed Redis stores get a deadline that is
  never extended.
- **Deletion and reconcile.** `RedisKeys` is the key and pattern encoding, `Finalizer` the
  deletion reconcile and the cluster around it, `Apply` the reconcile of the runner Deployment and
  its in-place merge into the existing object.
- **Small exact algorithms.** `WeightedPicker` is weighted choice with exclusions and the
  execution of one slot; `JsonPointer` is validation, decoding and resolution of JSON pointers
  (RFC 6901, sections 3 and 4).

Code that changes state is a class or a method with loops, proved against a specification
function; the theorems about whole runs are folds of those functions over step sequences, in
which a step that cannot be taken leaves the state alone. Random draws, clock readings,
failures and lost replies are arguments, so every theorem holds for all of them.

Four properties the system is meant to have do not hold for every input, and each has its
exact condition here:

- The Redis limiter accepts any window of a microsecond or more, but its TTL is rounded to
  milliseconds. `Ledger.RefinesExactly` proves that it keeps its budget in every run if and
  only if the window is at least a millisecond, divides a millisecond, or is a divisor of a
  millisecond short of one. The scheduler only uses one minute.
- A runner that reads its rate just before a schedule boundary and reserves after it brings a
  stale budget. `Fleet.OverrunExactly` says exactly when a minute's grants exceed the selected
  rate, `Fleet.SystemBudget` gives the bound without stale readings, and
  `Fleet.StaleRunnerOverruns` is a run in which two runners are granted 4 permits in a minute
  whose selected rate is 2. `Fleet.GrantCeiling` and `Fleet.TrafficInMinute` are what holds
  with stale readings too.
- The in-process limiter reads the clock before it takes its lock, so concurrent callers may
  read windows out of order. `LocalReadings.LocalBudgetExactly` proves that it keeps its budget,
  whatever they ask for, if and only if no window is read again after another one was read:
  readings of minute 1, minute 0 and minute 1 again get the budget of minute 1 twice. The
  sequential scheduler is a single caller.
- Removing the finalizer after a cleanup is meant to leave no key of the UID behind. Suspending
  a scenario deletes its Deployment in the background, so its Pods may outlive it and write
  again (`Finalizer.BackgroundDeletionLeaks`). `Finalizer.CleanupLastsExactly` proves that the
  cleanup lasts if and only if no Pod was alive when it ran; the foreground delete of the
  deletion path ensures that (`Finalizer.CleanedStaysClean`).

Merging a Deployment converges in one pass under a hypothesis that Kubernetes guarantees and
that `Apply.ApplyConverges` shows to be necessary: the secret volume is desired, or the object
did not carry it more than once.

The Redis client retries commands (internal/runner/redis_client.go:13-26), so a call may have
run several times by the time it is answered. The model counts every such run: retried
reservations take permits again, which are abandoned, and a retried put pushes its value again.

The documentation of the capture configuration calls the field an RFC 6901 pointer. RFC 6901
also has the empty pointer, for the whole document; the code refuses it, and so does the model.

## Model

| member | source | states |
|---|---|---|
| Windows.StartIsRemainder | internal/runner/ratelimit/acquire_rate_limit.lua:6 | the recursive window start of the model is `now - now % window` |
| Windows.WindowsDisjoint | internal/runner/ratelimit/acquire_rate_limit.lua:6 | two instants share a window or the earlier window ends before the later one starts |
| Windows.WindowsNest | internal/runner/rateschedule/redis_uniform.go:74-76 | when the outer length is a whole number of inner lengths every inner window lies inside one outer window, so limiter minutes nest in schedule windows |
| RedisHash.RedisKey.constructor | internal/runner/ratelimit/acquire_rate_limit.lua:9-13 | a new key is absent: no fields, no deadline |
| RedisHash.RedisKey.HGet | internal/runner/ratelimit/acquire_rate_limit.lua:9-14 | reads a field or nothing |
| RedisHash.RedisKey.HSet | internal/runner/ratelimit/acquire_rate_limit.lua:12 | sets one field and leaves the deadline |
| RedisHash.RedisKey.HIncrBy | internal/runner/ratelimit/acquire_rate_limit.lua:20 | adds to a field, from zero if absent, and leaves the deadline |
| RedisHash.RedisKey.PExpire | internal/runner/ratelimit/acquire_rate_limit.lua:25 | sets the deadline in whole milliseconds on an existing key only |
| RedisHash.Server.Key | internal/runner/ratelimit/redis_rate_limiter.go:57-60 | one key for each name on a server, absent until somebody uses it |
| RedisHash.DeadlineCoversExactly | internal/runner/ratelimit/acquire_rate_limit.lua:23-25 | rounding the TTL never lets a key expire inside the window that wrote it, if and only if the window is at least 1000 microseconds, divides 1000, or is 1000 less a divisor of 1000 |
| RedisHash.DeadlineIsOneWindowLater | internal/runner/ratelimit/acquire_rate_limit.lua:23-25 | the deadline both scripts set lies one window after the end of the current one, to less than a millisecond either way |
| RedisHash.EarlyDeadline | internal/runner/ratelimit/acquire_rate_limit.lua:23-25 | for every other window an instant whose key is gone before the window ends |
| RateLimit.CheckArguments | internal/runner/ratelimit/rate_limiter.go:15-33 | exactly the limits and permit counts that both limiters accept, and which complaint each refused one gets |
| RateLimit.Grant | internal/runner/ratelimit/acquire_rate_limit.lua:17-18 | never more than asked, all of it exactly when the budget still has it, and a short grant uses the budget up |
| RateLimit.Answer | internal/runner/ratelimit/acquire_rate_limit.lua:23-30 | the retry delay of a short grant ends with the window, to the microsecond |
| RateLimit.AcquireScript | internal/runner/ratelimit/acquire_rate_limit.lua:1-30 | grants what the recorded count of the current window leaves, adds it to the count, renews the deadline on every call to a window past the end of the current one, and returns the rest of the window unless everything was granted |
| RateLimit.NewRedisRateLimiter | internal/runner/ratelimit/redis_rate_limiter.go:29-40 | refuses a missing client and an invalid scope; limiters of one scope on one server share one key, the scope's rate-limit key, which is absent at first; the keys of other names stay |
| RateLimit.RunUnanswered | internal/runner/redis_client.go:13-26 | each retried attempt that ran unanswered took permits again |
| RateLimit.RedisRateLimiter.TryAcquire | internal/runner/ratelimit/redis_rate_limiter.go:42-76 | the error of each check in order with the key left alone; the attempts the client retried each ran the script; a lost last reply leaves its effect and an error; an answered one the script's decision in nanoseconds |
| RateLimit.LocalLimiter.constructor | internal/runner/ratelimit/local.go:26-28 | a new limiter has an empty window |
| RateLimit.LocalLimiter.TryAcquire | internal/runner/ratelimit/local.go:30-59 | for serialised calls at any nanosecond: the error of each check with the fields unchanged, or the grant the budget of the window still has, no delay with a full grant and the rest of the window with a short one, and the window and count kept |
| Ledger.LedgerWindowBudget | internal/runner/ratelimit/redis_rate_limiter.go:19-21 | in every run of the ideal limiter the grants of each window stay within the largest budget any call brought to it |
| Ledger.LedgerSlidingBudget | internal/runner/ratelimit/acquire_rate_limit.lua:6-20 | grants over any half-open interval of k window lengths, aligned or not, are at most k + 1 budgets |
| Ledger.OverrunExactlyWhen | internal/runner/ratelimit/acquire_rate_limit.lua:14-21 | a window's grants exceed a rate if and only if some call in it brought a larger budget and asked for more than that rate had left |
| Ledger.LedgerRefusalsJustified | internal/runner/ratelimit/acquire_rate_limit.lua:17-21 | in every run, a call granted less than it asked leaves its window used up, so no permit is withheld that the budget still had |
| Ledger.LedgerDecidesRight | internal/runner/ratelimit/acquire_rate_limit.lua:14-30 | in every run each answer in terms of the calls before it: as many permits as asked and left, no delay with a full grant, the rest of the window with a short one |
| Ledger.RecordedIsGranted | internal/runner/ratelimit/acquire_rate_limit.lua:9-15 | the count in the key is the sum granted in the current window, even after the key vanished |
| Ledger.KeyKnowsAcquire | internal/runner/ratelimit/acquire_rate_limit.lua:6-30 | each script call keeps the invariant between the expiring key and the full history |
| Ledger.RedisRefinesLedger | internal/runner/ratelimit/acquire_rate_limit.lua:1-30 | in every run with a nondecreasing clock, the key free to vanish from its deadline on, the script decides as the limiter that never forgets |
| Ledger.RedisWindowBudget | internal/runner/ratelimit/acquire_rate_limit.lua:6-30 | the budget theorem for all callers of the shared key in every window of every run |
| Ledger.RedisSlidingBudget | internal/runner/ratelimit/acquire_rate_limit.lua:6-20 | the sliding bound for the shared key |
| Ledger.RedisRefusalsJustified | internal/runner/ratelimit/acquire_rate_limit.lua:17-30 | refusals are justified on the shared key |
| Ledger.RedisDecidesRight | internal/runner/ratelimit/acquire_rate_limit.lua:14-30 | each answer of the expiring key in every run, in the same terms |
| Ledger.LostAreCalls | internal/runner/redis_client.go:13-26 | attempts that ran unanswered leave the key as that many calls of their own |
| Ledger.RedisOverrunExactlyWhen | internal/runner/ratelimit/acquire_rate_limit.lua:14-21 | the exact overrun condition on the shared key |
| Ledger.KeyLostEarly | internal/runner/ratelimit/redis_rate_limiter.go:52-55 | for each window outside the condition, a run that grants a budget of one twice in one window |
| Ledger.RefinesExactly | internal/runner/ratelimit/redis_rate_limiter.go:52-64 | the script decides as the ideal limiter in every run, and keeps its budget in every window, if and only if the TTL rounding is safe for the window |
| Ledger.SharedBoundaries | internal/runner/ratelimit/local.go:42 | truncation from year 1 and from the Unix epoch share their boundaries if and only if the window divides the distance |
| Ledger.LocalRefinesLedger | internal/runner/ratelimit/local.go:41-58 | in every run of serialised calls the in-process limiter decides as the ideal limiter |
| Ledger.LocalRefusalsJustified | internal/runner/ratelimit/local.go:51-57 | refusals of the in-process limiter are justified |
| Ledger.LocalDecidesRight | internal/runner/ratelimit/local.go:41-58 | each answer of the in-process limiter in every run of serialised calls, in the same terms |
| Ledger.BackendsAgree | internal/runner/ratelimit/local.go:10-11 | on one-minute windows both backends give the same grants and retry delays to the same calls, wherever the key expires in between |
| LocalReadings.LocalBudgetExactly | internal/runner/ratelimit/local.go:41-53 | with concurrent callers, whatever they ask for, every window stays within the largest budget brought to it, if and only if in the order of the lock no window is read again after another one was read |
| LocalReadings.ReturnOverruns | internal/runner/ratelimit/local.go:41-50 | wherever a window is read again, callers of one permit each overrun a budget of one |
| LocalReadings.OrderedNeverReturns | internal/runner/ratelimit/local.go:41-45 | readings in order, as of a single caller, never return to a window |
| RedisKeys.KeysIdentifyScope | internal/runner/rediskey/key.go:35-66 | validated scopes and kinds and names never render to the same key |
| RedisKeys.KeyTexts | internal/runner/rediskey/key.go:55-85 | the texts of the keys of each kind, field by field |
| RedisKeys.ScopeRule | internal/runner/rediskey/key.go:37-52 | a scope is valid exactly when no part of it is empty or holds a colon |
| RedisKeys.ColonMakesScopesAmbiguous | internal/runner/rediskey/key.go:46-48 | without the colon check two scopes would share their keys |
| RedisKeys.GlobIsPrefix | internal/runner/rediskey/key.go:69-75 | a pattern of ordinary characters matches itself only, with a final star exactly its extensions, and with a final question mark those by one character |
| RedisKeys.CleanupExact | internal/runner/rediskey/key.go:69-85 | a scope's cleanup patterns match a key if and only if it was built from that same namespace, scenario and UID |
| RedisKeys.DecimalParses | internal/runner/rateschedule/redis_uniform.go:86-91 | the numbers written into a key read back, contain no separator and have no leading zero |
| RateSchedule.NewRedisUniform | internal/runner/rateschedule/redis_uniform.go:56-97 | succeeds exactly for a client, a valid scope, a positive range, whole minutes and a random source, and says which is missing first; the candidates are exactly min to max and the window is the configured one |
| RateSchedule.KeyEncodesSettings | internal/runner/rateschedule/redis_uniform.go:86-91 | equal schedule keys come from equal scopes, ranges and windows |
| RateSchedule.SelectScript | internal/runner/rateschedule/select_uniform_window.lua:1-21 | the first call of a window stores its candidate, later ones read it, every call renews the deadline to a window past the end of the current one |
| RateSchedule.OpenRedisUniform | internal/runner/rateschedule/redis_uniform.go:56-97 | schedules of one scope with the same settings share one key on the server, absent at first, and leave the keys of other names; refused exactly as the constructor refuses |
| RateSchedule.RedisUniform.RequestsPerMinute | internal/runner/rateschedule/redis_uniform.go:99-115 | a cancelled call leaves the key alone; retried attempts that ran have selected already; a lost last reply leaves its effect and an error; an answered one the selected value |
| RateSchedule.SelectedIsFirst | internal/runner/rateschedule/select_uniform_window.lua:8-15 | the value a call returns is the first candidate proposed in its window, its own if it came first |
| RateSchedule.RunKnows | internal/runner/rateschedule/select_uniform_window.lua:5-21 | the invariant between a schedule key and the history of calls in every run, for runners with any mix of settings |
| RateSchedule.ScheduleAgreement | internal/runner/rateschedule/select_uniform_window.lua:5-21 | all calls with the same settings in one window get one value, the first caller's candidate, within min and max, in every run |
| RateSchedule.LostAreSelects | internal/runner/redis_client.go:13-26 | attempts that ran unanswered leave the schedule key as that many calls of their own |
| Profile.New | internal/runner/profile/profile.go:45-90 | exactly which configurations make a fixed, a uniform and a burst profile, and which are refused as what; a burst profile has the configured fields and divisor 10 when unset |
| Profile.BatchSize | internal/runner/profile/burst.go:12-16 | the size lies in 1..rate and within the configured sizes as far as the rate allows; without bursts it is one |
| Profile.BatchSizesExactly | internal/runner/profile/burst.go:12-16 | the sizes drawn are exactly those from the smaller to the larger bound, both capped at the rate, each by one draw |
| Profile.BatchSizeAccepted | internal/runner/scheduler_execution.go:27-39 | no drawn batch is refused by the limiter's argument checks |
| Profile.MeanDelayBounds | internal/runner/profile/profile.go:92-94 | the floored mean is positive and the remainder of a minute is below the rate |
| Profile.BurstGap | internal/runner/profile/burst.go:18-27 | the delay inside a burst is the floored mean over the configured divisor, at least a nanosecond: two inequalities that leave one value |
| Profile.UniformDelaysExactly | internal/runner/profile/uniform.go:13-16 | the uniform delays are exactly those from one nanosecond to twice the mean |
| Profile.DelayPositive | internal/runner/profile/burst.go:18-30 | every delay of every profile is positive |
| Profile.CycleKeepsMean | internal/runner/profile/burst.go:18-30 | the delays of a batch of n add up to exactly n floored means, at most one minute when n is within the rate |
| Profile.UniformKeepsMean | internal/runner/profile/uniform.go:13-16 | over its draws a uniform delay averages half a nanosecond above the mean |
| WeightedPicker.PickWeighted | internal/runner/weighted_picker.go:5-31 | fails exactly when no weight is left; otherwise the selected operation owns the drawn interval, and the final return is never reached |
| WeightedPicker.SelectionUnique | internal/runner/weighted_picker.go:20-29 | a draw selects at most one operation |
| WeightedPicker.SelectionExists | internal/runner/weighted_picker.go:20-29 | every draw below the total selects an operation |
| WeightedPicker.ExactWeights | internal/runner/weighted_picker.go:10-30 | exactly weight_i of the draws below the total select i, none if it is excluded |
| WeightedPicker.ExecuteReservedSlot | internal/runner/scheduler_execution.go:63-81 | each operation it runs owns its attempt's draw among those not run yet, weighted by their weights; none runs twice, all but the last are unavailable, and if the last is unavailable too, every operation ran |
| Scheduler.AcceptRpm | internal/runner/scheduler_execution.go:83-96 | passes on exactly the rates from 1 to 6000 |
| Scheduler.AcceptDecision | internal/runner/scheduler_execution.go:26-61 | passes on the decision if and only if the batch is within the rate and the grant within the batch |
| Scheduler.SlotDelay | internal/runner/scheduler.go:132-139 | every wait is positive; it is the profile's delay, except that the last one is raised to the retry delay |
| Scheduler.RunBatch | internal/runner/scheduler.go:130-143 | for each granted permit in order one slot execution, picked by its own draws, and one wait, unless a wait is cut short, which ends the loop at once |
| Scheduler.SlotsAreActions | internal/runner/scheduler.go:130-143 | executing the slots of a batch in turn with those waits is one enabled action of the loop's step machine for each, and after the last the loop is at its top, ready when that wait is over |
| Scheduler.PhaseInRange | internal/runner/scheduler.go:101-145 | in every reachable state the batch position is within the grant, the grant within the rate and the rate within 1 to 6000 |
| Scheduler.BatchWithinCapacity | internal/runner/scheduler.go:113-130 | in every reachable state a batch holds at most the profile's largest burst |
| Scheduler.RateLeadsTo | internal/runner/scheduler.go:103-112 | a rate from 1 to 6000 is taken; anything else is followed by another read in exactly one second |
| Scheduler.AnswerLeadsTo | internal/runner/scheduler.go:113-130 | a failed reservation is followed by another try in exactly one second, a rejected one by exactly the limiter's delay, a granted one by its first slot at once; every answer is logged |
| Scheduler.NeverStuck | internal/runner/scheduler.go:101-145 | in every reachable state that is not stopped both random draws have a result, and once the wait is over some action other than stopping can be taken |
| Scheduler.RetryProgress | internal/runner/scheduler.go:120-143 | after a rejected or partial decision the same runner is ready to reserve again only in a strictly later minute, whether or not that attempt is answered |
| Scheduler.OneShortPerMinute | internal/runner/scheduler.go:120-143 | so a runner gets at most one rejected or partial decision per minute |
| Scheduler.MeanTimesPermits | internal/runner/profile/profile.go:92-94 | permits whose mean time fits in a minute are at most the rate |
| Scheduler.PermitsTakeTime | internal/runner/scheduler.go:130-143 | permits granted from an instant on, before the last acquisition, took their mean time |
| Scheduler.PacingBound | internal/runner/profile/burst.go:18-30 | without help from the limiter a fixed or burst runner at a constant rate is granted, over any 60 seconds, at most the rate plus its last batch |
| Scheduler.RedisIsHonest | internal/runner/ratelimit/acquire_rate_limit.lua:17-30 | the script's decisions satisfy what the loop's theorems ask of a limiter |
| Scheduler.LocalIsHonest | internal/runner/ratelimit/local.go:51-57 | so do the in-process limiter's |
| Fleet.RunFollows | internal/runner/scheduler.go:97-101 | in every interleaving of runners with any settings the shared keys behave as in runs of their own, so their theorems hold of the fleet |
| Fleet.PermitsConserved | internal/runner/scheduler.go:97-145 | in every reachable state granted permits are those executed, those still owed and those abandoned by crashes and lost replies; each finished batch executed exactly its grant |
| Fleet.RunnerTakesRun | internal/runner/scheduler.go:101-145 | each runner of the fleet takes a run of its own loop, and what it was granted is on the shared key's record |
| Fleet.FleetRetryProgress | internal/runner/scheduler.go:120-143 | in the fleet, after a decision short of its batch the same runner is next in a position to reserve, answered or not, in a strictly later limiter window |
| Fleet.FleetNeverStuck | internal/runner/scheduler.go:101-145 | once a runner's wait is over there is a step that takes its loop on, whatever becomes of the call to Redis it has to make |
| Fleet.StepsExactly | internal/runner/scheduler.go:101-145 | in every run a runner can read a rate exactly when its wait is over, reserve any batch of its profile exactly when it has a rate, and execute a slot with any draw exactly when its wait is over |
| Fleet.ReadOutcome | internal/runner/scheduler.go:103-112 | in every run a read takes the rate selected for its window if that is at most 6000, and in any other case the runner tries again in exactly one second; other runners do not move |
| Fleet.ReservationOutcome | internal/runner/scheduler.go:113-130 | in every run a reservation is one limiter call for a batch of the profile at the runner's rate; an empty answer makes it sleep to the end of its limiter minute, to the microsecond, a grant may run its first slot at once, and a lost or missing answer costs exactly one second; the call is stale exactly when the rate was read in another schedule window |
| Fleet.SlotOutcome | internal/runner/scheduler.go:130-143 | in every run executing a slot counts one slot and waits the profile's delay, after the last slot at least the limiter's; then comes the next slot, or the top of the loop with the batch recorded as finished |
| Fleet.StopOutcome | internal/runner/scheduler.go:97-100 | in every run a runner that stops abandons exactly the permits of its batch that are left |
| Fleet.ReselectOutcome | internal/runner/redis_client.go:13-26 | in every run an unanswered attempt to read leaves the runner trying, with a rate selected for the window |
| Fleet.ReacquireOutcome | internal/runner/redis_client.go:13-26 | in every run an unanswered attempt to reserve leaves the runner trying, and what it was granted is abandoned |
| Fleet.FleetDecidesRight | internal/runner/scheduler_execution.go:36-51 | each answer of the limiter in every run of the fleet, in terms of all runners' calls before it |
| Fleet.RateReadIsSelected | internal/runner/scheduler_execution.go:83-96 | the rate a runner reads is the one selected, under its settings, for the window in which it reads it |
| Fleet.RunBudgetsSelected | internal/runner/scheduler.go:103-113 | every budget brought to the limiter is the rate selected, under its runner's settings, when it was read |
| Fleet.MinuteInSchedule | internal/runner/rateschedule/redis_uniform.go:74-76 | each limiter minute lies in one schedule window |
| Fleet.FleetMinuteBudget | internal/runner/scheduler_execution.go:36-39 | all runners together stay, in every minute of every run, within the largest budget brought to it |
| Fleet.FleetRefusalsJustified | internal/runner/scheduler_execution.go:36-51 | no runner is refused a permit its minute still had |
| Fleet.SystemBudget | internal/runner/scheduler.go:101-145 | when no call of a minute carries a rate across a schedule boundary, all runners together are granted at most the rate selected for the window around it, the largest one if their settings differ |
| Fleet.OneSelectedRate | internal/runner/rateschedule/select_uniform_window.lua:8-15 | runners with the same settings have one selected rate |
| Fleet.OverrunExactly | internal/runner/scheduler.go:101-145 | the runners exceed the selected rate in a minute if and only if some call of that minute brought a larger budget and asked for more than the rate had left; every such call carried its rate across a schedule boundary |
| Fleet.GrantCeiling | internal/runner/scheduler_execution.go:36-39 | with no condition at all, no minute is granted more than the largest rate any runner's settings allow |
| Fleet.OwedWithinCapacity | internal/runner/scheduler.go:113-143 | the permits all runners hold at any moment are at most one largest burst each |
| Fleet.ExecutedInMinute | internal/runner/scheduler.go:130-143 | slots executed between two states of a minute are granted in it or were held when it began |
| Fleet.TrafficInMinute | internal/runner/scheduler.go:97-145 | the slots all runners execute in a minute are at most the largest configured rate, or the selected rate if no call of the minute is stale, plus one largest burst for each runner |
| Fleet.StaleRunnerOverruns | internal/runner/scheduler.go:103-113 | a run in which a rate carried across a boundary makes two runners exceed the selected rate |
| Stores.PutsKeepLast | internal/runner/store.go:24-25 | after any puts a store holds exactly the last `limit` values put, in order |
| Stores.MemoryPool.constructor | internal/runner/store.go:44-46 | a new pool is empty with its limit |
| Stores.MemoryPool.Put | internal/runner/store.go:63-71 | the ring read from `next` round to `next` is the bounded queue's next state |
| Stores.MemoryPool.Random | internal/runner/store.go:83-88 | no value exactly when empty, else the drawn one; the drawn values are the queue's as a multiset |
| Stores.MemoryStore.constructor | internal/runner/store.go:42-48 | one fresh empty pool for each capacity, with that limit, and no pool shared by two stores |
| Stores.ValidateStoreConfigs | internal/runner/store_validation.go:10-37 | succeeds exactly for at most 32 entries with valid, distinct names and capacities from 1 to 100000; the result holds exactly those; an error names the first bad entry and the first complaint about it |
| Stores.NamePattern | internal/runner/operation_validation.go:12 | a name is a small letter and then at most 62 small letters, digits and hyphens |
| Stores.AcceptedExactly | internal/runner/store_validation.go:10-37 | the accepted configurations are those of at most 32 stores with valid names, all different, and capacities from 1 to 100000 |
| Stores.NewMemoryStore | internal/runner/store.go:37-49 | a store with one empty pool for each configured name, of the configured capacity, or the validation error |
| Stores.MemoryStore.Put | internal/runner/store.go:51-72 | each error in order with the pool unchanged, or the named pool's bounded-queue step; every other pool is unchanged |
| Stores.MemoryStore.Random | internal/runner/store.go:74-89 | each error in order, no value exactly for an empty pool, else the drawn value of the pool |
| Stores.PushTrimIsEnqueue | internal/runner/redis_store.go:63-64 | RPUSH then LTRIM to the last `limit` is the bounded queue's step and never empties the list |
| Stores.ListIsRing | internal/runner/redis_store.go:20-21 | after the same puts the ring and the Redis list hold the same values in the same order |
| RedisStores.Database.RPush | internal/runner/redis_store.go:63 | appends to a list, creating it without a deadline |
| RedisStores.Database.LTrimKey | internal/runner/redis_store.go:64 | keeps a range with negative indices; a list trimmed to nothing is deleted |
| RedisStores.Database.LLen | internal/runner/redis_store.go:81 | the length, zero for no list |
| RedisStores.Database.LIndex | internal/runner/redis_store.go:89-92 | the value at an index or nothing |
| RedisStores.Database.Persist | internal/runner/redis_store.go:128 | takes the deadline from one list |
| RedisStores.Database.ExpireNX | internal/runner/redis_store.go:131 | gives a list a deadline only if it has none |
| RedisStores.NewRedisStore | internal/runner/redis_store.go:30-47 | refuses a missing client, an invalid scope and invalid configurations; the keys are the scope's store keys and the limits the configured capacities |
| RedisStores.RedisStore.PushAndTrim | internal/runner/redis_store.go:62-66 | the transaction is one step of the bounded queue and keeps the deadline |
| RedisStores.RedisStore.Put | internal/runner/redis_store.go:49-70 | each error in order; every attempt of the transaction that ran, retried ones included, is one step of the bounded queue |
| RedisStores.RetriedPut | internal/runner/redis_client.go:13-26 | a put whose retried attempts ran is that many puts of the same value |
| RedisStores.RedisStore.Random | internal/runner/redis_store.go:72-97 | each error in order, otherwise nothing for an empty list, and the value at the index drawn below the length read first, if the list still has it after other clients' changes |
| RedisStores.RedisStore.CollectKeys | internal/runner/redis_store.go:107-116 | exactly the scanned keys that belong to this scope's named stores |
| RedisStores.RedisStore.ApplyRetention | internal/runner/redis_store.go:124-134 | the retention commands for the keys, in any order and with repetitions |
| RedisStores.RedisStore.ReconcileKeys | internal/runner/redis_store.go:102-138 | active stores lose their deadline, removed ones get one if they have none, other keys are untouched, values never change; exactly the lists other clients made after the SCAN are missed, or more if the pipeline breaks, which is reported |
| RedisStores.RetentionExactly | internal/runner/redis_store.go:99-138 | list by list what a reconcile leaves: every value, no deadline for an active store, the old deadline or one in seven days for a removed one, and other keys as they were |
| RedisStores.ReadSurvivesPuts | internal/runner/redis_store.go:81-96 | values put between the length and the index never make the read of a nonempty list find nothing: it returns the value now at the drawn index |
| RedisStores.DeadlineProtocol | internal/runner/redis_store.go:99-138 | in every run a list has a deadline exactly when the last reconcile reaching it since its creation excluded the store, seven days after the first such one since the last including one |
| RedisStores.RemovedStoreLives | internal/runner/redis_store.go:99-101 | a store that was filled and then removed is there, with its value, for exactly seven days |
| RedisStores.RestoredUnchanged | internal/runner/redis_store.go:99-101 | from any reachable state a store restored before its deadline keeps its values and loses the deadline |
| Finalizer.Cluster.ScanAll | internal/controller/trafficscenario_finalizer.go:161-170 | the keys listed are exactly those matching some pattern |
| Finalizer.Cluster.DeleteScenarioRedisKeys | internal/controller/trafficscenario_finalizer.go:152-178 | succeeds exactly when the scan worked and DEL was answered or not needed; only and all own keys go, also when the reply was lost |
| Finalizer.Cluster.RemoveFinalizer | internal/controller/trafficscenario_finalizer.go:134-143 | the finalizer goes exactly when the update succeeds |
| Finalizer.Cluster.RetryOrAbandon | internal/controller/trafficscenario_finalizer.go:88-132 | before the grace period nothing changes and it is retried, afterwards the finalizer is abandoned if the update succeeds |
| Finalizer.Cluster.CleanUp | internal/controller/trafficscenario_finalizer.go:70-85 | the reconcile once the Deployment is gone, on every branch |
| Finalizer.Cluster.ReconcileDeletion | internal/controller/trafficscenario_finalizer.go:31-86 | all that a reconcile does: a found, controlled Deployment goes under foreground deletion, own keys go once it is gone, the finalizer goes after a cleanup or five minutes, with the matching flag, and until then the reconcile comes back in five seconds |
| Finalizer.ReconcileExactly | internal/controller/trafficscenario_finalizer.go:31-150 | the same of the specification function, in terms of the state before and the answers |
| Finalizer.StopsExactly | internal/controller/trafficscenario_finalizer.go:39-68 | in every run a reconcile puts the Deployment under deletion if and only if the finalizer is there, the Deployment is found running and controlled, and the delete is accepted |
| Finalizer.NormalProgress | internal/controller/trafficscenario_finalizer.go:31-86 | from any reachable state with a running, controlled Deployment within the grace period: a working reconcile, the end of the Pods and the Deployment, and another working reconcile end with the finalizer gone, cleaned, no own key and every other key |
| Finalizer.KeysComeAndGo | internal/controller/trafficscenario_finalizer.go:152-178 | the Pods of a found runner may write any key of the scope, and any key may expire |
| Finalizer.CleanedStaysClean | internal/controller/trafficscenario_finalizer.go:39-85 | where the Deployment leaves only through the foreground delete, once the finalizer went after a cleanup no key of that UID exists in any later state |
| Finalizer.CleanupLastsExactly | internal/controller/trafficscenario_finalizer.go:70-85 | in every run, background deletes included, after the reconcile that cleaned up no key of that UID exists in any later state if and only if no Pod of the scenario was alive at that reconcile |
| Finalizer.BackgroundDeletionLeaks | internal/controller/trafficscenario_controller.go:77 | a run with a background delete, as suspending does it, in which a key of the UID is written after the cleanup |
| Finalizer.OnlyOwnKeysOnlyWhenGone | internal/controller/trafficscenario_finalizer.go:41-83 | keys are deleted only by a reconcile that found the Deployment gone, and never those of another scope |
| Finalizer.FinalizerGoneExactlyWhen | internal/controller/trafficscenario_finalizer.go:31-150 | in every run the finalizer is gone if and only if some reconcile had a working update and either cleaned up or ran at or after deletion time plus five minutes |
| Apply.SetManagedMapValues | internal/controller/trafficscenario_apply.go:204-214 | the loop over the desired entries merges them over the target: desired keys get their values, other keys keep theirs, and no desired entries leave an unset map unset |
| Apply.Deployment.ApplyMetadata | internal/controller/trafficscenario_apply.go:95-103 | labels and annotations of the object and its Pod template are merged |
| Apply.Deployment.ApplyPodSecurity | internal/controller/trafficscenario_apply.go:139-148 | an unset desired context changes nothing; a set one replaces its two managed fields and keeps the rest |
| Apply.Deployment.ApplyRunnerContainer | internal/controller/trafficscenario_apply.go:150-183 | the first container of that name gets the managed fields in place, or the container is appended |
| Apply.Deployment.ApplyScenarioVolume | internal/controller/trafficscenario_apply.go:185-202 | the first volume of that name gets the managed source, keeping the server's default mode between config maps, or it is appended |
| Apply.Deployment.ApplySecretHeaderVolume | internal/controller/trafficscenario_apply.go:115-137 | the secret volume is replaced, appended or removed as desired |
| Apply.Deployment.ApplyPodLists | internal/controller/trafficscenario_apply.go:109-112 | security context, containers and volumes after all four steps |
| Apply.Deployment.ApplyManagedFields | internal/controller/trafficscenario_apply.go:94-113 | rollout and Pod settings are the desired ones, the Pod security context gets the desired managed fields, unmanaged fields stay, and the whole object is the value the theorems below are about |
| Apply.VolumesConverge | internal/controller/trafficscenario_apply.go:111-137 | the volumes are stable after one pass if and only if the secret volume is desired or was not there more than once |
| Apply.ApplyConverges | internal/controller/trafficscenario_apply.go:83-86 | applying the same desired Deployment twice equals applying it once, under exactly that condition |
| Apply.DefaultsAreKept | internal/controller/trafficscenario_apply.go:194-198 | whatever the server fills in after one application among unmanaged fields and config maps' default modes, applying the same desired Deployment again changes nothing |
| Apply.CreatedIsApplied | internal/controller/trafficscenario_apply.go:64-75 | a created Deployment is already what applying the same one makes of it |
| Apply.ApiServer.ApplyDeployment | internal/controller/trafficscenario_apply.go:57-92 | each error exactly when its check fails, in order, with nothing changed: not controlled by this UID, another selector, each failing call; creates the missing object with its owner, patches a different one to the merge, and reports whether it changed anything |
| Apply.SecondReconcileIsQuiet | internal/controller/trafficscenario_apply.go:57-92 | after a create or a patch, a reconcile of the same desired Deployment finds nothing to do, whatever the server filled in meanwhile |
| Apply.ApplyFrames | internal/controller/trafficscenario_apply.go:94-137 | foreign containers, volumes and map keys keep their values and order; desired map keys get their values and no others appear |
| Apply.SecretVolumeExact | internal/controller/trafficscenario_apply.go:115-137 | the secret volume ends up present, once, exactly when desired, if and only if it was not there more than once |
| Apply.SecretVolumeManaged | internal/controller/trafficscenario_apply.go:115-137 | the volume "request-secrets" is afterwards the desired one, or gone if none is desired, if and only if one is desired or it was not there more than once |
| Apply.RunnerContainerManaged | internal/controller/trafficscenario_apply.go:150-183 | afterwards the runner container is where it was, or last, with every desired managed field and the other fields it had, those of its security context included |
| Apply.ScenarioVolumeManaged | internal/controller/trafficscenario_apply.go:185-202 | afterwards the scenario volume refers to the desired config map, and the server's default mode survived exactly between config maps |
| JsonPointer.ValidateJSONPointer | internal/runner/operation_validation.go:223-237 | the index loop accepts exactly the texts with a leading slash in which every tilde is followed by 0 or 1 |
| JsonPointer.TwoPassesDecode | internal/runner/executor_capture.go:42 | replacing ~1 and then ~0 equals one decode from left to right, on every text |
| JsonPointer.OrderMattersExactly | internal/runner/executor_capture.go:42 | the replacements the other way round would decode correctly if and only if the text does not contain "~01" |
| JsonPointer.TokensOfEncoding | internal/runner/executor_capture.go:41-42 | the encoding of every nonempty token list is accepted, and splitting and unescaping it returns the tokens |
| JsonPointer.ValidatedExactly | internal/runner/operation_validation.go:223-237 | a text is accepted if and only if it is the encoding of the nonempty token list it decodes to |
| JsonPointer.EncodeInjective | internal/runner/executor_capture.go:41-42 | different token lists have different pointers |
| JsonPointer.ResolveJSONPointer | internal/runner/executor_capture.go:39-61 | the loop over the encoded tokens is the walk along the decoded ones, with the same errors |
| JsonPointer.CaptureString | internal/runner/executor_capture.go:22-36 | a value is captured exactly when the pointer resolves to a text of 1 to 4096 bytes, and every other case has its own error |
| JsonPointer.EveryNodeAddressable | internal/runner/executor_capture.go:39-61 | every node below the root has a pointer that is accepted and resolves to it |
| JsonPointer.OnlyNodesResolve | internal/runner/executor_capture.go:39-61 | whatever a pointer resolves to is a node of the document, one level down per token |
| JsonPointer.RefusedAtFirst | internal/runner/executor_capture.go:43-60 | a pointer that does not resolve is refused at the first token without such a child, with the error for the kind of node found there |

## Left out

- Scheduler.NeverStuck: the endless loop is a step machine on values, because the model has no unbounded loops; its inner loop over one batch is the method `RunBatch`. Cancellation is the `Stop` step, taken at any point.
- Scheduler.PacingBound: waits last at least as long as requested; a timer that fires early is outside the model.
- Fleet.SystemBudget: the condition is on the calls of the minute, since the code has no guard against a stale rate; a restarted runner is a new runner.
- RateLimit.LocalLimiter.TryAcquire: calls take effect in the order of the lock; the clock reading is an argument, in any order in `LocalReadings` and nondecreasing in `Ledger`.
- Ledger.BackendsAgree: clock readings are whole microseconds, as Redis has them; the local limiter's own readings are nanoseconds.
- Ledger.RedisRefinesLedger: one window length per key, as the scheduler uses it; calls with different windows on one key are not modelled.
- RateLimit.AcquireScript: Lua numbers are naturals (timestamps stay far below 2^53), and the window token is the number it prints.
- RateSchedule.NewRedisUniform: Go's integer width, so the check for an overflowing range is never taken here.
- RedisKeys.CleanupExact: only scopes free of glob metacharacters, which Kubernetes names and UIDs are; character classes and escapes in patterns are not modelled.
- RedisStores.RedisStore.ReconcileKeys: unless it fails, SCAN returns at least every key present when it starts; other clients act between the SCAN and the pipeline, but not between two pipelined commands. A retried pipeline is a broken call followed by another one.
- RateLimit.RunUnanswered: any number of retried attempts, here and in `Fleet`, where the client makes at most two.
- Finalizer.CleanedStaysClean: the controller's reads are current, SCAN and DEL see one state, and an update that reports an error was not applied; a scenario whose runner was deleted in the background is the subject of `CleanupLastsExactly` instead.
- Apply.ApiServer.ApplyDeployment: nobody else writes the object between the read and the patch.
- Apply.DefaultsAreKept: the secret volume names its mode itself (internal/controller/trafficscenario_secrets.go:52), so the server has nothing to fill in there.
- Apply.Deployment.ApplyManagedFields: copied fields are opaque texts, so deep copies and semantic equality are not modelled; a desired object has a container and a volume, as the controller builds it.
- JsonPointer.ResolveJSONPointer: `strconv.Atoi` is a parameter, so the array-index grammar of RFC 6901 is not claimed; the JSON decoder and Unicode are outside the model.
- WeightedPicker.ExecuteReservedSlot: operations have positive weights, which configuration validation enforces; HTTP execution and result handling are the `unavailable` argument.
- Randomness quality: draws are arbitrary in range, and counting theorems replace probabilities.
- Rolling updates with the local limiter, where two processes briefly hold separate budgets.
- HTTP requests, header files, templates, metrics, logging, status conditions, events, configuration validation and the Kubernetes and Redis clients.
