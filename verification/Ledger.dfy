/**
 Whole runs of the limiters. The ledger is the ideal fixed-window limiter: it
 keeps every call ever made and grants what the current window still has. The
 Redis script with its expiring key, and the in-process limiter, both give the
 ledger's decisions in every run; the budget theorems are proved on the ledger.
 */
module Ledger {
  import opened Results
  import opened Windows
  import opened RedisHash
  import opened RateLimit

  /** A call that reached the limiter; `at` is in microseconds since the Unix epoch. */
  datatype Call = Call(at: nat, requests: nat, permits: nat, decision: Decision)

  /** Acquire may carry any arguments; Expire lets the key vanish if its deadline allows. */
  datatype Step = Tick(to: nat) | Expire | Acquire(requests: int, permits: int)

  /** Permits granted at instants in [lo, hi). */
  function GrantedIn(calls: seq<Call>, lo: int, hi: int): nat {
    if calls == [] then 0
    else
      var last := calls[|calls| - 1];
      GrantedIn(calls[..|calls| - 1], lo, hi) + if lo <= last.at < hi then last.decision.granted else 0
  }

  /** The largest budget any call brought at an instant in [lo, hi). */
  function BudgetIn(calls: seq<Call>, lo: int, hi: int): nat {
    if calls == [] then 0
    else
      var last := calls[|calls| - 1];
      Max(BudgetIn(calls[..|calls| - 1], lo, hi), if lo <= last.at < hi then last.requests else 0)
  }

  predicate Valid(requests: int, permits: int, window: nat) {
    CheckArguments(Limit(requests, window * NANOS_PER_MICRO), permits).None?
  }

  // ---- the ideal limiter ----

  datatype LedgerWorld = LedgerWorld(now: nat, calls: seq<Call>)

  function LedgerStep(window: nat, w: LedgerWorld, step: Step): LedgerWorld
    requires window > 0
  {
    match step
    case Tick(to) => w.(now := Max(w.now, to))
    case Expire => w
    case Acquire(requests, permits) =>
      if !Valid(requests, permits, window) then w
      else
        var used := GrantedIn(w.calls, Start(w.now, window), End(w.now, window));
        var decision := Answer(w.now, window, Grant(used, requests, permits), permits);
        w.(calls := w.calls + [Call(w.now, requests, permits, decision)])
  }

  function RunLedger(window: nat, clock: nat, steps: seq<Step>): LedgerWorld
    requires window > 0
  {
    if steps == [] then LedgerWorld(clock, [])
    else LedgerStep(window, RunLedger(window, clock, steps[..|steps| - 1]), steps[|steps| - 1])
  }

  // ---- the Redis script on one key ----

  datatype RedisWorld = RedisWorld(now: nat, key: Hash, calls: seq<Call>)

  function RedisStep(window: nat, w: RedisWorld, step: Step): RedisWorld
    requires window > 0
  {
    match step
    case Tick(to) => w.(now := Max(w.now, to))
    case Expire => w.(key := Vanish(w.key, w.now))
    case Acquire(requests, permits) =>
      if !Valid(requests, permits, window) then w
      else
        var (key, decision) := RedisAcquire(w.key, w.now, window, requests, permits);
        RedisWorld(w.now, key, w.calls + [Call(w.now, requests, permits, decision)])
  }

  function RunRedis(window: nat, clock: nat, steps: seq<Step>): RedisWorld
    requires window > 0
  {
    if steps == [] then RedisWorld(clock, NO_KEY, [])
    else RedisStep(window, RunRedis(window, clock, steps[..|steps| - 1]), steps[|steps| - 1])
  }

  // ---- LocalLimiter, called one call at a time with microsecond-aligned readings ----

  /** Microseconds from the zero time of Go's time package to the Unix epoch. */
  const EPOCH: nat := 62_135_596_800_000_000

  function LocalTime(now: nat): nat {
    (now + EPOCH) * NANOS_PER_MICRO
  }

  datatype LocalWorld = LocalWorld(now: nat, state: LocalState, calls: seq<Call>)

  function LocalStep(window: nat, w: LocalWorld, step: Step): LocalWorld
    requires window > 0
  {
    match step
    case Tick(to) => w.(now := Max(w.now, to))
    case Expire => w
    case Acquire(requests, permits) =>
      if !Valid(requests, permits, window) then w
      else
        var (state, decision) :=
          LocalAcquire(w.state, LocalTime(w.now), window * NANOS_PER_MICRO, requests, permits);
        LocalWorld(w.now, state, w.calls + [Call(w.now, requests, permits, decision)])
  }

  function RunLocal(window: nat, clock: nat, steps: seq<Step>): LocalWorld
    requires window > 0
  {
    if steps == [] then LocalWorld(clock, NEW_LOCAL, [])
    else LocalStep(window, RunLocal(window, clock, steps[..|steps| - 1]), steps[|steps| - 1])
  }

  // ---- sums over histories ----

  lemma {:induction false} NothingOutside(calls: seq<Call>, lo: int, hi: int)
    requires forall c :: c in calls ==> c.at < lo || hi <= c.at
    ensures GrantedIn(calls, lo, hi) == 0
  {
    if calls != [] {
      NothingOutside(calls[..|calls| - 1], lo, hi);
      assert calls[|calls| - 1] in calls;
    }
  }

  lemma AppendCall(calls: seq<Call>, c: Call, lo: int, hi: int)
    ensures GrantedIn(calls + [c], lo, hi) ==
            GrantedIn(calls, lo, hi) + if lo <= c.at < hi then c.decision.granted else 0
    ensures BudgetIn(calls + [c], lo, hi) ==
            Max(BudgetIn(calls, lo, hi), if lo <= c.at < hi then c.requests else 0)
  {
    assert (calls + [c])[..|calls|] == calls;
  }

  lemma {:induction false} GrantedSplits(calls: seq<Call>, lo: int, mid: int, hi: int)
    requires lo <= mid <= hi
    ensures GrantedIn(calls, lo, hi) == GrantedIn(calls, lo, mid) + GrantedIn(calls, mid, hi)
  {
    if calls != [] {
      GrantedSplits(calls[..|calls| - 1], lo, mid, hi);
    }
  }

  lemma {:induction false} BudgetBound(calls: seq<Call>, lo: int, hi: int, budget: nat)
    requires forall c :: c in calls && lo <= c.at < hi ==> c.requests <= budget
    ensures BudgetIn(calls, lo, hi) <= budget
  {
    if calls != [] {
      BudgetBound(calls[..|calls| - 1], lo, hi, budget);
      assert calls[|calls| - 1] in calls;
    }
  }

  // ---- the ledger keeps its budget ----

  /** In every run, the grants of each window stay within the largest budget brought to it. */
  lemma {:induction false} LedgerWindowBudget(window: nat, clock: nat, steps: seq<Step>, t: nat)
    requires window > 0
    ensures var calls := RunLedger(window, clock, steps).calls;
            GrantedIn(calls, Start(t, window), End(t, window)) <=
            BudgetIn(calls, Start(t, window), End(t, window))
  {
    if steps != [] {
      var prior := steps[..|steps| - 1];
      LedgerWindowBudget(window, clock, prior, t);
      var w := RunLedger(window, clock, prior);
      var next := LedgerStep(window, w, steps[|steps| - 1]);
      if next.calls != w.calls {
        AppendCall(w.calls, next.calls[|w.calls|], Start(t, window), End(t, window));
        SameWindow(t, w.now, window);
      }
    }
  }

  /** Over `k` whole windows on the grid, grants are at most `k` budgets. */
  lemma {:induction false} GridBudget(window: nat, clock: nat, steps: seq<Step>, t: nat, k: nat, budget: nat)
    requires window > 0
    requires forall c :: c in RunLedger(window, clock, steps).calls ==> c.requests <= budget
    ensures GrantedIn(RunLedger(window, clock, steps).calls,
                      Start(t, window), Start(t, window) + k * window) <= k * budget
    decreases k
  {
    var calls := RunLedger(window, clock, steps).calls;
    var s := Start(t, window);
    if k == 0 {
      NothingOutside(calls, s, s);
    } else {
      var next := s + window;
      EndIsStart(t, window);
      GridBudget(window, clock, steps, next, k - 1, budget);
      LedgerWindowBudget(window, clock, steps, t);
      BudgetBound(calls, s, next, budget);
      assert s + k * window == next + (k - 1) * window;
      assert k * budget == budget + (k - 1) * budget;
      GrantedSplits(calls, s, next, s + k * window);
    }
  }

  /**
   Sliding bound: with budgets of at most `budget`, the grants over any half-open
   interval of `k` window lengths, aligned or not, are at most `k + 1` budgets.
   */
  lemma LedgerSlidingBudget(window: nat, clock: nat, steps: seq<Step>, from: nat, k: nat, budget: nat)
    requires window > 0
    requires forall c :: c in RunLedger(window, clock, steps).calls ==> c.requests <= budget
    ensures GrantedIn(RunLedger(window, clock, steps).calls, from, from + k * window) <= (k + 1) * budget
  {
    var calls := RunLedger(window, clock, steps).calls;
    var s := Start(from, window);
    GridBudget(window, clock, steps, from, k + 1, budget);
    assert s + (k + 1) * window == s + k * window + window;
    GrantedSplits(calls, s, from, s + (k + 1) * window);
    GrantedSplits(calls, from, from + k * window, s + (k + 1) * window);
  }

  /** Call `k` asked with a budget above `rate` for more than `rate` still had. */
  predicate Overreaches(calls: seq<Call>, lo: int, hi: int, rate: nat, k: nat)
    requires k < |calls|
  {
    && lo <= calls[k].at < hi
    && calls[k].requests > rate
    && GrantedIn(calls[..k], lo, hi) + calls[k].permits > rate
  }

  ghost predicate SomeOverreach(calls: seq<Call>, lo: int, hi: int, rate: nat) {
    exists k: nat :: k < |calls| && Overreaches(calls, lo, hi, rate, k)
  }

  lemma OverreachAppend(calls: seq<Call>, c: Call, lo: int, hi: int, rate: nat)
    ensures SomeOverreach(calls + [c], lo, hi, rate) <==>
            || SomeOverreach(calls, lo, hi, rate)
            || (lo <= c.at < hi && c.requests > rate && GrantedIn(calls, lo, hi) + c.permits > rate)
  {
    var all := calls + [c];
    assert all[..|calls|] == calls;
    forall k: nat | k < |calls|
      ensures Overreaches(all, lo, hi, rate, k) <==> Overreaches(calls, lo, hi, rate, k)
    {
      assert all[..k] == calls[..k];
    }
    assert Overreaches(all, lo, hi, rate, |calls|) <==>
      lo <= c.at < hi && c.requests > rate && GrantedIn(calls, lo, hi) + c.permits > rate;
  }

  /**
   Exactly when a window exceeds a given rate: in every run, its grants are above `rate` if
   and only if some call of the window brought a larger budget and asked for more permits
   than `rate` had left at that moment.
   */
  lemma {:induction false} OverrunExactlyWhen(window: nat, clock: nat, steps: seq<Step>, t: nat, rate: nat)
    requires window > 0
    ensures var calls := RunLedger(window, clock, steps).calls;
            var lo, hi := Start(t, window), End(t, window);
            GrantedIn(calls, lo, hi) > rate <==> SomeOverreach(calls, lo, hi, rate)
  {
    if steps != [] {
      var prior := steps[..|steps| - 1];
      OverrunExactlyWhen(window, clock, prior, t, rate);
      var w := RunLedger(window, clock, prior);
      var next := LedgerStep(window, w, steps[|steps| - 1]);
      if next.calls != w.calls {
        var c, lo, hi := next.calls[|w.calls|], Start(t, window), End(t, window);
        AppendCall(w.calls, c, lo, hi);
        OverreachAppend(w.calls, c, lo, hi, rate);
        SameWindow(t, w.now, window);
      }
    }
  }

  /** A call gets the smaller of what it asked and what its budget still has, and waits only if short. */
  predicate DecidedRight(calls: seq<Call>, window: nat, k: nat)
    requires window > 0 && k < |calls|
  {
    var c, lo := calls[k], Start(calls[k].at, window);
    var used := GrantedIn(calls[..k], lo, lo + window);
    && c.decision.granted == (if used >= c.requests then 0 else if c.requests - used <= c.permits then c.requests - used else c.permits)
    && c.decision.retryAfter == (if c.decision.granted == c.permits then 0 else (lo + window - c.at) * 1_000)
  }

  /** The answer to every call of every run, in terms of the calls before it. */
  lemma {:induction false} LedgerDecidesRight(window: nat, clock: nat, steps: seq<Step>, k: nat)
    requires window > 0
    requires k < |RunLedger(window, clock, steps).calls|
    ensures DecidedRight(RunLedger(window, clock, steps).calls, window, k)
  {
    var prior := steps[..|steps| - 1];
    var w, calls := RunLedger(window, clock, prior), RunLedger(window, clock, steps).calls;
    if k < |w.calls| {
      LedgerDecidesRight(window, clock, prior, k);
      assert calls[..k] == w.calls[..k] && calls[k] == w.calls[k];
    } else {
      assert calls[..k] == w.calls;
    }
  }

  /**
   Refusals are justified: in every run, a call granted less than it asked for leaves its
   window used up, so no permit is withheld that the budget still had.
   */
  lemma {:induction false} LedgerRefusalsJustified(window: nat, clock: nat, steps: seq<Step>, k: nat)
    requires window > 0
    requires k < |RunLedger(window, clock, steps).calls|
    requires var c := RunLedger(window, clock, steps).calls[k]; c.decision.granted < c.permits
    ensures var calls := RunLedger(window, clock, steps).calls;
            GrantedIn(calls[..k + 1], Start(calls[k].at, window), End(calls[k].at, window)) >= calls[k].requests
  {
    var prior := steps[..|steps| - 1];
    var w, calls := RunLedger(window, clock, prior), RunLedger(window, clock, steps).calls;
    if k < |w.calls| {
      assert calls[..k + 1] == w.calls[..k + 1];
      LedgerRefusalsJustified(window, clock, prior, k);
    } else {
      assert calls[..k + 1] == w.calls + [calls[k]];
      AppendCall(w.calls, calls[k], Start(w.now, window), End(w.now, window));
      SameWindow(w.now, w.now, window);
    }
  }

  // ---- the Redis script refines the ledger ----

  predicate BeforeAll(calls: seq<Call>, t: int) {
    forall i :: 0 <= i < |calls| ==> calls[i].at < t
  }

  /** What the expiring key still knows about the history. */
  predicate KeyKnows(window: nat, w: RedisWorld)
    requires window > 0
  {
    && BeforeAll(w.calls, w.now + 1)
    && if WindowField in w.key.fields then
         var start := w.key.fields[WindowField];
         && Aligned(start, window)
         && start <= w.now
         && CountField in w.key.fields
         && w.key.fields[CountField] == GrantedIn(w.calls, start, start + window)
         && w.key.deadline.Some?
         && start + window <= w.key.deadline.value
         && BeforeAll(w.calls, start + window)
       else
         w.key == NO_KEY && BeforeAll(w.calls, Start(w.now, window))
  }

  /** What the key records for the current window is what was granted in it. */
  lemma RecordedIsGranted(window: nat, w: RedisWorld)
    requires window > 0
    requires KeyKnows(window, w)
    ensures Recorded(w.key, Start(w.now, window)) ==
            GrantedIn(w.calls, Start(w.now, window), End(w.now, window))
  {
    var start := Start(w.now, window);
    if WindowField in w.key.fields && w.key.fields[WindowField] != start {
      WindowsDisjoint(w.key.fields[WindowField], w.now, window);
      NothingOutside(w.calls, start, start + window);
    } else if WindowField !in w.key.fields {
      NothingOutside(w.calls, start, start + window);
    }
  }

  /** The script leaves the current window, its whole count and a deadline in the key. */
  lemma AcquireWrites(h: Hash, now: nat, window: nat, granted: nat)
    requires window > 0 && RoundingSafe(window)
    requires WindowField in h.fields ==> CountField in h.fields
    ensures var after := AfterAcquire(h, now, window, granted);
            && WindowField in after.fields && after.fields[WindowField] == Start(now, window)
            && CountField in after.fields && after.fields[CountField] == Recorded(h, Start(now, window)) + granted
            && after.deadline.Some? && End(now, window) <= after.deadline.value
  {
    DeadlineCoversWindow(now, window);
  }

  lemma BeforeAllLater(calls: seq<Call>, t: int, u: int)
    requires BeforeAll(calls, t) && t <= u
    ensures BeforeAll(calls, u)
  {
  }

  lemma BeforeAllAppend(calls: seq<Call>, c: Call, t: int)
    requires BeforeAll(calls, t) && c.at < t
    ensures BeforeAll(calls + [c], t)
  {
  }

  lemma KnownCount(window: nat, w: RedisWorld)
    requires window > 0
    requires KeyKnows(window, w)
    ensures WindowField in w.key.fields ==> CountField in w.key.fields
  {
  }

  /** A key that holds the current window, its whole count and a deadline knows the history. */
  lemma WrittenKnows(window: nat, w: RedisWorld)
    requires window > 0
    requires BeforeAll(w.calls, w.now + 1)
    requires WindowField in w.key.fields && w.key.fields[WindowField] == Start(w.now, window)
    requires CountField in w.key.fields
    requires w.key.fields[CountField] == GrantedIn(w.calls, Start(w.now, window), End(w.now, window))
    requires w.key.deadline.Some? && End(w.now, window) <= w.key.deadline.value
    ensures KeyKnows(window, w)
  {
    SameWindow(w.now, w.now, window);
    BeforeAllLater(w.calls, w.now + 1, End(w.now, window));
  }

  /** What a valid request makes of the key and the history. */
  lemma AcquireStep(window: nat, w: RedisWorld, requests: int, permits: int) returns (c: Call)
    requires window > 0
    requires Valid(requests, permits, window)
    ensures c.at == w.now && c.requests == requests && c.permits == permits
    ensures c.decision.granted == Grant(Recorded(w.key, Start(w.now, window)), requests, permits)
    ensures RedisStep(window, w, Acquire(requests, permits)) ==
            RedisWorld(w.now, AfterAcquire(w.key, w.now, window, c.decision.granted), w.calls + [c])
  {
    var granted := Grant(Recorded(w.key, Start(w.now, window)), requests, permits);
    c := Call(w.now, requests, permits, Answer(w.now, window, granted, permits));
  }

  lemma KeyKnowsAcquire(window: nat, w: RedisWorld, requests: int, permits: int)
    requires window > 0 && RoundingSafe(window)
    requires KeyKnows(window, w)
    requires Valid(requests, permits, window)
    ensures KeyKnows(window, RedisStep(window, w, Acquire(requests, permits)))
  {
    var c := AcquireStep(window, w, requests, permits);
    var next := RedisWorld(w.now, AfterAcquire(w.key, w.now, window, c.decision.granted), w.calls + [c]);
    RecordedIsGranted(window, w);
    KnownCount(window, w);
    AcquireWrites(w.key, w.now, window, c.decision.granted);
    AppendCall(w.calls, c, Start(w.now, window), End(w.now, window));
    BeforeAllAppend(w.calls, c, w.now + 1);
    WrittenKnows(window, next);
  }

  lemma KeyKnowsStep(window: nat, w: RedisWorld, step: Step)
    requires window > 0 && RoundingSafe(window)
    requires KeyKnows(window, w)
    ensures KeyKnows(window, RedisStep(window, w, step))
  {
    var next := RedisStep(window, w, step);
    match step
    case Tick(to) =>
      StartMonotone(w.now, next.now, window);
    case Expire =>
      if next.key != w.key {
        WindowsDisjoint(w.key.fields[WindowField], w.now, window);
        SameWindow(w.key.fields[WindowField], w.now, window);
      }
    case Acquire(requests, permits) =>
      if Valid(requests, permits, window) {
        KeyKnowsAcquire(window, w, requests, permits);
      }
  }

  /**
   Refinement: in every run, with the clock moving forward and the key free to vanish
   from its deadline on, the script decides as the ledger that never forgets.
   */
  lemma {:induction false} RedisRefinesLedger(window: nat, clock: nat, steps: seq<Step>)
    requires window > 0 && RoundingSafe(window)
    ensures KeyKnows(window, RunRedis(window, clock, steps))
    ensures RunRedis(window, clock, steps).now == RunLedger(window, clock, steps).now
    ensures RunRedis(window, clock, steps).calls == RunLedger(window, clock, steps).calls
  {
    if steps != [] {
      var prior := steps[..|steps| - 1];
      RedisRefinesLedger(window, clock, prior);
      var w := RunRedis(window, clock, prior);
      KeyKnowsStep(window, w, steps[|steps| - 1]);
      RecordedIsGranted(window, w);
    }
  }

  /** The budget theorem for the shared Redis limiter. */
  lemma RedisWindowBudget(window: nat, clock: nat, steps: seq<Step>, t: nat)
    requires window > 0 && RoundingSafe(window)
    ensures var calls := RunRedis(window, clock, steps).calls;
            GrantedIn(calls, Start(t, window), End(t, window)) <=
            BudgetIn(calls, Start(t, window), End(t, window))
  {
    RedisRefinesLedger(window, clock, steps);
    LedgerWindowBudget(window, clock, steps, t);
  }

  lemma RedisSlidingBudget(window: nat, clock: nat, steps: seq<Step>, from: nat, k: nat, budget: nat)
    requires window > 0 && RoundingSafe(window)
    requires forall c :: c in RunRedis(window, clock, steps).calls ==> c.requests <= budget
    ensures GrantedIn(RunRedis(window, clock, steps).calls, from, from + k * window) <= (k + 1) * budget
  {
    RedisRefinesLedger(window, clock, steps);
    LedgerSlidingBudget(window, clock, steps, from, k, budget);
  }

  lemma RedisDecidesRight(window: nat, clock: nat, steps: seq<Step>, k: nat)
    requires window > 0 && RoundingSafe(window)
    requires k < |RunRedis(window, clock, steps).calls|
    ensures DecidedRight(RunRedis(window, clock, steps).calls, window, k)
  {
    RedisRefinesLedger(window, clock, steps);
    LedgerDecidesRight(window, clock, steps, k);
  }

  lemma RedisRefusalsJustified(window: nat, clock: nat, steps: seq<Step>, k: nat)
    requires window > 0 && RoundingSafe(window)
    requires k < |RunRedis(window, clock, steps).calls|
    requires var c := RunRedis(window, clock, steps).calls[k]; c.decision.granted < c.permits
    ensures var calls := RunRedis(window, clock, steps).calls;
            GrantedIn(calls[..k + 1], Start(calls[k].at, window), End(calls[k].at, window)) >= calls[k].requests
  {
    RedisRefinesLedger(window, clock, steps);
    LedgerRefusalsJustified(window, clock, steps, k);
  }

  lemma RedisOverrunExactlyWhen(window: nat, clock: nat, steps: seq<Step>, t: nat, rate: nat)
    requires window > 0 && RoundingSafe(window)
    ensures var calls := RunRedis(window, clock, steps).calls;
            var lo, hi := Start(t, window), End(t, window);
            GrantedIn(calls, lo, hi) > rate <==> SomeOverreach(calls, lo, hi, rate)
  {
    RedisRefinesLedger(window, clock, steps);
    OverrunExactlyWhen(window, clock, steps, t, rate);
  }

  /** One request for each attempt, at its time. */
  function Attempts(lost: seq<nat>, requests: int, permits: int): seq<Step> {
    if lost == [] then [] else Attempts(lost[..|lost| - 1], requests, permits) + [Tick(lost[|lost| - 1]), Acquire(requests, permits)]
  }

  function RedisSteps(window: nat, w: RedisWorld, steps: seq<Step>): RedisWorld
    requires window > 0
  {
    if steps == [] then w else RedisStep(window, RedisSteps(window, w, steps[..|steps| - 1]), steps[|steps| - 1])
  }

  lemma TwoMore(window: nat, w: RedisWorld, steps: seq<Step>, a: Step, b: Step)
    requires window > 0
    ensures RedisSteps(window, w, steps + [a, b]) == RedisStep(window, RedisStep(window, RedisSteps(window, w, steps), a), b)
  {
    var one := steps + [a];
    assert steps + [a, b] == one + [b];
    assert (one + [b])[..|one|] == one && one[..|steps|] == steps;
  }

  /** Attempts that ran unanswered leave the key as that many calls of their own would. */
  lemma {:induction false} LostAreCalls(window: nat, w: RedisWorld, lost: seq<nat>, requests: int, permits: int)
    requires window > 0 && Valid(requests, permits, window)
    requires forall i :: 0 <= i < |lost| ==> w.now <= lost[i]
    requires forall i, j :: 0 <= i < j < |lost| ==> lost[i] <= lost[j]
    ensures var after := RedisSteps(window, w, Attempts(lost, requests, permits));
            && AfterLost(w.key, lost, window, requests, permits) == after.key
            && |after.calls| == |w.calls| + |lost|
            && after.now == if lost == [] then w.now else lost[|lost| - 1]
  {
    if lost != [] {
      var n := |lost| - 1;
      LostAreCalls(window, w, lost[..n], requests, permits);
      TwoMore(window, w, Attempts(lost[..n], requests, permits), Tick(lost[n]), Acquire(requests, permits));
    }
  }

  ghost predicate DecidesAsLedger(window: nat, clock: nat, steps: seq<Step>)
    requires window > 0
  {
    RunRedis(window, clock, steps).calls == RunLedger(window, clock, steps).calls
  }

  ghost predicate KeepsBudget(window: nat, clock: nat, steps: seq<Step>, t: nat)
    requires window > 0
  {
    var calls := RunRedis(window, clock, steps).calls;
    GrantedIn(calls, Start(t, window), End(t, window)) <= BudgetIn(calls, Start(t, window), End(t, window))
  }

  lemma RedisRunExtends(window: nat, clock: nat, steps: seq<Step>, step: Step)
    requires window > 0
    ensures RunRedis(window, clock, steps + [step]) == RedisStep(window, RunRedis(window, clock, steps), step)
  {
    assert (steps + [step])[..|steps|] == steps;
  }

  lemma RunPrefixes(window: nat, clock: nat, a: Step, b: Step, c: Step, d: Step)
    requires window > 0
    ensures var w := RedisStep(window, RedisWorld(clock, NO_KEY, []), a);
            RunRedis(window, clock, [a, b, c, d]) ==
            RedisStep(window, RedisStep(window, RedisStep(window, w, b), c), d)
  {
    assert [a] == [] + [a] && [a, b] == [a] + [b] && [a, b, c] == [a, b] + [c] && [a, b, c, d] == [a, b, c] + [d];
    RedisRunExtends(window, clock, [], a);
    RedisRunExtends(window, clock, [a], b);
    RedisRunExtends(window, clock, [a, b], c);
    RedisRunExtends(window, clock, [a, b, c], d);
  }

  /** On an absent key the whole of a small budget is there. */
  lemma GrantOnAbsentKey(window: nat, now: nat, calls: seq<Call>)
    requires window > 0
    ensures var next := RedisStep(window, RedisWorld(now, NO_KEY, calls), Acquire(1, 1));
            && next.now == now
            && next.calls == calls + [Call(now, 1, 1, Decision(1, 0))]
            && next.key.deadline == Some(WindowDeadline(now, window))
  {
    var c := AcquireStep(window, RedisWorld(now, NO_KEY, calls), 1, 1);
    assert Valid(1, 1, window);
  }

  lemma TwoGrants(window: nat, a: nat, b: nat)
    requires window > 0
    requires Start(a, window) <= b < End(a, window)
    ensures var calls := [Call(a, 1, 1, Decision(1, 0))] + [Call(b, 1, 1, Decision(1, 0))];
            GrantedIn(calls, Start(a, window), End(a, window)) == 2 && BudgetIn(calls, Start(a, window), End(a, window)) == 1
  {
    var c, d := Call(a, 1, 1, Decision(1, 0)), Call(b, 1, 1, Decision(1, 0));
    assert [] + [c] == [c];
    AppendCall([], c, Start(a, window), End(a, window));
    AppendCall([c], d, Start(a, window), End(a, window));
  }

  /** Between two calls the key of the first one vanishes. */
  lemma CallsAroundExpiry(window: nat, clock: nat, later: nat)
    requires window > 0
    requires clock <= later && WindowDeadline(clock, window) <= later
    ensures RunRedis(window, clock, [Acquire(1, 1), Tick(later), Expire, Acquire(1, 1)]).calls ==
            [Call(clock, 1, 1, Decision(1, 0))] + [Call(later, 1, 1, Decision(1, 0))]
  {
    var first := [Call(clock, 1, 1, Decision(1, 0))];
    RunPrefixes(window, clock, Acquire(1, 1), Tick(later), Expire, Acquire(1, 1));
    GrantOnAbsentKey(window, clock, []);
    GrantOnAbsentKey(window, later, first);
    var w := RedisStep(window, RedisWorld(clock, NO_KEY, []), Acquire(1, 1));
    assert w.calls == first;
    assert RedisStep(window, RedisStep(window, w, Tick(later)), Expire) == RedisWorld(later, NO_KEY, first);
  }

  /** A run that grants a budget of one twice in one window, the key having vanished in between. */
  lemma KeyLostEarly(window: nat) returns (clock: nat, steps: seq<Step>)
    requires window > 0 && !RoundingSafe(window)
    ensures !KeepsBudget(window, clock, steps, clock)
  {
    clock := EarlyDeadline(window);
    var later := Max(clock, WindowDeadline(clock, window));
    steps := [Acquire(1, 1), Tick(later), Expire, Acquire(1, 1)];
    CallsAroundExpiry(window, clock, later);
    TwoGrants(window, clock, later);
  }

  /**
   Exactly when the script is a fixed-window limiter: it decides as the ledger in every run,
   and keeps its budget in every window of every run, if and only if rounding the TTL to
   milliseconds is safe for the window.
   */
  lemma RefinesExactly(window: nat)
    requires window > 0
    ensures (forall clock, steps :: DecidesAsLedger(window, clock, steps)) <==> RoundingSafe(window)
    ensures (forall clock, steps, t :: KeepsBudget(window, clock, steps, t)) <==> RoundingSafe(window)
  {
    if RoundingSafe(window) {
      forall clock, steps ensures DecidesAsLedger(window, clock, steps) {
        RedisRefinesLedger(window, clock, steps);
      }
      forall clock, steps, t ensures KeepsBudget(window, clock, steps, t) {
        RedisWindowBudget(window, clock, steps, t);
      }
    } else {
      var clock, steps := KeyLostEarly(window);
      LedgerWindowBudget(window, clock, steps, clock);
      assert !DecidesAsLedger(window, clock, steps);
    }
  }

  // ---- LocalLimiter refines the ledger ----

  lemma BoundaryAgrees(window: nat, now: nat)
    requires window > 0
    requires EPOCH % window == 0
    ensures Start(LocalTime(now), window * NANOS_PER_MICRO) == LocalTime(Start(now, window))
  {
    StartIsRemainder(EPOCH, window);
    WindowInNanos(LocalTime(now), window);
    assert LocalTime(now) / 1000 == now + EPOCH;
    ShiftByBoundary(now, EPOCH, window);
  }

  /**
   Truncation from year 1 cuts time where truncation from the Unix epoch does exactly
   when the window divides the distance between the two.
   */
  lemma SharedBoundaries(window: nat)
    requires window > 0
    ensures (forall now: nat :: Start(LocalTime(now), window * NANOS_PER_MICRO) == LocalTime(Start(now, window)))
            <==> EPOCH % window == 0
  {
    if EPOCH % window == 0 {
      forall now: nat
        ensures Start(LocalTime(now), window * NANOS_PER_MICRO) == LocalTime(Start(now, window))
      {
        BoundaryAgrees(window, now);
      }
    } else {
      WindowInNanos(LocalTime(0), window);
      StartIsRemainder(EPOCH, window);
      assert Start(LocalTime(0), window * NANOS_PER_MICRO) != LocalTime(Start(0, window));
    }
  }

  /** The local fields hold the window starting at `start` and what was granted in it. */
  predicate LocalHolds(window: nat, w: LocalWorld, start: nat)
    requires window > 0
  {
    && Aligned(start, window)
    && start <= w.now
    && w.state == LocalState(window * NANOS_PER_MICRO, LocalTime(start), GrantedIn(w.calls, start, start + window))
    && BeforeAll(w.calls, start + window)
  }

  ghost predicate LocalKnows(window: nat, w: LocalWorld)
    requires window > 0
  {
    && BeforeAll(w.calls, w.now + 1)
    && ((w.state == NEW_LOCAL && w.calls == []) || exists start: nat :: LocalHolds(window, w, start))
  }

  lemma LocalUsedIsGranted(window: nat, w: LocalWorld)
    requires window > 0
    requires EPOCH % window == 0
    requires LocalKnows(window, w)
    ensures LocalUsed(w.state, LocalTime(w.now), window * NANOS_PER_MICRO) ==
            GrantedIn(w.calls, Start(w.now, window), End(w.now, window))
  {
    BoundaryAgrees(window, w.now);
    if w.calls != [] {
      var start: nat :| LocalHolds(window, w, start);
      WindowsDisjoint(start, w.now, window);
      if start != Start(w.now, window) {
        NothingOutside(w.calls, Start(w.now, window), End(w.now, window));
      }
    }
  }

  lemma LocalKnowsAcquire(window: nat, w: LocalWorld, requests: int, permits: int)
    requires window > 0
    requires EPOCH % window == 0
    requires LocalKnows(window, w)
    requires Valid(requests, permits, window)
    ensures LocalKnows(window, LocalStep(window, w, Acquire(requests, permits)))
  {
    var next := LocalStep(window, w, Acquire(requests, permits));
    var start := Start(w.now, window);
    LocalUsedIsGranted(window, w);
    BoundaryAgrees(window, w.now);
    AppendCall(w.calls, next.calls[|w.calls|], start, start + window);
    SameWindow(w.now, w.now, window);
    assert LocalHolds(window, next, start);
  }

  lemma LocalKnowsStep(window: nat, w: LocalWorld, step: Step)
    requires window > 0
    requires EPOCH % window == 0
    requires LocalKnows(window, w)
    ensures LocalKnows(window, LocalStep(window, w, step))
  {
    match step
    case Tick(to) =>
      if exists start: nat :: LocalHolds(window, w, start) {
        var start: nat :| LocalHolds(window, w, start);
        assert LocalHolds(window, LocalStep(window, w, step), start);
      }
    case Expire =>
    case Acquire(requests, permits) =>
      if Valid(requests, permits, window) {
        LocalKnowsAcquire(window, w, requests, permits);
      }
  }

  lemma {:induction false} LocalRefinesLedger(window: nat, clock: nat, steps: seq<Step>)
    requires window > 0
    requires EPOCH % window == 0
    ensures LocalKnows(window, RunLocal(window, clock, steps))
    ensures RunLocal(window, clock, steps).now == RunLedger(window, clock, steps).now
    ensures RunLocal(window, clock, steps).calls == RunLedger(window, clock, steps).calls
  {
    if steps != [] {
      var prior := steps[..|steps| - 1];
      LocalRefinesLedger(window, clock, prior);
      var w := RunLocal(window, clock, prior);
      LocalKnowsStep(window, w, steps[|steps| - 1]);
      LocalUsedIsGranted(window, w);
      BoundaryAgrees(window, w.now);
    }
  }

  /** How far apart the two zero times are. */
  lemma EpochInDays()
    ensures EPOCH == 719_162 * 24 * 60 * 60 * 1_000_000
  {
  }

  lemma LocalDecidesRight(window: nat, clock: nat, steps: seq<Step>, k: nat)
    requires window > 0 && EPOCH % window == 0
    requires k < |RunLocal(window, clock, steps).calls|
    ensures DecidedRight(RunLocal(window, clock, steps).calls, window, k)
  {
    LocalRefinesLedger(window, clock, steps);
    LedgerDecidesRight(window, clock, steps, k);
  }

  lemma LocalRefusalsJustified(window: nat, clock: nat, steps: seq<Step>, k: nat)
    requires window > 0 && EPOCH % window == 0
    requires k < |RunLocal(window, clock, steps).calls|
    requires var c := RunLocal(window, clock, steps).calls[k]; c.decision.granted < c.permits
    ensures var calls := RunLocal(window, clock, steps).calls;
            GrantedIn(calls[..k + 1], Start(calls[k].at, window), End(calls[k].at, window)) >= calls[k].requests
  {
    LocalRefinesLedger(window, clock, steps);
    LedgerRefusalsJustified(window, clock, steps, k);
  }

  /**
   The two backends are interchangeable on the scheduler's one-minute window: the same
   calls at the same times get the same grants and the same retry delays, wherever the
   Redis key expires in between.
   */
  lemma BackendsAgree(clock: nat, steps: seq<Step>)
    ensures RunLocal(MINUTE, clock, steps).calls == RunRedis(MINUTE, clock, steps).calls
  {
    assert EPOCH % MINUTE == 0;
    LocalRefinesLedger(MINUTE, clock, steps);
    RedisRefinesLedger(MINUTE, clock, steps);
  }
}
