/**
 One runner's loop: read the rate, reserve a batch, execute the granted slots with the
 profile's delays in between, and start again. The endless outer loop is a step machine;
 `now` is a shared clock in nanoseconds, whose whole microseconds Redis sees. A wait
 lasts at least as long as requested.
 */
module Scheduler {
  import opened Results
  import opened Windows
  import opened RateLimit
  import Profile
  import WeightedPicker
  import RedisHash
  import Ledger

  const MAX_RPM: nat := 6_000
  const RETRY_SECOND: nat := 1_000_000_000

  /** currentRequestsPerMinute: schedule errors and rates out of range are refused. */
  function AcceptRpm(outcome: Option<nat>): (rpm: Option<nat>)
    ensures rpm.Some? <==> outcome.Some? && 1 <= outcome.value <= 6_000
    ensures rpm.Some? ==> rpm == outcome
  {
    if outcome.Some? && 1 <= outcome.value <= MAX_RPM then outcome else None
  }

  /** reserveBatch: what the loop sees of the limiter's answer to a batch. */
  function AcceptDecision(rpm: nat, batch: nat, outcome: Option<Decision>): (decision: Option<Decision>)
    ensures decision.Some? <==> 1 <= batch <= rpm && outcome.Some? && outcome.value.granted <= batch
    ensures decision.Some? ==> decision == outcome
  {
    if batch < 1 || batch > rpm then None
    else if outcome.None? then None
    else if outcome.value.granted > batch then None
    else outcome
  }

  /** The wait after the slot at `position`: the profile's delay, at the end at least the retry delay. */
  function SlotDelay(p: Profile.Profile, rpm: nat, decision: Decision, position: nat, draw: nat): (wait: nat)
    requires Profile.Valid(p) && 1 <= rpm <= MAX_RPM && Profile.DelayDraw(p, rpm, draw)
    requires decision.granted >= 1
    ensures wait >= 1
    ensures wait >= Profile.NextDelay(p, rpm, position, decision.granted, draw)
    ensures position == decision.granted ==> wait >= decision.retryAfter
    ensures wait == Profile.NextDelay(p, rpm, position, decision.granted, draw) ||
            (position == decision.granted && wait == decision.retryAfter)
  {
    Profile.DelayPositive(p, rpm, position, decision.granted, draw);
    var delay := Profile.NextDelay(p, rpm, position, decision.granted, draw);
    if position == decision.granted && decision.retryAfter > delay then decision.retryAfter else delay
  }

  /** The inner loop of Run over one granted batch, with the environment's answers as arguments. */
  method RunBatch(p: Profile.Profile, rpm: nat, decision: Decision, draws: seq<nat>, waitCompletes: nat -> bool,
                  weights: seq<nat>, intN: (nat, nat, nat) -> nat, unavailable: (nat, nat, nat) -> bool)
    returns (waits: seq<nat>, executions: seq<seq<nat>>, completed: bool)
    requires Profile.Valid(p) && 1 <= rpm <= MAX_RPM
    requires |draws| == decision.granted
    requires forall d :: d in draws ==> Profile.DelayDraw(p, rpm, d)
    requires |weights| >= 1 && forall i :: 0 <= i < |weights| ==> weights[i] >= 1
    requires forall slot: nat, attempt: nat, n: nat :: n > 0 ==> intN(slot, attempt, n) < n
    ensures |executions| == |waits| <= decision.granted
    ensures completed ==> |executions| == decision.granted
    ensures !completed ==> |waits| > 0 && !waitCompletes(|waits|)
    ensures forall k :: 1 <= k < |waits| || (k == |waits| && k > 0 && completed) ==> waitCompletes(k)
    ensures forall k :: 0 <= k < |waits| ==> waits[k] == SlotDelay(p, rpm, decision, k + 1, draws[k])
    ensures forall k :: 0 <= k < |executions| ==>
              WeightedPicker.SlotRan(weights, k + 1, intN, executions[k], unavailable)
  {
    waits, executions := [], [];
    var position := 1;
    while position <= decision.granted
      invariant 1 <= position <= decision.granted + 1
      invariant |waits| == |executions| == position - 1
      invariant forall k :: 1 <= k < position ==> waitCompletes(k)
      invariant forall k :: 0 <= k < |waits| ==> waits[k] == SlotDelay(p, rpm, decision, k + 1, draws[k])
      invariant forall k :: 0 <= k < |executions| ==>
                  WeightedPicker.SlotRan(weights, k + 1, intN, executions[k], unavailable)
    {
      var order := WeightedPicker.ExecuteReservedSlot(weights, position, intN, unavailable);
      executions := executions + [order];
      assert draws[position - 1] in draws;
      Profile.DelayPositive(p, rpm, position, decision.granted, draws[position - 1]);
      var delay: nat := Profile.NextDelay(p, rpm, position, decision.granted, draws[position - 1]);
      if position == decision.granted && decision.retryAfter > delay {
        delay := decision.retryAfter;
      }
      waits := waits + [delay];
      if !waitCompletes(position) {
        return waits, executions, false;
      }
      position := position + 1;
    }
    completed := true;
  }

  // ---- the step machine of Run ----

  datatype Phase =
    | Ready(wakeAt: nat)
    | Resolved(rpm: nat)
    | Batch(rpm: nat, decision: Decision, position: nat, wakeAt: nat)
    | Stopped

  datatype Action =
    | Resolve(rate: Option<nat>)
    | Reserve(batchDraw: nat, answer: Option<Decision>)
    | Execute(delayDraw: nat)
    | Stop

  /**
   What a limiter may answer: it never grants more than asked, and an answer short of
   the request carries a delay that reaches the end of the current minute.
   */
  predicate Honest(now: nat, batch: nat, d: Decision) {
    && d.granted <= batch
    && (d.granted < batch ==> End(now / NANOS_PER_MICRO, MINUTE) * NANOS_PER_MICRO <= now + d.retryAfter)
  }

  /** Whether the loop, at `now`, can take the action. */
  predicate Enabled(p: Profile.Profile, phase: Phase, now: nat, action: Action)
    requires Profile.Valid(p)
  {
    match action
    case Resolve(_) => phase.Ready? && phase.wakeAt <= now
    case Reserve(draw, outcome) =>
      && phase.Resolved? && Profile.BatchDraw(p, phase.rpm, draw)
      && (outcome.Some? ==> Honest(now, Profile.BatchSize(p, phase.rpm, draw), outcome.value))
    case Execute(draw) =>
      && phase.Batch? && phase.wakeAt <= now
      && 1 <= phase.rpm <= MAX_RPM && 1 <= phase.decision.granted
      && Profile.DelayDraw(p, phase.rpm, draw)
    case Stop => true
  }

  function AfterResolve(rate: Option<nat>, now: nat): Phase {
    var rpm := AcceptRpm(rate);
    if rpm.None? then Ready(now + RETRY_SECOND) else Resolved(rpm.value)
  }

  /** A rejection without a delay, which no honest limiter gives, counts as a second. */
  function AfterReserve(rpm: nat, accepted: Option<Decision>, now: nat): (phase: Phase)
    ensures accepted == Some(Decision(0, 0)) ==> phase == Ready(now + 1_000_000_000)
  {
    if accepted.None? then Ready(now + RETRY_SECOND)
    else
      var decision := accepted.value;
      if decision.granted == 0 then
        Ready(now + if decision.retryAfter <= 0 then RETRY_SECOND else decision.retryAfter)
      else Batch(rpm, decision, 1, now)
  }

  /** The slot at the batch's position has been executed and the wait of `delay` begins. */
  function AfterExecute(batch: Phase, now: nat, delay: nat): Phase
    requires batch.Batch?
  {
    if batch.position == batch.decision.granted then Ready(now + delay)
    else Batch(batch.rpm, batch.decision, batch.position + 1, now + delay)
  }

  function After(p: Profile.Profile, phase: Phase, now: nat, action: Action): Phase
    requires Profile.Valid(p)
    requires Enabled(p, phase, now, action)
  {
    match action
    case Resolve(rate) => AfterResolve(rate, now)
    case Reserve(draw, answer) =>
      AfterReserve(phase.rpm, AcceptDecision(phase.rpm, Profile.BatchSize(p, phase.rpm, draw), answer), now)
    case Execute(draw) =>
      AfterExecute(phase, now, SlotDelay(p, phase.rpm, phase.decision, phase.position, draw))
    case Stop => Stopped
  }

  // ---- the inner loop and the step machine ----

  /** The phase after the first `n` slots of a batch granted at `granted`, executed at given times. */
  function AfterSlots(p: Profile.Profile, rpm: nat, decision: Decision, granted: nat,
                      times: seq<nat>, draws: seq<nat>, n: nat): Phase
    requires Profile.Valid(p)
    requires n <= |times| && n <= |draws|
  {
    if n == 0 then Batch(rpm, decision, 1, granted)
    else
      var before := AfterSlots(p, rpm, decision, granted, times, draws, n - 1);
      var slot := Execute(draws[n - 1]);
      if Enabled(p, before, times[n - 1], slot) then After(p, before, times[n - 1], slot) else before
  }

  /** Slots run one after another, none before the wait after the previous one is over. */
  predicate InTurn(granted: nat, times: seq<nat>, waits: seq<nat>)
    requires |waits| == |times|
  {
    && (times != [] ==> granted <= times[0])
    && forall k :: 0 < k < |times| ==> times[k - 1] + waits[k - 1] <= times[k]
  }

  /**
   The inner loop is the machine's: executing the slots of a batch in turn with the waits of
   `RunBatch` is one enabled Execute action for each, and after the last the loop is at its
   top, ready when that wait is over.
   */
  lemma {:induction false} SlotsAreActions(p: Profile.Profile, rpm: nat, decision: Decision, granted: nat,
                                           times: seq<nat>, draws: seq<nat>, waits: seq<nat>, n: nat)
    requires Profile.Valid(p) && 1 <= rpm <= MAX_RPM
    requires |times| == |draws| == |waits| == decision.granted && 1 <= n <= decision.granted
    requires forall d :: d in draws ==> Profile.DelayDraw(p, rpm, d)
    requires forall k :: 0 <= k < |waits| ==> waits[k] == SlotDelay(p, rpm, decision, k + 1, draws[k])
    requires InTurn(granted, times, waits)
    ensures Enabled(p, AfterSlots(p, rpm, decision, granted, times, draws, n - 1), times[n - 1], Execute(draws[n - 1]))
    ensures AfterSlots(p, rpm, decision, granted, times, draws, n) ==
            var wakeAt := times[n - 1] + waits[n - 1];
            if n == decision.granted then Ready(wakeAt) else Batch(rpm, decision, n + 1, wakeAt)
  {
    assert draws[n - 1] in draws;
    if n > 1 {
      SlotsAreActions(p, rpm, decision, granted, times, draws, waits, n - 1);
    }
  }

  // ---- runs of one runner against any honest limiter ----

  /** A batch reservation the runner received an answer to. */
  datatype Acquisition = Acquisition(at: nat, rpm: nat, batch: nat, decision: Decision)

  datatype Step = Tick(to: nat) | Act(action: Action)

  datatype World = World(now: nat, phase: Phase, log: seq<Acquisition>)

  /** A reservation whose answer the loop accepts is logged. */
  function LogAfter(p: Profile.Profile, w: World, action: Action): seq<Acquisition>
    requires Profile.Valid(p)
    requires Enabled(p, w.phase, w.now, action)
  {
    if action.Reserve? then
      var batch := Profile.BatchSize(p, w.phase.rpm, action.batchDraw);
      var accepted := AcceptDecision(w.phase.rpm, batch, action.answer);
      if accepted.Some? then w.log + [Acquisition(w.now, w.phase.rpm, batch, accepted.value)] else w.log
    else w.log
  }

  function Next(p: Profile.Profile, w: World, step: Step): World
    requires Profile.Valid(p)
  {
    match step
    case Tick(to) => w.(now := Max(w.now, to))
    case Act(action) =>
      if !Enabled(p, w.phase, w.now, action) then w
      else
        World(w.now, After(p, w.phase, w.now, action), LogAfter(p, w, action))
  }

  function Run(p: Profile.Profile, clock: nat, steps: seq<Step>): World
    requires Profile.Valid(p)
  {
    if steps == [] then World(clock, Ready(clock), [])
    else Next(p, Run(p, clock, steps[..|steps| - 1]), steps[|steps| - 1])
  }

  predicate InRange(phase: Phase) {
    match phase
    case Ready(_) => true
    case Resolved(rpm) => 1 <= rpm <= MAX_RPM
    case Batch(rpm, decision, position, _) =>
      1 <= rpm <= MAX_RPM && 1 <= position <= decision.granted <= rpm
    case Stopped => true
  }

  lemma {:induction false} PhaseInRange(p: Profile.Profile, clock: nat, steps: seq<Step>)
    requires Profile.Valid(p)
    ensures InRange(Run(p, clock, steps).phase)
  {
    if steps != [] {
      PhaseInRange(p, clock, steps[..|steps| - 1]);
    }
  }

  /** A batch never holds more permits than the profile's capacity. */
  lemma {:induction false} BatchWithinCapacity(p: Profile.Profile, clock: nat, steps: seq<Step>)
    requires Profile.Valid(p)
    ensures var phase := Run(p, clock, steps).phase;
            phase.Batch? ==> phase.decision.granted <= Profile.Capacity(p)
  {
    if steps != [] {
      BatchWithinCapacity(p, clock, steps[..|steps| - 1]);
    }
  }

  /** The wait of the phase is over; a runner that has just read its rate does not wait. */
  predicate Awake(phase: Phase, now: nat) {
    match phase
    case Ready(wakeAt) => wakeAt <= now
    case Resolved(_) => true
    case Batch(_, _, _, wakeAt) => wakeAt <= now
    case Stopped => false
  }

  ghost predicate CanProceed(p: Profile.Profile, phase: Phase, now: nat)
    requires Profile.Valid(p)
  {
    exists action: Action :: !action.Stop? && Enabled(p, phase, now, action)
  }

  /** At every rate the loop works with, the random source is never asked for an empty range. */
  lemma DrawsExist(p: Profile.Profile, rpm: nat)
    requires Profile.Valid(p) && 1 <= rpm <= MAX_RPM
    ensures Profile.BatchDraw(p, rpm, 0) && Profile.DelayDraw(p, rpm, 0)
  {
    Profile.MeanDelayBounds(rpm);
  }

  /** What a read of the rate leads to: the rate, or another try in a second. */
  lemma RateLeadsTo(p: Profile.Profile, w: World, rate: Option<nat>)
    requires Profile.Valid(p) && Enabled(p, w.phase, w.now, Resolve(rate))
    ensures Next(p, w, Act(Resolve(rate))).phase ==
            if rate.Some? && 1 <= rate.value <= 6_000 then Resolved(rate.value) else Ready(w.now + 1_000_000_000)
  {
  }

  /**
   What a reservation leads to: a failed one to another try in a second; a rejected one to a
   wait of exactly the limiter's delay; a granted one to its first slot at once. Decisions are
   logged.
   */
  lemma AnswerLeadsTo(p: Profile.Profile, w: World, draw: nat, answer: Option<Decision>)
    requires Profile.Valid(p) && Enabled(p, w.phase, w.now, Reserve(draw, answer)) && InRange(w.phase)
    ensures var next, rpm := Next(p, w, Act(Reserve(draw, answer))), w.phase.rpm;
            && next.now == w.now
            && (answer.None? ==> next.phase == Ready(w.now + 1_000_000_000) && next.log == w.log)
            && (answer.Some? ==> next.log == w.log + [Acquisition(w.now, rpm, Profile.BatchSize(p, rpm, draw), answer.value)])
            && (answer.Some? && answer.value.granted == 0 ==> next.phase == Ready(w.now + answer.value.retryAfter))
            && (answer.Some? && answer.value.granted > 0 ==>
                  && next.phase == Batch(rpm, answer.value, 1, w.now)
                  && Enabled(p, next.phase, w.now, Execute(0)))
  {
    if answer.Some? && answer.value.granted > 0 {
      DrawsExist(p, w.phase.rpm);
    }
  }

  /**
   The loop never gets stuck: in every reachable state that is not stopped both random draws
   have a result, and once the wait is over some action other than stopping can be taken.
   */
  lemma NeverStuck(p: Profile.Profile, clock: nat, steps: seq<Step>)
    requires Profile.Valid(p)
    ensures var w := Run(p, clock, steps);
            && (w.phase.Resolved? ==> Profile.BatchDraw(p, w.phase.rpm, 0))
            && (w.phase.Batch? ==> 1 <= w.phase.rpm && Profile.DelayDraw(p, w.phase.rpm, 0))
            && (Awake(w.phase, w.now) ==> CanProceed(p, w.phase, w.now))
  {
    var w := Run(p, clock, steps);
    PhaseInRange(p, clock, steps);
    if w.phase.Resolved? || w.phase.Batch? {
      DrawsExist(p, w.phase.rpm);
    }
    var action := match w.phase
      case Ready(_) => Resolve(None)
      case Resolved(_) => Reserve(0, None)
      case Batch(_, _, _, _) => Execute(0)
      case Stopped => Stop;
    assert Awake(w.phase, w.now) ==> !action.Stop? && Enabled(p, w.phase, w.now, action);
  }

  predicate Short(a: Acquisition) {
    a.decision.granted < a.batch
  }

  /** The end, in nanoseconds, of the limiter minute in which the acquisition fell. */
  function MinuteEnd(a: Acquisition): nat {
    End(a.at / NANOS_PER_MICRO, MINUTE) * NANOS_PER_MICRO
  }

  // ---- retry progress ----

  predicate ShortEndBy(log: seq<Acquisition>, t: nat) {
    forall i :: 0 <= i < |log| && Short(log[i]) ==> MinuteEnd(log[i]) <= t
  }

  predicate RetryKnows(w: World) {
    && (forall i, j :: 0 <= i < j < |w.log| && Short(w.log[i]) ==> MinuteEnd(w.log[i]) <= w.log[j].at)
    && (forall i :: 0 <= i < |w.log| ==> w.log[i].at <= w.now)
    && match w.phase
       case Ready(wakeAt) => ShortEndBy(w.log, wakeAt)
       case Resolved(_) => ShortEndBy(w.log, w.now)
       case Batch(_, decision, position, wakeAt) =>
         && |w.log| > 0
         && var last := w.log[|w.log| - 1];
         && last.decision == decision
         && position <= decision.granted
         && last.at <= wakeAt
         && (Short(last) ==> MinuteEnd(last) <= last.at + decision.retryAfter)
         && ShortEndBy(w.log[..|w.log| - 1], last.at)
       case Stopped => true
  }

  lemma RetryReserve(w: World, rpm: nat, batch: nat, d: Decision)
    requires RetryKnows(w) && w.phase.Resolved?
    requires Honest(w.now, batch, d)
    ensures RetryKnows(World(w.now, AfterReserve(rpm, Some(d), w.now), w.log + [Acquisition(w.now, rpm, batch, d)]))
  {
    var a := Acquisition(w.now, rpm, batch, d);
    var log := w.log + [a];
    assert log[..|w.log|] == w.log;
    assert Short(a) ==> MinuteEnd(a) <= w.now + d.retryAfter;
    assert ShortEndBy(w.log, w.now);
    if d.granted == 0 {
      assert Short(a) ==> d.retryAfter > 0;
    }
  }

  lemma RetryExecute(w: World, delay: nat)
    requires RetryKnows(w) && w.phase.Batch? && w.phase.wakeAt <= w.now
    requires w.phase.position == w.phase.decision.granted ==> w.phase.decision.retryAfter <= delay
    ensures RetryKnows(World(w.now, AfterExecute(w.phase, w.now, delay), w.log))
  {
    var log := w.log;
    assert log == log[..|log| - 1] + [log[|log| - 1]];
    assert forall i :: 0 <= i < |log| - 1 ==> log[..|log| - 1][i] == log[i];
  }

  /** Going back to the top of the loop, to wait or to reserve, keeps what was known before. */
  lemma RetryReturns(w: World, phase: Phase)
    requires RetryKnows(w) && (w.phase.Resolved? || (w.phase.Ready? && w.phase.wakeAt <= w.now))
    requires phase.Resolved? || (phase.Ready? && w.now <= phase.wakeAt)
    ensures RetryKnows(World(w.now, phase, w.log))
  {
  }

  lemma RetryKnowsAct(p: Profile.Profile, w: World, action: Action)
    requires Profile.Valid(p)
    requires RetryKnows(w) && Enabled(p, w.phase, w.now, action)
    ensures RetryKnows(World(w.now, After(p, w.phase, w.now, action), LogAfter(p, w, action)))
  {
    match action
    case Resolve(_) => RetryReturns(w, After(p, w.phase, w.now, action));
    case Stop =>
    case Reserve(draw, answer) =>
      var batch := Profile.BatchSize(p, w.phase.rpm, draw);
      var accepted := AcceptDecision(w.phase.rpm, batch, answer);
      if accepted.Some? {
        RetryReserve(w, w.phase.rpm, batch, accepted.value);
      } else {
        RetryReturns(w, After(p, w.phase, w.now, action));
      }
    case Execute(draw) =>
      RetryExecute(w, SlotDelay(p, w.phase.rpm, w.phase.decision, w.phase.position, draw));
  }

  lemma RetryKnowsStep(p: Profile.Profile, w: World, step: Step)
    requires Profile.Valid(p)
    requires RetryKnows(w)
    ensures RetryKnows(Next(p, w, step))
  {
    if step.Act? && Enabled(p, w.phase, w.now, step.action) {
      RetryKnowsAct(p, w, step.action);
    }
  }

  lemma {:induction false} RunRetryKnows(p: Profile.Profile, clock: nat, steps: seq<Step>)
    requires Profile.Valid(p)
    ensures RetryKnows(Run(p, clock, steps))
  {
    if steps != [] {
      RunRetryKnows(p, clock, steps[..|steps| - 1]);
      RetryKnowsStep(p, Run(p, clock, steps[..|steps| - 1]), steps[|steps| - 1]);
    }
  }

  lemma LaterMinute(a: Acquisition, t: nat)
    requires MinuteEnd(a) <= t
    ensures End(a.at / NANOS_PER_MICRO, MINUTE) <= Start(t / NANOS_PER_MICRO, MINUTE)
  {
    WindowsDisjoint(a.at / NANOS_PER_MICRO, t / NANOS_PER_MICRO, MINUTE);
  }

  /**
   Retry progress: after a rejected or partial decision the same runner is ready to reserve
   again only in a strictly later minute, whether or not that attempt is answered.
   */
  lemma RetryProgress(p: Profile.Profile, clock: nat, steps: seq<Step>, i: nat)
    requires Profile.Valid(p)
    requires Run(p, clock, steps).phase.Resolved?
    requires i < |Run(p, clock, steps).log| && Short(Run(p, clock, steps).log[i])
    ensures var w := Run(p, clock, steps);
            End(w.log[i].at / NANOS_PER_MICRO, MINUTE) <= Start(w.now / NANOS_PER_MICRO, MINUTE)
  {
    RunRetryKnows(p, clock, steps);
    LaterMinute(Run(p, clock, steps).log[i], Run(p, clock, steps).now);
  }

  /** So the decisions short of their batch lie in different minutes. */
  lemma OneShortPerMinute(p: Profile.Profile, clock: nat, steps: seq<Step>, i: nat, j: nat)
    requires Profile.Valid(p)
    requires i < j < |Run(p, clock, steps).log|
    requires Short(Run(p, clock, steps).log[i])
    ensures var log := Run(p, clock, steps).log;
            End(log[i].at / NANOS_PER_MICRO, MINUTE) <= Start(log[j].at / NANOS_PER_MICRO, MINUTE)
  {
    RunRetryKnows(p, clock, steps);
    LaterMinute(Run(p, clock, steps).log[i], Run(p, clock, steps).log[j].at);
  }

  // ---- pacing ----

  /** The time from the start of a batch to its slot after `k` waits, for fixed and burst profiles. */
  function Elapsed(p: Profile.Profile, rpm: nat, k: nat): nat
    requires Profile.Valid(p) && rpm >= 1
  {
    k * if p.Burst? then Profile.IntraBurstDelay(p.divisor, rpm) else Profile.MeanDelay(rpm)
  }

  function BatchTime(a: Acquisition): nat
    requires a.rpm >= 1
  {
    a.decision.granted * Profile.MeanDelay(a.rpm)
  }

  /** Every acquisition waited for the mean time of the batch before it. */
  predicate PacedLog(log: seq<Acquisition>) {
    && (forall i :: 0 <= i < |log| ==> 1 <= log[i].rpm <= MAX_RPM)
    && (forall i, j :: 0 <= i && j == i + 1 < |log| ==> log[i].at + BatchTime(log[i]) <= log[j].at)
  }

  predicate PacedBy(log: seq<Acquisition>, t: nat)
    requires PacedLog(log)
  {
    log != [] ==> log[|log| - 1].at + BatchTime(log[|log| - 1]) <= t
  }

  predicate PaceKnows(p: Profile.Profile, w: World)
    requires Profile.Valid(p)
  {
    && PacedLog(w.log)
    && match w.phase
       case Ready(wakeAt) => PacedBy(w.log, wakeAt)
       case Resolved(rpm) => 1 <= rpm <= MAX_RPM && PacedBy(w.log, w.now)
       case Batch(rpm, decision, position, wakeAt) =>
         && |w.log| > 0
         && var last := w.log[|w.log| - 1];
         && last.rpm == rpm && last.decision == decision
         && 1 <= position <= decision.granted
         && last.at + Elapsed(p, rpm, position - 1) <= wakeAt
       case Stopped => true
  }

  lemma PaceReserve(p: Profile.Profile, w: World, batch: nat, d: Decision)
    requires Profile.Valid(p) && PaceKnows(p, w) && w.phase.Resolved?
    ensures PaceKnows(p, World(w.now, AfterReserve(w.phase.rpm, Some(d), w.now),
                               w.log + [Acquisition(w.now, w.phase.rpm, batch, d)]))
  {
    var a := Acquisition(w.now, w.phase.rpm, batch, d);
    var log := w.log + [a];
    assert d.granted == 0 ==> BatchTime(a) == 0;
    assert Elapsed(p, w.phase.rpm, 0) == 0;
    assert PacedLog(log);
  }

  lemma PaceExecute(p: Profile.Profile, w: World, delay: nat)
    requires Profile.Valid(p) && PaceKnows(p, w) && w.phase.Batch? && w.phase.wakeAt <= w.now
    requires var b := w.phase;
             if b.position < b.decision.granted
             then Elapsed(p, b.rpm, b.position - 1) + delay == Elapsed(p, b.rpm, b.position)
             else Elapsed(p, b.rpm, b.position - 1) + delay >= BatchTime(w.log[|w.log| - 1])
    ensures PaceKnows(p, World(w.now, AfterExecute(w.phase, w.now, delay), w.log))
  {
  }

  /** One more wait inside the batch, or the last one, which completes the batch's mean time. */
  lemma SlotDelayAdvances(p: Profile.Profile, rpm: nat, decision: Decision, position: nat, draw: nat)
    requires Profile.Valid(p) && !p.Uniform?
    requires 1 <= rpm <= MAX_RPM
    requires 1 <= position <= decision.granted
    ensures var delay := SlotDelay(p, rpm, decision, position, draw);
            if position < decision.granted
            then Elapsed(p, rpm, position - 1) + delay == Elapsed(p, rpm, position)
            else Elapsed(p, rpm, position - 1) + delay >= decision.granted * Profile.MeanDelay(rpm)
  {
    var unit := Elapsed(p, rpm, 1);
    assert (position - 1) * unit + unit == position * unit;
  }

  lemma PaceKnowsStep(p: Profile.Profile, w: World, step: Step)
    requires Profile.Valid(p) && !p.Uniform?
    requires PaceKnows(p, w)
    ensures PaceKnows(p, Next(p, w, step))
  {
    if step.Act? && Enabled(p, w.phase, w.now, step.action) {
      match step.action
      case Resolve(_) =>
      case Stop =>
      case Reserve(draw, answer) =>
        var batch := Profile.BatchSize(p, w.phase.rpm, draw);
        var accepted := AcceptDecision(w.phase.rpm, batch, answer);
        if accepted.Some? {
          PaceReserve(p, w, batch, accepted.value);
        }
      case Execute(draw) =>
        SlotDelayAdvances(p, w.phase.rpm, w.phase.decision, w.phase.position, draw);
        PaceExecute(p, w, SlotDelay(p, w.phase.rpm, w.phase.decision, w.phase.position, draw));
    }
  }

  lemma {:induction false} RunPaceKnows(p: Profile.Profile, clock: nat, steps: seq<Step>)
    requires Profile.Valid(p) && !p.Uniform?
    ensures PaceKnows(p, Run(p, clock, steps))
  {
    if steps != [] {
      RunPaceKnows(p, clock, steps[..|steps| - 1]);
      PaceKnowsStep(p, Run(p, clock, steps[..|steps| - 1]), steps[|steps| - 1]);
    }
  }

  /** Permits granted in the log at or after `from`. */
  function PermitsFrom(log: seq<Acquisition>, from: nat): nat {
    if log == [] then 0
    else
      var last := log[|log| - 1];
      PermitsFrom(log[..|log| - 1], from) + if from <= last.at then last.decision.granted else 0
  }

  lemma {:induction false} NoneBefore(log: seq<Acquisition>, from: nat)
    requires PacedLog(log)
    requires log != [] ==> log[|log| - 1].at < from
    ensures PermitsFrom(log, from) == 0
  {
    if log != [] {
      NoneBefore(log[..|log| - 1], from);
    }
  }

  lemma MulSplits(m: nat, a: nat, b: nat)
    ensures m * (a + b) == m * a + b * m
  {
  }

  /** Permits granted from an instant on, before the last acquisition, took their mean time. */
  lemma {:induction false} PermitsTakeTime(log: seq<Acquisition>, from: nat, rpm: nat)
    requires PacedLog(log) && log != []
    requires from <= log[|log| - 1].at
    requires rpm >= 1
    requires forall i :: 0 <= i < |log| && from <= log[i].at ==> log[i].rpm == rpm
    ensures from + Profile.MeanDelay(rpm) * PermitsFrom(log[..|log| - 1], from) <= log[|log| - 1].at
  {
    var earlier := log[..|log| - 1];
    if earlier != [] {
      var prev := earlier[|earlier| - 1];
      var before := PermitsFrom(earlier[..|earlier| - 1], from);
      if from <= prev.at {
        PermitsTakeTime(earlier, from, rpm);
        assert PermitsFrom(earlier, from) == before + prev.decision.granted;
        MulSplits(Profile.MeanDelay(rpm), before, prev.decision.granted);
        assert BatchTime(prev) == prev.decision.granted * Profile.MeanDelay(rpm);
      } else {
        NoneBefore(earlier, from);
      }
    }
  }

  /** The remainder of a minute over the rate is below the rate, which is below the mean delay. */
  lemma MeanTimesPermits(rpm: nat, permits: nat)
    requires 1 <= rpm <= MAX_RPM
    requires Profile.MeanDelay(rpm) * permits <= MINUTE_NANOS
    ensures permits <= rpm
  {
    Profile.MeanDelayBounds(rpm);
    var mean := Profile.MeanDelay(rpm);
    if mean < rpm {
      MulMonotone(mean, MAX_RPM, rpm);
      MulMonotone(rpm, MAX_RPM, MAX_RPM);
    }
    if permits > rpm {
      MulMonotone(rpm + 1, permits, mean);
      MulSplits(mean, rpm, 1);
    }
  }

  /**
   Pacing: without any help from the limiter, a fixed or burst runner at a constant rate is
   granted, in any span of at most 60 seconds, at most the rate plus its last batch.
   */
  lemma PacingBound(p: Profile.Profile, clock: nat, steps: seq<Step>, from: nat, j: nat, rpm: nat)
    requires Profile.Valid(p) && !p.Uniform?
    requires 1 <= rpm <= MAX_RPM
    requires j < |Run(p, clock, steps).log|
    requires var log := Run(p, clock, steps).log;
             && from <= log[j].at <= from + MINUTE_NANOS
             && forall i :: 0 <= i <= j && from <= log[i].at ==> log[i].rpm == rpm
    ensures var log := Run(p, clock, steps).log;
            PermitsFrom(log[..j + 1], from) <= rpm + log[j].decision.granted
  {
    RunPaceKnows(p, clock, steps);
    var log := Run(p, clock, steps).log[..j + 1];
    PermitsTakeTime(log, from, rpm);
    MeanTimesPermits(rpm, PermitsFrom(log[..j], from));
  }

  // ---- both limiters are honest ----

  lemma RedisIsHonest(h: RedisHash.Hash, now: nat, requests: nat, permits: nat)
    ensures Honest(now, permits, RedisAcquire(h, now / NANOS_PER_MICRO, MINUTE, requests, permits).1)
  {
  }

  const EPOCH_NANOS: nat := Ledger.EPOCH * NANOS_PER_MICRO

  lemma LocalMinute(now: nat, epoch: nat, window: nat)
    requires window > 0 && epoch % window == 0
    ensures Start(now + epoch * 1000, window * 1000) == Start(now / 1000, window) * 1000 + epoch * 1000
  {
    StartIsRemainder(epoch, window);
    WindowInNanos(now + epoch * 1000, window);
    assert (now + epoch * 1000) / 1000 == now / 1000 + epoch;
    ShiftByBoundary(now / 1000, epoch, window);
  }

  /** The local clock counts the same nanoseconds from year 1. */
  lemma LocalIsHonest(s: LocalState, now: nat, requests: nat, permits: nat)
    ensures Honest(now, permits, LocalAcquire(s, now + EPOCH_NANOS, MINUTE_NANOS, requests, permits).1)
  {
    LocalMinute(now, Ledger.EPOCH, MINUTE);
  }
}
