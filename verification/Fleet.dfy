/**
 Any number of runners of one scenario, interleaved on the Redis keys they share. Each was
 started with settings of its own, as during a rolling update. `now` is a shared clock in
 nanoseconds; Redis sees its whole microseconds. The histories of the limiter key and of the
 schedule keys are kept, so that the theorems about them apply to the fleet.
 */
module Fleet {
  import opened Results
  import opened Windows
  import opened RedisHash
  import opened RateLimit
  import Ledger
  import RateSchedule
  import RedisKeys
  import Profile
  import Scheduler

  /** What one replica was started with. */
  datatype Plan = Plan(config: RateSchedule.Config, profile: Profile.Profile)

  /** One runner for each plan; all of them share the scope's keys. */
  datatype Setting = Setting(scope: RedisKeys.Scope, plans: seq<Plan>)

  predicate ValidPlan(p: Plan) {
    RateSchedule.ValidConfig(p.config) && Profile.Valid(p.profile)
  }

  predicate ValidPlans(plans: seq<Plan>) {
    forall i :: 0 <= i < |plans| ==> ValidPlan(plans[i])
  }

  predicate Valid(sc: Setting) {
    RedisKeys.Valid(sc.scope) && ValidPlans(sc.plans)
  }

  /** A runner, the Redis time at which it read its rate, and the slots it ran in its current batch. */
  datatype Runner = Runner(phase: Scheduler.Phase, resolvedAt: nat, ran: nat)

  datatype Finished = Finished(granted: nat, ran: nat)

  /** Who brought a budget to the limiter, and the Redis time at which that rate was read. */
  datatype Origin = Origin(runner: nat, at: nat)

  datatype Keys = Keys(
    limiter: Ledger.RedisWorld, limiterSteps: seq<Ledger.Step>,
    schedule: RateSchedule.World, scheduleSteps: seq<RateSchedule.Step>)

  datatype State = State(
    now: nat, keys: Keys, runners: seq<Runner>,
    origins: seq<Origin>,       // one for each limiter call
    executed: nat, abandoned: nat,
    finished: seq<Finished>)

  /**
   Resolve and Reserve are the last attempts of their calls; Reselect and Reacquire are
   attempts before them that ran unanswered, after which the client tries again.
   */
  datatype Step =
    | Tick(to: nat)
    | ExpireLimiter
    | ExpireSchedule(name: string)
    | Reselect(i: nat, draw: nat)
    | Resolve(i: nat, draw: nat, reply: Reply)
    | Reacquire(i: nat, batchDraw: nat)
    | Reserve(i: nat, batchDraw: nat, reply: Reply)
    | Execute(i: nat, delayDraw: nat)
    | Stop(i: nat)

  function Micros(nanos: nat): nat {
    nanos / NANOS_PER_MICRO
  }

  // ---- the shared keys ----

  function TakeLimiter(k: Keys, step: Ledger.Step): Keys {
    k.(limiter := Ledger.RedisStep(MINUTE, k.limiter, step), limiterSteps := k.limiterSteps + [step])
  }

  function TakeSchedule(scope: RedisKeys.Scope, k: Keys, step: RateSchedule.Step): Keys {
    k.(schedule := RateSchedule.Next(scope, k.schedule, step), scheduleSteps := k.scheduleSteps + [step])
  }

  function TickKeys(scope: RedisKeys.Scope, k: Keys, now: nat): Keys {
    TakeSchedule(scope, TakeLimiter(k, Ledger.Tick(Micros(now))), RateSchedule.Tick(Micros(now)))
  }

  /** Runner `i` of the setting proposes a rate. */
  function Proposal(sc: Setting, i: nat, draw: nat): RateSchedule.Step
    requires i < |sc.plans|
  {
    RateSchedule.Select(sc.plans[i].config, draw)
  }

  /** The decision of the limiter on a request it has just taken, if it was a valid one. */
  function Decided(k: Keys, rpm: nat, batch: nat): Option<Decision> {
    if !Ledger.Valid(rpm, batch, MINUTE) then None
    else
      var calls := TakeLimiter(k, Ledger.Acquire(rpm, batch)).limiter.calls;
      Some(calls[|calls| - 1].decision)
  }

  // ---- what the runners do ----

  function Owed(phase: Scheduler.Phase): nat {
    if phase.Batch? && phase.position <= phase.decision.granted
    then phase.decision.granted - phase.position + 1 else 0
  }

  predicate Has(sc: Setting, s: State, i: nat) {
    i < |sc.plans| && i < |s.runners|
  }

  predicate MayResolve(sc: Setting, s: State, i: nat, draw: nat)
    requires Valid(sc)
  {
    && Has(sc, s, i) && draw <= sc.plans[i].config.max - sc.plans[i].config.min
    && Scheduler.Enabled(sc.plans[i].profile, s.runners[i].phase, s.now, Scheduler.Resolve(None))
  }

  predicate MayReserve(sc: Setting, s: State, i: nat, draw: nat)
    requires Valid(sc)
  {
    && Has(sc, s, i) && s.runners[i].phase.Resolved?
    && Profile.BatchDraw(sc.plans[i].profile, s.runners[i].phase.rpm, draw)
  }

  predicate MayExecute(sc: Setting, s: State, i: nat, draw: nat)
    requires Valid(sc)
  {
    && Has(sc, s, i)
    && Scheduler.Enabled(sc.plans[i].profile, s.runners[i].phase, s.now, Scheduler.Execute(draw))
  }

  function BatchOf(sc: Setting, s: State, i: nat, draw: nat): nat
    requires Valid(sc) && MayReserve(sc, s, i, draw)
  {
    Profile.BatchSize(sc.plans[i].profile, s.runners[i].phase.rpm, draw)
  }

  function DelayOf(sc: Setting, s: State, i: nat, draw: nat): nat
    requires Valid(sc) && MayExecute(sc, s, i, draw)
  {
    var b := s.runners[i].phase;
    Scheduler.SlotDelay(sc.plans[i].profile, b.rpm, b.decision, b.position, draw)
  }

  /** What the runner sees of the rate the script selects. */
  function RateRead(sc: Setting, s: State, i: nat, draw: nat, reply: Reply): Option<nat>
    requires Valid(sc) && i < |sc.plans| && draw <= sc.plans[i].config.max - sc.plans[i].config.min
  {
    var picks := TakeSchedule(sc.scope, s.keys, Proposal(sc, i, draw)).schedule.picks;
    if reply.Delivered? then picks[|picks| - 1].value else None
  }

  /** Runner `i` reads the rate; a lost reply still leaves its candidate in Redis. */
  function ResolveRate(sc: Setting, s: State, i: nat, draw: nat, reply: Reply): State
    requires Valid(sc) && MayResolve(sc, s, i, draw)
  {
    var phase := Scheduler.AfterResolve(RateRead(sc, s, i, draw, reply), s.now);
    if reply.NotRun? then
      s.(runners := s.runners[i := s.runners[i].(phase := phase)])
    else
      s.(runners := s.runners[i := Runner(phase, Micros(s.now), s.runners[i].ran)],
         keys := TakeSchedule(sc.scope, s.keys, Proposal(sc, i, draw)))
  }

  /** What the runner sees of the limiter's decision on a batch. */
  function AnswerRead(s: State, rpm: nat, batch: nat, reply: Reply): Option<Decision> {
    if reply.Delivered? then Decided(s.keys, rpm, batch) else None
  }

  /** The limiter takes runner `i`'s request, of which `unused` permits nobody will use. */
  function Acquired(s: State, i: nat, batch: nat, unused: nat): State
    requires i < |s.runners| && s.runners[i].phase.Resolved?
  {
    var r := s.runners[i];
    s.(keys := TakeLimiter(s.keys, Ledger.Acquire(r.phase.rpm, batch)),
       origins := s.origins + [Origin(i, r.resolvedAt)],
       abandoned := s.abandoned + unused)
  }

  /** The limiter runs runner `i`'s request, but nobody learns what it granted. */
  function AcquireUnanswered(s: State, i: nat, batch: nat): State
    requires i < |s.runners| && s.runners[i].phase.Resolved?
  {
    var decision := Decided(s.keys, s.runners[i].phase.rpm, batch);
    if decision.None? then s else Acquired(s, i, batch, decision.value.granted)
  }

  /** Runner `i` asks for a batch; the grants of a lost reply are abandoned. */
  function ReserveBatch(s: State, i: nat, batch: nat, reply: Reply): State
    requires i < |s.runners| && s.runners[i].phase.Resolved?
  {
    var r := s.runners[i];
    var decision := Decided(s.keys, r.phase.rpm, batch);
    var phase := Scheduler.AfterReserve(r.phase.rpm, AnswerRead(s, r.phase.rpm, batch, reply), s.now);
    if reply.NotRun? || decision.None? then
      s.(runners := s.runners[i := r.(phase := phase)])
    else
      Acquired(s, i, batch, if reply.Lost? then decision.value.granted else 0).(
        runners := s.runners[i := Runner(phase, r.resolvedAt, 0)])
  }

  /** Runner `i` has executed its slot and starts waiting. */
  function ExecuteSlot(s: State, i: nat, delay: nat): State
    requires i < |s.runners| && s.runners[i].phase.Batch?
  {
    var r := s.runners[i];
    var last := r.phase.position == r.phase.decision.granted;
    s.(runners := s.runners[i := Runner(Scheduler.AfterExecute(r.phase, s.now, delay), r.resolvedAt, r.ran + 1)],
       executed := s.executed + 1,
       finished := if last then s.finished + [Finished(r.phase.decision.granted, r.ran + 1)] else s.finished)
  }

  function StopRunner(s: State, i: nat): State
    requires i < |s.runners|
  {
    s.(runners := s.runners[i := s.runners[i].(phase := Scheduler.Stopped)],
       abandoned := s.abandoned + Owed(s.runners[i].phase))
  }

  /** A step that the runner's loop cannot take leaves the state alone. */
  function Next(sc: Setting, s: State, step: Step): State
    requires Valid(sc)
  {
    match step
    case Tick(to) => s.(now := Max(s.now, to), keys := TickKeys(sc.scope, s.keys, Max(s.now, to)))
    case ExpireLimiter => s.(keys := TakeLimiter(s.keys, Ledger.Expire))
    case ExpireSchedule(name) => s.(keys := TakeSchedule(sc.scope, s.keys, RateSchedule.Expire(name)))
    case Reselect(i, draw) =>
      if MayResolve(sc, s, i, draw) then s.(keys := TakeSchedule(sc.scope, s.keys, Proposal(sc, i, draw))) else s
    case Resolve(i, draw, reply) => if MayResolve(sc, s, i, draw) then ResolveRate(sc, s, i, draw, reply) else s
    case Reacquire(i, draw) =>
      if MayReserve(sc, s, i, draw) then AcquireUnanswered(s, i, BatchOf(sc, s, i, draw)) else s
    case Reserve(i, draw, reply) =>
      if MayReserve(sc, s, i, draw) then ReserveBatch(s, i, BatchOf(sc, s, i, draw), reply) else s
    case Execute(i, draw) => if MayExecute(sc, s, i, draw) then ExecuteSlot(s, i, DelayOf(sc, s, i, draw)) else s
    case Stop(i) => if i < |s.runners| then StopRunner(s, i) else s
  }

  function Begin(sc: Setting, clock: nat): State {
    State(clock, Keys(Ledger.RedisWorld(Micros(clock), NO_KEY, []), [], RateSchedule.World(Micros(clock), map[], []), []),
          seq(|sc.plans|, _ => Runner(Scheduler.Ready(clock), 0, 0)), [], 0, 0, [])
  }

  /** Every interleaving of the steps of all runners, from an empty Redis. */
  function Run(sc: Setting, clock: nat, steps: seq<Step>): State
    requires Valid(sc)
  {
    if steps == [] then Begin(sc, clock)
    else Next(sc, Run(sc, clock, steps[..|steps| - 1]), steps[|steps| - 1])
  }

  lemma RunExtends(sc: Setting, clock: nat, steps: seq<Step>, step: Step)
    requires Valid(sc)
    ensures Run(sc, clock, steps + [step]) == Next(sc, Run(sc, clock, steps), step)
  {
    assert (steps + [step])[..|steps|] == steps;
  }

  // ---- the shared keys behave as in their own runs ----

  predicate KeysFollow(scope: RedisKeys.Scope, clock: nat, now: nat, k: Keys) {
    && k.limiter == Ledger.RunRedis(MINUTE, Micros(clock), k.limiterSteps)
    && k.schedule == RateSchedule.Run(scope, Micros(clock), k.scheduleSteps)
    && k.limiter.now == Micros(now)
    && k.schedule.now == Micros(now)
  }

  lemma LimiterFollows(k: Keys, clock: nat, step: Ledger.Step)
    requires k.limiter == Ledger.RunRedis(MINUTE, clock, k.limiterSteps)
    ensures TakeLimiter(k, step).limiter == Ledger.RunRedis(MINUTE, clock, TakeLimiter(k, step).limiterSteps)
  {
    Ledger.RedisRunExtends(MINUTE, clock, k.limiterSteps, step);
  }

  lemma ScheduleFollows(scope: RedisKeys.Scope, k: Keys, clock: nat, step: RateSchedule.Step)
    requires k.schedule == RateSchedule.Run(scope, clock, k.scheduleSteps)
    ensures var after := TakeSchedule(scope, k, step);
            after.schedule == RateSchedule.Run(scope, clock, after.scheduleSteps)
  {
    assert (k.scheduleSteps + [step])[..|k.scheduleSteps|] == k.scheduleSteps;
  }

  lemma TickFollows(scope: RedisKeys.Scope, k: Keys, clock: nat, now: nat, later: nat)
    requires KeysFollow(scope, clock, now, k) && now <= later
    ensures KeysFollow(scope, clock, later, TickKeys(scope, k, later))
  {
    LimiterFollows(k, Micros(clock), Ledger.Tick(Micros(later)));
    ScheduleFollows(scope, TakeLimiter(k, Ledger.Tick(Micros(later))), Micros(clock), RateSchedule.Tick(Micros(later)));
  }

  lemma RequestFollows(scope: RedisKeys.Scope, k: Keys, clock: nat, now: nat, step: Ledger.Step)
    requires KeysFollow(scope, clock, now, k) && !step.Tick?
    ensures KeysFollow(scope, clock, now, TakeLimiter(k, step))
  {
    LimiterFollows(k, Micros(clock), step);
  }

  lemma ProposalFollows(scope: RedisKeys.Scope, k: Keys, clock: nat, now: nat, step: RateSchedule.Step)
    requires KeysFollow(scope, clock, now, k) && !step.Tick?
    ensures KeysFollow(scope, clock, now, TakeSchedule(scope, k, step))
  {
    ScheduleFollows(scope, k, Micros(clock), step);
  }

  /** What a step does to the keys. */
  datatype Change = Unchanged | Ticked | Asked(request: Ledger.Step) | Proposed(proposal: RateSchedule.Step)

  lemma KeysAfter(sc: Setting, s: State, step: Step) returns (change: Change)
    requires Valid(sc)
    ensures match change
            case Unchanged => Next(sc, s, step).keys == s.keys && Next(sc, s, step).now == s.now
            case Ticked =>
              Next(sc, s, step).keys == TickKeys(sc.scope, s.keys, Next(sc, s, step).now) && s.now <= Next(sc, s, step).now
            case Asked(request) =>
              !request.Tick? && Next(sc, s, step).keys == TakeLimiter(s.keys, request) && Next(sc, s, step).now == s.now
            case Proposed(proposal) =>
              && !proposal.Tick? && Next(sc, s, step).keys == TakeSchedule(sc.scope, s.keys, proposal)
              && Next(sc, s, step).now == s.now
  {
    change := Unchanged;
    match step
    case Tick(to) => change := Ticked;
    case ExpireLimiter => change := Asked(Ledger.Expire);
    case ExpireSchedule(name) => change := Proposed(RateSchedule.Expire(name));
    case Reselect(i, draw) => if MayResolve(sc, s, i, draw) { change := Proposed(Proposal(sc, i, draw)); }
    case Resolve(i, draw, reply) =>
      if MayResolve(sc, s, i, draw) && !reply.NotRun? { change := Proposed(Proposal(sc, i, draw)); }
    case Reacquire(i, draw) =>
      if MayReserve(sc, s, i, draw) && Next(sc, s, step) != s {
        change := Asked(Ledger.Acquire(s.runners[i].phase.rpm, BatchOf(sc, s, i, draw)));
      }
    case Reserve(i, draw, reply) =>
      if MayReserve(sc, s, i, draw) && !reply.NotRun?
         && Decided(s.keys, s.runners[i].phase.rpm, BatchOf(sc, s, i, draw)).Some? {
        change := Asked(Ledger.Acquire(s.runners[i].phase.rpm, BatchOf(sc, s, i, draw)));
      }
    case Execute(_, _) =>
    case Stop(_) =>
  }

  lemma KeysFollowStep(sc: Setting, clock: nat, s: State, step: Step)
    requires Valid(sc)
    requires KeysFollow(sc.scope, clock, s.now, s.keys)
    ensures KeysFollow(sc.scope, clock, Next(sc, s, step).now, Next(sc, s, step).keys)
  {
    var change := KeysAfter(sc, s, step);
    match change
    case Unchanged =>
    case Ticked => TickFollows(sc.scope, s.keys, clock, s.now, Next(sc, s, step).now);
    case Asked(request) => RequestFollows(sc.scope, s.keys, clock, s.now, request);
    case Proposed(proposal) => ProposalFollows(sc.scope, s.keys, clock, s.now, proposal);
  }

  lemma {:induction false} RunFollows(sc: Setting, clock: nat, steps: seq<Step>)
    requires Valid(sc)
    ensures KeysFollow(sc.scope, clock, Run(sc, clock, steps).now, Run(sc, clock, steps).keys)
  {
    if steps != [] {
      RunFollows(sc, clock, steps[..|steps| - 1]);
      KeysFollowStep(sc, clock, Run(sc, clock, steps[..|steps| - 1]), steps[|steps| - 1]);
    }
  }

  // ---- conservation of permits ----

  function TotalGranted(calls: seq<Ledger.Call>): nat {
    if calls == [] then 0
    else TotalGranted(calls[..|calls| - 1]) + calls[|calls| - 1].decision.granted
  }

  function TotalOwed(runners: seq<Runner>): nat {
    if runners == [] then 0
    else TotalOwed(runners[..|runners| - 1]) + Owed(runners[|runners| - 1].phase)
  }

  lemma {:induction false} OwedAfterUpdate(runners: seq<Runner>, i: nat, r: Runner)
    requires i < |runners|
    ensures TotalOwed(runners[i := r]) == TotalOwed(runners) - Owed(runners[i].phase) + Owed(r.phase)
  {
    var n := |runners| - 1;
    if i == n {
      assert runners[i := r][..n] == runners[..n];
    } else {
      OwedAfterUpdate(runners[..n], i, r);
      assert runners[i := r][..n] == runners[..n][i := r];
    }
  }

  /** A request the limiter decides on adds its grant to the total. */
  lemma TotalAfterRequest(k: Keys, rpm: nat, batch: nat)
    requires Decided(k, rpm, batch).Some?
    ensures var after := TakeLimiter(k, Ledger.Acquire(rpm, batch)).limiter.calls;
            TotalGranted(after) == TotalGranted(k.limiter.calls) + Decided(k, rpm, batch).value.granted
  {
    var after := TakeLimiter(k, Ledger.Acquire(rpm, batch)).limiter.calls;
    assert after[..|k.limiter.calls|] == k.limiter.calls;
  }

  predicate RunnerSound(r: Runner) {
    Scheduler.InRange(r.phase) && (r.phase.Batch? ==> r.ran == r.phase.position - 1)
  }

  predicate RunnersSound(runners: seq<Runner>) {
    forall i :: 0 <= i < |runners| ==> RunnerSound(runners[i])
  }

  /** Every granted permit has been executed, is still owed by a runner, or was abandoned. */
  predicate Conserved(s: State) {
    && TotalGranted(s.keys.limiter.calls) == s.executed + TotalOwed(s.runners) + s.abandoned
    && RunnersSound(s.runners)
  }

  predicate FinishedExactly(finished: seq<Finished>) {
    forall k :: 0 <= k < |finished| ==> finished[k].ran == finished[k].granted
  }

  /** Another runner in place `i`, as long as the change in what it owes is accounted for. */
  lemma ConservedUpdate(s: State, i: nat, t: State)
    requires Conserved(s)
    requires i < |s.runners| == |t.runners| && t.runners == s.runners[i := t.runners[i]]
    requires RunnerSound(t.runners[i])
    requires TotalGranted(t.keys.limiter.calls) - TotalGranted(s.keys.limiter.calls) ==
             t.executed - s.executed + t.abandoned - s.abandoned + Owed(t.runners[i].phase) - Owed(s.runners[i].phase)
    ensures Conserved(t)
  {
    OwedAfterUpdate(s.runners, i, t.runners[i]);
  }

  /** The phase after an answer holds exactly the permits the runner learnt of. */
  lemma ReservedPhase(rpm: nat, batch: nat, answer: Option<Decision>, now: nat)
    requires 1 <= rpm <= Scheduler.MAX_RPM
    requires answer.Some? ==> answer.value.granted <= batch <= rpm
    ensures var phase := Scheduler.AfterReserve(rpm, answer, now);
            && Owed(phase) == (if answer.Some? then answer.value.granted else 0)
            && RunnerSound(Runner(phase, now, 0))
  {
  }

  lemma DecidedWithin(k: Keys, rpm: nat, batch: nat)
    requires Decided(k, rpm, batch).Some?
    ensures Decided(k, rpm, batch).value.granted <= batch <= rpm
  {
    var c := Ledger.AcquireStep(MINUTE, k.limiter, rpm, batch);
  }

  lemma ConservedReserve(s: State, i: nat, batch: nat, reply: Reply)
    requires Conserved(s)
    requires i < |s.runners| && s.runners[i].phase.Resolved?
    ensures Conserved(ReserveBatch(s, i, batch, reply))
  {
    var rpm := s.runners[i].phase.rpm;
    assert RunnerSound(s.runners[i]);
    if Decided(s.keys, rpm, batch).Some? {
      DecidedWithin(s.keys, rpm, batch);
      TotalAfterRequest(s.keys, rpm, batch);
    }
    ReservedPhase(rpm, batch, AnswerRead(s, rpm, batch, reply), s.now);
    ConservedUpdate(s, i, ReserveBatch(s, i, batch, reply));
  }

  lemma ConservedUnanswered(s: State, i: nat, batch: nat)
    requires Conserved(s)
    requires i < |s.runners| && s.runners[i].phase.Resolved?
    ensures Conserved(AcquireUnanswered(s, i, batch))
  {
    if Decided(s.keys, s.runners[i].phase.rpm, batch).Some? {
      TotalAfterRequest(s.keys, s.runners[i].phase.rpm, batch);
    }
  }

  lemma ConservedExecute(s: State, i: nat, delay: nat)
    requires Conserved(s) && FinishedExactly(s.finished)
    requires i < |s.runners| && s.runners[i].phase.Batch?
    ensures Conserved(ExecuteSlot(s, i, delay)) && FinishedExactly(ExecuteSlot(s, i, delay).finished)
  {
    assert RunnerSound(s.runners[i]);
    ConservedUpdate(s, i, ExecuteSlot(s, i, delay));
  }

  lemma ConservedStop(s: State, i: nat)
    requires Conserved(s)
    requires i < |s.runners|
    ensures Conserved(StopRunner(s, i))
  {
    ConservedUpdate(s, i, StopRunner(s, i));
  }

  lemma ConservedResolve(sc: Setting, s: State, i: nat, draw: nat, reply: Reply)
    requires Valid(sc) && Conserved(s)
    requires MayResolve(sc, s, i, draw)
    ensures Conserved(ResolveRate(sc, s, i, draw, reply))
  {
    var t := ResolveRate(sc, s, i, draw, reply);
    assert t.keys.limiter == s.keys.limiter;
    ConservedUpdate(s, i, t);
  }

  lemma ConservedElsewhere(s: State, t: State)
    requires Conserved(s)
    requires t.runners == s.runners && t.executed == s.executed && t.abandoned == s.abandoned
    requires t.keys.limiter.calls == s.keys.limiter.calls
    ensures Conserved(t)
  {
  }

  lemma ConservedStep(sc: Setting, s: State, step: Step)
    requires Valid(sc)
    requires Conserved(s) && FinishedExactly(s.finished)
    ensures Conserved(Next(sc, s, step)) && FinishedExactly(Next(sc, s, step).finished)
  {
    match step
    case Tick(_) => ConservedElsewhere(s, Next(sc, s, step));
    case ExpireLimiter => ConservedElsewhere(s, Next(sc, s, step));
    case ExpireSchedule(_) => ConservedElsewhere(s, Next(sc, s, step));
    case Reselect(_, _) => ConservedElsewhere(s, Next(sc, s, step));
    case Resolve(i, draw, reply) => if MayResolve(sc, s, i, draw) { ConservedResolve(sc, s, i, draw, reply); }
    case Reacquire(i, draw) => if MayReserve(sc, s, i, draw) { ConservedUnanswered(s, i, BatchOf(sc, s, i, draw)); }
    case Reserve(i, draw, reply) => if MayReserve(sc, s, i, draw) { ConservedReserve(s, i, BatchOf(sc, s, i, draw), reply); }
    case Execute(i, draw) => if MayExecute(sc, s, i, draw) { ConservedExecute(s, i, DelayOf(sc, s, i, draw)); }
    case Stop(i) => if i < |s.runners| { ConservedStop(s, i); }
  }

  lemma {:induction false} NoneOwedAtStart(runners: seq<Runner>)
    requires forall i :: 0 <= i < |runners| ==> runners[i].phase.Ready?
    ensures TotalOwed(runners) == 0
  {
    if runners != [] {
      NoneOwedAtStart(runners[..|runners| - 1]);
    }
  }

  lemma {:induction false} RunConserved(sc: Setting, clock: nat, steps: seq<Step>)
    requires Valid(sc)
    ensures Conserved(Run(sc, clock, steps)) && FinishedExactly(Run(sc, clock, steps).finished)
  {
    if steps == [] {
      NoneOwedAtStart(Begin(sc, clock).runners);
    } else {
      RunConserved(sc, clock, steps[..|steps| - 1]);
      ConservedStep(sc, Run(sc, clock, steps[..|steps| - 1]), steps[|steps| - 1]);
    }
  }

  /**
   Conservation: in every reachable state the permits granted by Redis are those executed,
   those still owed and those abandoned by crashes and lost replies; so executed slots never
   exceed grants, and each batch that finished executed exactly its grant.
   */
  lemma PermitsConserved(sc: Setting, clock: nat, steps: seq<Step>)
    requires Valid(sc)
    ensures var s := Run(sc, clock, steps);
            && TotalGranted(s.keys.limiter.calls) == s.executed + TotalOwed(s.runners) + s.abandoned
            && s.executed <= TotalGranted(s.keys.limiter.calls)
            && (forall k :: 0 <= k < |s.finished| ==> s.finished[k].ran == s.finished[k].granted)
            && (forall i :: 0 <= i < |s.runners| ==> RunnerSound(s.runners[i]))
  {
    RunConserved(sc, clock, steps);
  }

  // ---- every runner of the fleet takes a run of its loop ----

  /** What the step means for the loop of runner `i`, if anything. */
  function OwnStep(sc: Setting, s: State, i: nat, step: Step): Option<Scheduler.Step>
    requires Valid(sc) && Has(sc, s, i)
  {
    match step
    case Tick(to) => Some(Scheduler.Tick(to))
    case Resolve(j, draw, reply) =>
      if j == i && MayResolve(sc, s, i, draw)
      then Some(Scheduler.Act(Scheduler.Resolve(RateRead(sc, s, i, draw, reply)))) else None
    case Reserve(j, draw, reply) =>
      if j == i && MayReserve(sc, s, i, draw)
      then
        var answer := AnswerRead(s, s.runners[i].phase.rpm, BatchOf(sc, s, i, draw), reply);
        Some(Scheduler.Act(Scheduler.Reserve(draw, answer)))
      else None
    case Execute(j, draw) => if j == i then Some(Scheduler.Act(Scheduler.Execute(draw))) else None
    case Stop(j) => if j == i then Some(Scheduler.Act(Scheduler.Stop)) else None
    case Reselect(_, _) => None
    case Reacquire(_, _) => None
    case ExpireLimiter => None
    case ExpireSchedule(_) => None
  }

  function OwnSteps(sc: Setting, clock: nat, steps: seq<Step>, i: nat): seq<Scheduler.Step>
    requires Valid(sc) && i < |sc.plans|
  {
    if steps == [] then []
    else
      var prior := steps[..|steps| - 1];
      var s := Run(sc, clock, prior);
      var own := if Has(sc, s, i) then OwnStep(sc, s, i, steps[|steps| - 1]) else None;
      OwnSteps(sc, clock, prior, i) + if own.Some? then [own.value] else []
  }

  /** The loop of runner `i`, as a run of its own. */
  function OwnRun(sc: Setting, clock: nat, steps: seq<Step>, i: nat): Scheduler.World
    requires Valid(sc) && i < |sc.plans|
  {
    Scheduler.Run(sc.plans[i].profile, clock, OwnSteps(sc, clock, steps, i))
  }

  /** The limiter's own record of a reservation the runner got an answer to. */
  function CallOf(a: Scheduler.Acquisition): Ledger.Call {
    Ledger.Call(Micros(a.at), a.rpm, a.batch, a.decision)
  }

  /** The loop's world agrees with what the fleet's state says of runner `i`. */
  predicate Same(s: State, i: nat, w: Scheduler.World) {
    && i < |s.runners|
    && w.phase == s.runners[i].phase
    && w.now == s.now
    && forall k :: 0 <= k < |w.log| ==> CallOf(w.log[k]) in s.keys.limiter.calls
  }

  /** What Redis answers is a decision the loop accepts, and the last call on record. */
  lemma AnswerIsHonest(s: State, rpm: nat, batch: nat)
    requires s.keys.limiter.now == Micros(s.now) && Decided(s.keys, rpm, batch).Some?
    ensures var answer := Decided(s.keys, rpm, batch).value;
            && Scheduler.Honest(s.now, batch, answer)
            && Scheduler.AcceptDecision(rpm, batch, Some(answer)) == Some(answer)
            && TakeLimiter(s.keys, Ledger.Acquire(rpm, batch)).limiter.calls ==
               s.keys.limiter.calls + [Ledger.Call(Micros(s.now), rpm, batch, answer)]
  {
    Scheduler.RedisIsHonest(s.keys.limiter.key, s.now, rpm, batch);
  }

  /** The loop's own step on an answer that is refused, lost or never came. */
  lemma OwnReserve(sc: Setting, s: State, i: nat, w: Scheduler.World, draw: nat, reply: Reply)
    requires Valid(sc) && s.keys.limiter.now == Micros(s.now)
    requires Same(s, i, w) && MayReserve(sc, s, i, draw)
    ensures var batch := BatchOf(sc, s, i, draw);
            var action := Scheduler.Reserve(draw, AnswerRead(s, s.runners[i].phase.rpm, batch, reply));
            Same(ReserveBatch(s, i, batch, reply), i, Scheduler.Next(sc.plans[i].profile, w, Scheduler.Act(action)))
  {
    var rpm, batch := s.runners[i].phase.rpm, BatchOf(sc, s, i, draw);
    if Decided(s.keys, rpm, batch).Some? {
      AnswerIsHonest(s, rpm, batch);
    }
  }

  lemma OwnStepFollows(sc: Setting, s: State, i: nat, w: Scheduler.World, step: Step)
    requires Valid(sc) && s.keys.limiter.now == Micros(s.now)
    requires Has(sc, s, i) && Same(s, i, w)
    ensures var own := OwnStep(sc, s, i, step);
            Same(Next(sc, s, step), i, if own.Some? then Scheduler.Next(sc.plans[i].profile, w, own.value) else w)
  {
    match step
    case Reserve(j, draw, reply) =>
      if j == i && MayReserve(sc, s, i, draw) {
        OwnReserve(sc, s, i, w, draw, reply);
      }
    case Resolve(_, _, _) =>
    case Reselect(_, _) =>
    case Reacquire(_, _) =>
    case Execute(_, _) =>
    case Tick(_) =>
    case ExpireLimiter =>
    case ExpireSchedule(_) =>
    case Stop(_) =>
  }

  lemma OwnRunExtends(sc: Setting, clock: nat, steps: seq<Step>, i: nat)
    requires Valid(sc) && i < |sc.plans| && steps != []
    requires Has(sc, Run(sc, clock, steps[..|steps| - 1]), i)
    ensures var before := OwnRun(sc, clock, steps[..|steps| - 1], i);
            var own := OwnStep(sc, Run(sc, clock, steps[..|steps| - 1]), i, steps[|steps| - 1]);
            OwnRun(sc, clock, steps, i) == if own.Some? then Scheduler.Next(sc.plans[i].profile, before, own.value) else before
  {
    var before := OwnSteps(sc, clock, steps[..|steps| - 1], i);
    var own := OwnStep(sc, Run(sc, clock, steps[..|steps| - 1]), i, steps[|steps| - 1]);
    if own.Some? {
      assert (before + [own.value])[..|before|] == before;
    } else {
      assert OwnSteps(sc, clock, steps, i) == before;
    }
  }

  /**
   Every runner of the fleet takes a run of its own loop against an honest limiter, and what
   it was granted is on the shared key's record; so what holds of all runs of the loop holds
   of each runner.
   */
  lemma {:induction false} RunnerTakesRun(sc: Setting, clock: nat, steps: seq<Step>, i: nat)
    requires Valid(sc) && i < |sc.plans|
    ensures Same(Run(sc, clock, steps), i, OwnRun(sc, clock, steps, i))
  {
    if steps != [] {
      var prior := steps[..|steps| - 1];
      RunnerTakesRun(sc, clock, prior, i);
      RunFollows(sc, clock, prior);
      OwnStepFollows(sc, Run(sc, clock, prior), i, OwnRun(sc, clock, prior, i), steps[|steps| - 1]);
      OwnRunExtends(sc, clock, steps, i);
    }
  }

  /**
   Retry progress in the fleet: after a decision short of its batch, the same runner is next
   in a position to reserve, answered or not, in a strictly later limiter window, whatever
   the other runners do.
   */
  lemma FleetRetryProgress(sc: Setting, clock: nat, steps: seq<Step>, i: nat, k: nat)
    requires Valid(sc) && i < |sc.plans|
    requires k < |OwnRun(sc, clock, steps, i).log| && Scheduler.Short(OwnRun(sc, clock, steps, i).log[k])
    ensures var s, log := Run(sc, clock, steps), OwnRun(sc, clock, steps, i).log;
            && i < |s.runners|
            && CallOf(log[k]) in s.keys.limiter.calls
            && (s.runners[i].phase.Resolved? ==> End(CallOf(log[k]).at, MINUTE) <= Start(s.keys.limiter.now, MINUTE))
  {
    RunnerTakesRun(sc, clock, steps, i);
    RunFollows(sc, clock, steps);
    if Run(sc, clock, steps).runners[i].phase.Resolved? {
      Scheduler.RetryProgress(sc.plans[i].profile, clock, OwnSteps(sc, clock, steps, i), k);
    }
  }

  /** The step that takes the loop on from its phase. */
  function OnwardStep(phase: Scheduler.Phase, i: nat, reply: Reply): Step {
    match phase
    case Ready(_) => Resolve(i, 0, reply)
    case Resolved(_) => Reserve(i, 0, reply)
    case Batch(_, _, _, _) => Execute(i, 0)
    case Stopped => Tick(0)
  }

  lemma OnwardMoves(sc: Setting, s: State, i: nat, reply: Reply)
    requires Valid(sc) && Has(sc, s, i)
    requires Scheduler.InRange(s.runners[i].phase) && Scheduler.Awake(s.runners[i].phase, s.now)
    ensures var t := Next(sc, s, OnwardStep(s.runners[i].phase, i, reply));
            |t.runners| == |s.runners| && t.runners[i].phase != s.runners[i].phase
  {
    var phase := s.runners[i].phase;
    if phase.Resolved? || phase.Batch? {
      Scheduler.DrawsExist(sc.plans[i].profile, phase.rpm);
    }
  }

  /**
   No runner is ever stuck: once its wait is over there is a step that takes its loop on,
   whatever becomes of the call to Redis it may have to make.
   */
  lemma FleetNeverStuck(sc: Setting, clock: nat, steps: seq<Step>, i: nat, reply: Reply) returns (step: Step)
    requires Valid(sc) && i < |sc.plans|
    ensures var s := Run(sc, clock, steps);
            && i < |s.runners|
            && !step.Stop?
            && (Scheduler.Awake(s.runners[i].phase, s.now) ==>
                  && |Next(sc, s, step).runners| == |s.runners|
                  && Next(sc, s, step).runners[i].phase != s.runners[i].phase)
  {
    var s := Run(sc, clock, steps);
    RunnerTakesRun(sc, clock, steps, i);
    Scheduler.PhaseInRange(sc.plans[i].profile, clock, OwnSteps(sc, clock, steps, i));
    step := OnwardStep(s.runners[i].phase, i, reply);
    if Scheduler.Awake(s.runners[i].phase, s.now) {
      OnwardMoves(sc, s, i, reply);
    }
  }

  // ---- the system budget ----

  /** The rate selected under settings `c` for the schedule window holding the Redis time `t`. */
  function RateAt(c: RateSchedule.Config, k: Keys, t: nat): Option<nat>
    requires RateSchedule.ValidConfig(c)
  {
    RateSchedule.FirstCandidate(k.schedule.picks, c, Start(t, RateSchedule.WindowMicros(c)))
  }

  /** A selected rate lies in the range of its settings. */
  lemma RateInRange(scope: RedisKeys.Scope, clock: nat, k: Keys, now: nat, c: RateSchedule.Config, t: nat)
    requires RedisKeys.Valid(scope) && RateSchedule.ValidConfig(c)
    requires KeysFollow(scope, clock, now, k) && RateAt(c, k, t).Some?
    ensures c.min <= RateAt(c, k, t).value <= c.max
  {
    RateSchedule.RunKnows(scope, Micros(clock), k.scheduleSteps, c);
    var _ := RateSchedule.FirstHasPick(k.schedule.picks, c, Start(t, RateSchedule.WindowMicros(c)));
  }

  /** The budget of call `k` is the rate selected, under its runner's settings, when it was read. */
  predicate OriginSelected(sc: Setting, s: State, k: nat)
    requires Valid(sc) && k < |s.origins| == |s.keys.limiter.calls|
  {
    var origin := s.origins[k];
    && origin.runner < |sc.plans|
    && RateAt(sc.plans[origin.runner].config, s.keys, origin.at) == Some(s.keys.limiter.calls[k].requests)
  }

  predicate RunnerSelected(sc: Setting, s: State, i: nat)
    requires Valid(sc) && Has(sc, s, i)
  {
    var r := s.runners[i];
    r.phase.Resolved? ==> RateAt(sc.plans[i].config, s.keys, r.resolvedAt) == Some(r.phase.rpm)
  }

  /** Every budget brought to the limiter is the rate selected when it was read. */
  predicate BudgetsSelected(sc: Setting, s: State)
    requires Valid(sc)
  {
    && |s.runners| == |sc.plans|
    && |s.origins| == |s.keys.limiter.calls|
    && (forall k :: 0 <= k < |s.origins| ==> OriginSelected(sc, s, k))
    && (forall i :: 0 <= i < |s.runners| ==> RunnerSelected(sc, s, i))
  }

  /** A selected rate is never changed by later calls. */
  lemma RateStays(c: RateSchedule.Config, scope: RedisKeys.Scope, k: Keys, step: RateSchedule.Step, t: nat)
    requires RateSchedule.ValidConfig(c)
    requires RateAt(c, k, t).Some?
    ensures RateAt(c, TakeSchedule(scope, k, step), t) == RateAt(c, k, t)
  {
    var after := TakeSchedule(scope, k, step).schedule.picks;
    if after != k.schedule.picks {
      RateSchedule.FirstAfterAppend(
        k.schedule.picks, after[|after| - 1], c, Start(t, RateSchedule.WindowMicros(c)));
    }
  }

  /** The rate a runner reads is the one selected for the window in which it reads it. */
  lemma RateReadIsSelected(sc: Setting, clock: nat, s: State, i: nat, draw: nat, reply: Reply)
    requires Valid(sc)
    requires KeysFollow(sc.scope, clock, s.now, s.keys)
    requires MayResolve(sc, s, i, draw) && !reply.NotRun?
    ensures RunnerSelected(sc, ResolveRate(sc, s, i, draw, reply), i)
  {
    RateSchedule.RunSelects(sc.scope, Micros(clock), s.keys.scheduleSteps, sc.plans[i].config, draw);
  }

  lemma SelectedAfterProposal(sc: Setting, s: State, step: RateSchedule.Step)
    requires Valid(sc) && BudgetsSelected(sc, s)
    ensures BudgetsSelected(sc, s.(keys := TakeSchedule(sc.scope, s.keys, step)))
  {
    var t := s.(keys := TakeSchedule(sc.scope, s.keys, step));
    forall k | 0 <= k < |t.origins| ensures OriginSelected(sc, t, k) {
      assert OriginSelected(sc, s, k);
      RateStays(sc.plans[s.origins[k].runner].config, sc.scope, s.keys, step, s.origins[k].at);
    }
    forall i | 0 <= i < |t.runners| ensures RunnerSelected(sc, t, i) {
      assert RunnerSelected(sc, s, i);
      if s.runners[i].phase.Resolved? {
        RateStays(sc.plans[i].config, sc.scope, s.keys, step, s.runners[i].resolvedAt);
      }
    }
  }

  /** Putting another runner in place `i`, or none with a new rate, keeps the others' budgets. */
  lemma SelectedAfterUpdate(sc: Setting, s: State, i: nat, r: Runner)
    requires Valid(sc) && BudgetsSelected(sc, s)
    requires Has(sc, s, i) && RunnerSelected(sc, s.(runners := s.runners[i := r]), i)
    ensures BudgetsSelected(sc, s.(runners := s.runners[i := r]))
  {
    var t := s.(runners := s.runners[i := r]);
    forall k | 0 <= k < |t.origins| ensures OriginSelected(sc, t, k) {
      assert OriginSelected(sc, s, k);
    }
    forall j | 0 <= j < |t.runners| ensures RunnerSelected(sc, t, j) {
      assert RunnerSelected(sc, s, j);
    }
  }

  lemma SelectedAfterRequest(sc: Setting, s: State, i: nat, batch: nat, unused: nat)
    requires Valid(sc) && BudgetsSelected(sc, s)
    requires Has(sc, s, i) && s.runners[i].phase.Resolved?
    requires Decided(s.keys, s.runners[i].phase.rpm, batch).Some?
    ensures BudgetsSelected(sc, Acquired(s, i, batch, unused))
  {
    var t := Acquired(s, i, batch, unused);
    assert RunnerSelected(sc, s, i);
    forall k | 0 <= k < |t.origins| ensures OriginSelected(sc, t, k) {
      if k < |s.origins| {
        assert OriginSelected(sc, s, k);
      }
    }
    forall j | 0 <= j < |t.runners| ensures RunnerSelected(sc, t, j) {
      assert RunnerSelected(sc, s, j);
    }
  }

  lemma SelectedAfterReserve(sc: Setting, s: State, i: nat, batch: nat, reply: Reply)
    requires Valid(sc) && BudgetsSelected(sc, s)
    requires Has(sc, s, i) && s.runners[i].phase.Resolved?
    ensures BudgetsSelected(sc, ReserveBatch(s, i, batch, reply))
  {
    var t, decision := ReserveBatch(s, i, batch, reply), Decided(s.keys, s.runners[i].phase.rpm, batch);
    if reply.NotRun? || decision.None? {
      SelectedAfterUpdate(sc, s, i, t.runners[i]);
    } else {
      var unused := if reply.Lost? then decision.value.granted else 0;
      SelectedAfterRequest(sc, s, i, batch, unused);
      SelectedAfterUpdate(sc, Acquired(s, i, batch, unused), i, t.runners[i]);
    }
  }

  lemma SelectedAfterResolve(sc: Setting, clock: nat, s: State, i: nat, draw: nat, reply: Reply)
    requires Valid(sc) && BudgetsSelected(sc, s)
    requires KeysFollow(sc.scope, clock, s.now, s.keys)
    requires MayResolve(sc, s, i, draw)
    ensures BudgetsSelected(sc, ResolveRate(sc, s, i, draw, reply))
  {
    var t := ResolveRate(sc, s, i, draw, reply);
    if reply.NotRun? {
      SelectedAfterUpdate(sc, s, i, t.runners[i]);
    } else {
      RateReadIsSelected(sc, clock, s, i, draw, reply);
      SelectedAfterProposal(sc, s, Proposal(sc, i, draw));
      SelectedAfterUpdate(sc, s.(keys := t.keys), i, t.runners[i]);
    }
  }

  /** Only the schedule's picks, the limiter's calls and the runners matter. */
  lemma SelectedElsewhere(sc: Setting, s: State, t: State)
    requires Valid(sc) && BudgetsSelected(sc, s)
    requires t.runners == s.runners && t.origins == s.origins
    requires t.keys.limiter.calls == s.keys.limiter.calls && t.keys.schedule.picks == s.keys.schedule.picks
    ensures BudgetsSelected(sc, t)
  {
    forall k | 0 <= k < |t.origins| ensures OriginSelected(sc, t, k) {
      assert OriginSelected(sc, s, k);
    }
    forall j | 0 <= j < |t.runners| ensures RunnerSelected(sc, t, j) {
      assert RunnerSelected(sc, s, j);
    }
  }

  lemma SelectedAfterOther(sc: Setting, s: State, step: Step)
    requires Valid(sc) && BudgetsSelected(sc, s)
    requires step.Execute? || step.Stop?
    ensures BudgetsSelected(sc, Next(sc, s, step))
  {
    var t := Next(sc, s, step);
    if t != s {
      SelectedAfterUpdate(sc, s, step.i, t.runners[step.i]);
      SelectedElsewhere(sc, s.(runners := t.runners), t);
    }
  }

  lemma BudgetsSelectedStep(sc: Setting, clock: nat, s: State, step: Step)
    requires Valid(sc)
    requires KeysFollow(sc.scope, clock, s.now, s.keys) && BudgetsSelected(sc, s)
    ensures BudgetsSelected(sc, Next(sc, s, step))
  {
    match step
    case Tick(_) => SelectedElsewhere(sc, s, Next(sc, s, step));
    case ExpireLimiter => SelectedElsewhere(sc, s, Next(sc, s, step));
    case ExpireSchedule(_) => SelectedElsewhere(sc, s, Next(sc, s, step));
    case Reselect(i, draw) => if MayResolve(sc, s, i, draw) { SelectedAfterProposal(sc, s, Proposal(sc, i, draw)); }
    case Resolve(i, draw, reply) => if MayResolve(sc, s, i, draw) { SelectedAfterResolve(sc, clock, s, i, draw, reply); }
    case Reacquire(i, draw) =>
      if MayReserve(sc, s, i, draw) && Next(sc, s, step) != s {
        var batch := BatchOf(sc, s, i, draw);
        SelectedAfterRequest(sc, s, i, batch, Decided(s.keys, s.runners[i].phase.rpm, batch).value.granted);
      }
    case Reserve(i, draw, reply) =>
      if MayReserve(sc, s, i, draw) { SelectedAfterReserve(sc, s, i, BatchOf(sc, s, i, draw), reply); }
    case Execute(_, _) => SelectedAfterOther(sc, s, step);
    case Stop(_) => SelectedAfterOther(sc, s, step);
  }

  lemma {:induction false} RunBudgetsSelected(sc: Setting, clock: nat, steps: seq<Step>)
    requires Valid(sc)
    ensures BudgetsSelected(sc, Run(sc, clock, steps))
  {
    if steps != [] {
      var prior := steps[..|steps| - 1];
      RunBudgetsSelected(sc, clock, prior);
      RunFollows(sc, clock, prior);
      BudgetsSelectedStep(sc, clock, Run(sc, clock, prior), steps[|steps| - 1]);
    }
  }

  /** The rate under settings `c` for the window around `t`, zero if no runner read one. */
  function RateOrNone(c: RateSchedule.Config, k: Keys, t: nat): nat
    requires RateSchedule.ValidConfig(c)
  {
    if RateAt(c, k, t).Some? then RateAt(c, k, t).value else 0
  }

  /** The largest of the rates selected around `t` under the runners' settings. */
  function SelectedRate(plans: seq<Plan>, k: Keys, t: nat): nat
    requires ValidPlans(plans)
  {
    if plans == [] then 0
    else Max(SelectedRate(plans[..|plans| - 1], k, t), RateOrNone(plans[|plans| - 1].config, k, t))
  }

  lemma {:induction false} SelectedRateBounds(plans: seq<Plan>, k: Keys, t: nat, i: nat)
    requires ValidPlans(plans)
    requires i < |plans|
    ensures ValidPlan(plans[i]) && RateOrNone(plans[i].config, k, t) <= SelectedRate(plans, k, t)
  {
    if i < |plans| - 1 {
      SelectedRateBounds(plans[..|plans| - 1], k, t, i);
    }
  }

  /** When all runners have the same settings there is one selected rate. */
  lemma {:induction false} OneSelectedRate(plans: seq<Plan>, k: Keys, t: nat, c: RateSchedule.Config)
    requires RateSchedule.ValidConfig(c) && plans != []
    requires ValidPlans(plans) && forall i :: 0 <= i < |plans| ==> plans[i].config == c
    ensures SelectedRate(plans, k, t) == RateOrNone(c, k, t)
  {
    if |plans| > 1 {
      OneSelectedRate(plans[..|plans| - 1], k, t, c);
    }
  }

  /** The limiter call `k` used a rate read in another schedule window. */
  predicate Stale(sc: Setting, s: State, k: nat)
    requires Valid(sc) && k < |s.origins| && k < |s.keys.limiter.calls|
  {
    var origin := s.origins[k];
    origin.runner < |sc.plans| &&
    var window := RateSchedule.WindowMicros(sc.plans[origin.runner].config);
    Start(origin.at, window) != Start(s.keys.limiter.calls[k].at, window)
  }

  /** No limiter call in the minute of `t` carries a rate across a schedule boundary. */
  predicate FreshMinute(sc: Setting, s: State, t: nat)
    requires Valid(sc)
  {
    var calls := s.keys.limiter.calls;
    && |s.origins| == |calls|
    && forall k :: 0 <= k < |calls| && Start(t, MINUTE) <= calls[k].at < End(t, MINUTE) ==> !Stale(sc, s, k)
  }

  /** All runners together stay, in every minute, within the largest budget brought to it. */
  lemma FleetMinuteBudget(sc: Setting, clock: nat, steps: seq<Step>, t: nat)
    requires Valid(sc)
    ensures var calls := Run(sc, clock, steps).keys.limiter.calls;
            Ledger.GrantedIn(calls, Start(t, MINUTE), End(t, MINUTE)) <=
            Ledger.BudgetIn(calls, Start(t, MINUTE), End(t, MINUTE))
  {
    RunFollows(sc, clock, steps);
    Ledger.RedisWindowBudget(MINUTE, Micros(clock), Run(sc, clock, steps).keys.limiterSteps, t);
  }

  /** No runner is refused a permit its minute still had: a short call leaves it used up. */
  lemma FleetRefusalsJustified(sc: Setting, clock: nat, steps: seq<Step>, k: nat)
    requires Valid(sc)
    requires var calls := Run(sc, clock, steps).keys.limiter.calls;
             k < |calls| && calls[k].decision.granted < calls[k].permits
    ensures var calls := Run(sc, clock, steps).keys.limiter.calls;
            Ledger.GrantedIn(calls[..k + 1], Start(calls[k].at, MINUTE), End(calls[k].at, MINUTE)) >= calls[k].requests
  {
    RunFollows(sc, clock, steps);
    Ledger.RedisRefusalsJustified(MINUTE, Micros(clock), Run(sc, clock, steps).keys.limiterSteps, k);
  }

  /** Schedule windows are whole minutes, so a limiter minute lies in one of them. */
  lemma MinuteInSchedule(c: RateSchedule.Config, t: nat, u: nat)
    requires RateSchedule.ValidConfig(c)
    requires Start(t, MINUTE) <= u < End(t, MINUTE)
    ensures Start(u, RateSchedule.WindowMicros(c)) == Start(t, RateSchedule.WindowMicros(c))
  {
    var minutes := c.window / MINUTE_NANOS;
    assert RateSchedule.WindowMicros(c) == MINUTE * minutes;
    SameWindow(t, u, MINUTE);
    WindowsNest(t, MINUTE, minutes, RateSchedule.WindowMicros(c));
    WindowsNest(u, MINUTE, minutes, RateSchedule.WindowMicros(c));
  }

  /** A call of the minute that is not stale brings a rate selected around it. */
  lemma FreshBudget(sc: Setting, s: State, t: nat, k: nat)
    requires Valid(sc) && BudgetsSelected(sc, s)
    requires k < |s.keys.limiter.calls| && Start(t, MINUTE) <= s.keys.limiter.calls[k].at < End(t, MINUTE)
    requires !Stale(sc, s, k)
    ensures s.keys.limiter.calls[k].requests <= SelectedRate(sc.plans, s.keys, t)
  {
    var origin := s.origins[k];
    assert OriginSelected(sc, s, k);
    assert ValidPlan(sc.plans[origin.runner]);
    MinuteInSchedule(sc.plans[origin.runner].config, t, s.keys.limiter.calls[k].at);
    SelectedRateBounds(sc.plans, s.keys, t, origin.runner);
  }

  /**
   System budget: when no call of a minute carries a rate across a schedule boundary, all
   runners together are granted in that minute at most the rate selected for the schedule
   window around it, the largest one if runners with different settings share the scenario.
   */
  lemma SystemBudget(sc: Setting, clock: nat, steps: seq<Step>, t: nat)
    requires Valid(sc)
    requires FreshMinute(sc, Run(sc, clock, steps), t)
    ensures var s := Run(sc, clock, steps);
            Ledger.GrantedIn(s.keys.limiter.calls, Start(t, MINUTE), End(t, MINUTE)) <=
            SelectedRate(sc.plans, s.keys, t)
  {
    var s := Run(sc, clock, steps);
    var calls := s.keys.limiter.calls;
    RunBudgetsSelected(sc, clock, steps);
    forall c | c in calls && Start(t, MINUTE) <= c.at < End(t, MINUTE)
      ensures c.requests <= SelectedRate(sc.plans, s.keys, t)
    {
      var k :| 0 <= k < |calls| && calls[k] == c;
      FreshBudget(sc, s, t, k);
    }
    Ledger.BudgetBound(calls, Start(t, MINUTE), End(t, MINUTE), SelectedRate(sc.plans, s.keys, t));
    FleetMinuteBudget(sc, clock, steps, t);
  }

  /**
   Exactly when the system budget is broken: the runners exceed, in some minute, the rate
   selected around it if and only if some call of that minute brought a larger budget and
   asked for more than the selected rate had left; and every such call is a stale one.
   */
  lemma OverrunExactly(sc: Setting, clock: nat, steps: seq<Step>, t: nat)
    requires Valid(sc)
    ensures var s := Run(sc, clock, steps);
            var rate := SelectedRate(sc.plans, s.keys, t);
            var calls, lo, hi := s.keys.limiter.calls, Start(t, MINUTE), End(t, MINUTE);
            && (Ledger.GrantedIn(calls, lo, hi) > rate <==> Ledger.SomeOverreach(calls, lo, hi, rate))
            && |s.origins| == |calls|
            && forall k :: 0 <= k < |calls| && Ledger.Overreaches(calls, lo, hi, rate, k) ==> Stale(sc, s, k)
  {
    var s := Run(sc, clock, steps);
    var rate := SelectedRate(sc.plans, s.keys, t);
    RunFollows(sc, clock, steps);
    RunBudgetsSelected(sc, clock, steps);
    Ledger.RedisOverrunExactlyWhen(MINUTE, Micros(clock), s.keys.limiterSteps, t, rate);
    forall k | 0 <= k < |s.keys.limiter.calls|
      && Ledger.Overreaches(s.keys.limiter.calls, Start(t, MINUTE), End(t, MINUTE), rate, k)
      ensures Stale(sc, s, k)
    {
      if !Stale(sc, s, k) {
        FreshBudget(sc, s, t, k);
      }
    }
  }

  // ---- the traffic of a minute ----

  /** Every limiter call is at the time of its step; nothing that counts up ever goes back. */
  lemma StepAdds(sc: Setting, s: State, step: Step)
    requires Valid(sc)
    ensures var t := Next(sc, s, step);
            && s.now <= t.now && s.abandoned <= t.abandoned && |t.runners| == |s.runners|
  {
  }

  lemma CallAdded(sc: Setting, s: State, step: Step)
    requires Valid(sc)
    ensures var before, after := s.keys.limiter.calls, Next(sc, s, step).keys.limiter.calls;
            after != before ==>
              && |after| == |before| + 1 && after == before + [after[|before|]]
              && after[|before|].at == s.keys.limiter.now
  {
    var change := KeysAfter(sc, s, step);
  }

  lemma {:induction false} RunMonotone(sc: Setting, clock: nat, steps: seq<Step>, n: nat)
    requires Valid(sc) && n <= |steps|
    ensures var s, e := Run(sc, clock, steps[..n]), Run(sc, clock, steps);
            s.now <= e.now && s.abandoned <= e.abandoned && |e.runners| == |s.runners|
  {
    if n == |steps| {
      assert steps[..n] == steps;
    } else {
      var prior := steps[..|steps| - 1];
      assert prior[..n] == steps[..n];
      RunMonotone(sc, clock, prior, n);
      StepAdds(sc, Run(sc, clock, prior), steps[|steps| - 1]);
    }
  }

  lemma CallCounted(before: seq<Ledger.Call>, c: Ledger.Call, after: seq<Ledger.Call>, lo: int, hi: int)
    requires after == before + [c] && lo <= c.at < hi
    ensures TotalGranted(after) - TotalGranted(before) ==
            Ledger.GrantedIn(after, lo, hi) - Ledger.GrantedIn(before, lo, hi)
  {
    assert after[..|before|] == before;
    Ledger.AppendCall(before, c, lo, hi);
  }

  /** A step taken in a minute adds to the total and to the minute alike. */
  lemma StepCounted(sc: Setting, s: State, step: Step, lo: int, hi: int)
    requires Valid(sc)
    requires lo <= s.keys.limiter.now < hi
    ensures var before, after := s.keys.limiter.calls, Next(sc, s, step).keys.limiter.calls;
            TotalGranted(after) - TotalGranted(before) ==
            Ledger.GrantedIn(after, lo, hi) - Ledger.GrantedIn(before, lo, hi)
  {
    var before, after := s.keys.limiter.calls, Next(sc, s, step).keys.limiter.calls;
    CallAdded(sc, s, step);
    if after != before {
      CallCounted(before, after[|before|], after, lo, hi);
    }
  }

  /** What is granted between two states of a minute is granted in that minute. */
  lemma {:induction false} GrantedBetween(sc: Setting, clock: nat, steps: seq<Step>, n: nat, lo: int, hi: int)
    requires Valid(sc) && n <= |steps|
    requires lo <= Micros(Run(sc, clock, steps[..n]).now) && Micros(Run(sc, clock, steps).now) < hi
    ensures var s, e := Run(sc, clock, steps[..n]).keys.limiter.calls, Run(sc, clock, steps).keys.limiter.calls;
            TotalGranted(e) - TotalGranted(s) == Ledger.GrantedIn(e, lo, hi) - Ledger.GrantedIn(s, lo, hi)
  {
    if n == |steps| {
      assert steps[..n] == steps;
    } else {
      var prior := steps[..|steps| - 1];
      assert prior[..n] == steps[..n];
      RunFollows(sc, clock, prior);
      RunMonotone(sc, clock, prior, n);
      StepAdds(sc, Run(sc, clock, prior), steps[|steps| - 1]);
      GrantedBetween(sc, clock, prior, n, lo, hi);
      StepCounted(sc, Run(sc, clock, prior), steps[|steps| - 1], lo, hi);
    }
  }

  /** One largest burst for each runner. */
  function HeldAtMost(plans: seq<Plan>): nat {
    if plans == [] then 0 else HeldAtMost(plans[..|plans| - 1]) + Profile.Capacity(plans[|plans| - 1].profile)
  }

  lemma {:induction false} OwedBound(runners: seq<Runner>, plans: seq<Plan>)
    requires |runners| == |plans|
    requires forall i :: 0 <= i < |runners| ==> Owed(runners[i].phase) <= Profile.Capacity(plans[i].profile)
    ensures TotalOwed(runners) <= HeldAtMost(plans)
  {
    if runners != [] {
      OwedBound(runners[..|runners| - 1], plans[..|plans| - 1]);
    }
  }

  /** The permits the fleet holds at any moment are at most one largest burst for each runner. */
  lemma OwedWithinCapacity(sc: Setting, clock: nat, steps: seq<Step>)
    requires Valid(sc)
    ensures TotalOwed(Run(sc, clock, steps).runners) <= HeldAtMost(sc.plans)
  {
    var runners := Run(sc, clock, steps).runners;
    RunBudgetsSelected(sc, clock, steps);
    forall i | 0 <= i < |runners| ensures Owed(runners[i].phase) <= Profile.Capacity(sc.plans[i].profile) {
      RunnerTakesRun(sc, clock, steps, i);
      Scheduler.BatchWithinCapacity(sc.plans[i].profile, clock, OwnSteps(sc, clock, steps, i));
      Scheduler.PhaseInRange(sc.plans[i].profile, clock, OwnSteps(sc, clock, steps, i));
    }
    OwedBound(runners, sc.plans);
  }

  /** Slots executed in a minute are granted in it, or were held when it began. */
  lemma ExecutedInMinute(sc: Setting, clock: nat, steps: seq<Step>, n: nat, t: nat)
    requires Valid(sc) && n <= |steps|
    requires Start(t, MINUTE) <= Micros(Run(sc, clock, steps[..n]).now)
    requires Micros(Run(sc, clock, steps).now) < End(t, MINUTE)
    ensures var s, e := Run(sc, clock, steps[..n]), Run(sc, clock, steps);
            e.executed - s.executed <=
            Ledger.GrantedIn(e.keys.limiter.calls, Start(t, MINUTE), End(t, MINUTE)) + HeldAtMost(sc.plans)
  {
    PermitsConserved(sc, clock, steps[..n]);
    PermitsConserved(sc, clock, steps);
    RunMonotone(sc, clock, steps, n);
    GrantedBetween(sc, clock, steps, n, Start(t, MINUTE), End(t, MINUTE));
    OwedWithinCapacity(sc, clock, steps[..n]);
  }

  /** The largest rate any runner's settings allow. */
  function LargestRate(plans: seq<Plan>): nat
    requires ValidPlans(plans)
  {
    if plans == [] then 0 else Max(LargestRate(plans[..|plans| - 1]), plans[|plans| - 1].config.max)
  }

  lemma {:induction false} LargestRateBounds(plans: seq<Plan>, i: nat)
    requires ValidPlans(plans)
    requires i < |plans|
    ensures plans[i].config.max <= LargestRate(plans)
  {
    if i < |plans| - 1 {
      LargestRateBounds(plans[..|plans| - 1], i);
    }
  }

  /** With no condition at all, no minute is granted more than the largest rate configured. */
  lemma GrantCeiling(sc: Setting, clock: nat, steps: seq<Step>, t: nat)
    requires Valid(sc)
    ensures Ledger.GrantedIn(Run(sc, clock, steps).keys.limiter.calls, Start(t, MINUTE), End(t, MINUTE)) <=
            LargestRate(sc.plans)
  {
    var s := Run(sc, clock, steps);
    var calls := s.keys.limiter.calls;
    RunFollows(sc, clock, steps);
    RunBudgetsSelected(sc, clock, steps);
    forall c | c in calls ensures c.requests <= LargestRate(sc.plans) {
      var k :| 0 <= k < |calls| && calls[k] == c;
      assert OriginSelected(sc, s, k);
      var plan := sc.plans[s.origins[k].runner];
      RateInRange(sc.scope, clock, s.keys, s.now, plan.config, s.origins[k].at);
      LargestRateBounds(sc.plans, s.origins[k].runner);
    }
    Ledger.BudgetBound(calls, Start(t, MINUTE), End(t, MINUTE), LargestRate(sc.plans));
    FleetMinuteBudget(sc, clock, steps, t);
  }

  /**
   Traffic bound: the slots all runners together execute between any two states of a minute
   are at most the largest configured rate, or the selected rate if no call of the minute is
   stale, plus the batches held when it began, one for each runner.
   */
  lemma TrafficInMinute(sc: Setting, clock: nat, steps: seq<Step>, n: nat, t: nat)
    requires Valid(sc) && n <= |steps|
    requires Start(t, MINUTE) <= Micros(Run(sc, clock, steps[..n]).now)
    requires Micros(Run(sc, clock, steps).now) < End(t, MINUTE)
    ensures var s, e, held := Run(sc, clock, steps[..n]), Run(sc, clock, steps), HeldAtMost(sc.plans);
            && e.executed - s.executed <= LargestRate(sc.plans) + held
            && (FreshMinute(sc, e, t) ==> e.executed - s.executed <= SelectedRate(sc.plans, e.keys, t) + held)
  {
    ExecutedInMinute(sc, clock, steps, n, t);
    GrantCeiling(sc, clock, steps, t);
    if FreshMinute(sc, Run(sc, clock, steps), t) {
      SystemBudget(sc, clock, steps, t);
    }
  }

  // ---- what the steps of a runner lead to ----

  /**
   Which steps a runner can take, in every run: with any draw of its range it reads a rate once
   its wait is over, reserves a batch once it has a rate, and executes a slot once its wait is over.
   */
  lemma StepsExactly(sc: Setting, clock: nat, steps: seq<Step>, i: nat, draw: nat)
    requires Valid(sc) && i < |sc.plans|
    ensures var s := Run(sc, clock, steps);
            && i < |s.runners|
            && var plan, phase := sc.plans[i], s.runners[i].phase;
            && (MayResolve(sc, s, i, draw) <==>
                  phase.Ready? && phase.wakeAt <= s.now && plan.config.min + draw <= plan.config.max)
            && (MayReserve(sc, s, i, draw) <==> phase.Resolved? && Profile.BatchDraw(plan.profile, phase.rpm, draw))
            && (phase.Batch? ==> phase.rpm >= 1)
            && (MayExecute(sc, s, i, draw) <==>
                  phase.Batch? && phase.wakeAt <= s.now && Profile.DelayDraw(plan.profile, phase.rpm, draw))
  {
    RunBudgetsSelected(sc, clock, steps);
    RunConserved(sc, clock, steps);
    assert RunnerSound(Run(sc, clock, steps).runners[i]);
  }

  /** Only runner `i` has moved, and at the same time. */
  predicate OnlyRunner(s: State, t: State, i: nat) {
    && t.now == s.now && i < |s.runners| == |t.runners|
    && forall j :: 0 <= j < |s.runners| && j != i ==> t.runners[j] == s.runners[j]
  }

  /** The runner tries again in exactly one second. */
  predicate TriesAgain(s: State, phase: Scheduler.Phase) {
    phase == Scheduler.Ready(s.now + 1_000_000_000)
  }

  lemma ReadLeads(sc: Setting, clock: nat, s: State, i: nat, draw: nat, reply: Reply)
    requires Valid(sc) && MayResolve(sc, s, i, draw)
    requires KeysFollow(sc.scope, clock, s.now, s.keys)
    ensures var t, c := Next(sc, s, Resolve(i, draw, reply)), sc.plans[i].config;
            && OnlyRunner(s, t, i) && t.keys.limiter == s.keys.limiter
            && t.executed == s.executed && t.abandoned == s.abandoned
            && (!reply.Delivered? ==> TriesAgain(s, t.runners[i].phase))
            && (!reply.NotRun? ==>
                  RateAt(c, t.keys, s.now / 1_000).Some? && c.min <= RateAt(c, t.keys, s.now / 1_000).value <= c.max)
            && (reply.Delivered? ==>
                  var rate := RateAt(c, t.keys, s.now / 1_000).value;
                  && t.runners[i].resolvedAt == s.now / 1_000
                  && if rate <= 6_000 then t.runners[i].phase == Scheduler.Resolved(rate)
                  else TriesAgain(s, t.runners[i].phase))
  {
    var c := sc.plans[i].config;
    var after := TakeSchedule(sc.scope, s.keys, Proposal(sc, i, draw));
    RateSchedule.RunSelects(sc.scope, Micros(clock), s.keys.scheduleSteps, c, draw);
    RateSchedule.RunKnows(sc.scope, Micros(clock), s.keys.scheduleSteps, c);
    RateSchedule.SelectedIsFirst(
      RateSchedule.KeyOf(s.keys.schedule, RateSchedule.KeyName(sc.scope, c)), s.keys.schedule.now, s.keys.schedule.picks,
      c, c.min + draw);
  }

  /**
   What reading the rate leads to, in every run: a rate the schedule selected for the window of
   the reading is taken if it is at most 6000, and in any other case the runner tries again in
   exactly one second.
   */
  lemma ReadOutcome(sc: Setting, clock: nat, steps: seq<Step>, i: nat, draw: nat, reply: Reply)
    requires Valid(sc) && MayResolve(sc, Run(sc, clock, steps), i, draw)
    ensures var s, t := Run(sc, clock, steps), Run(sc, clock, steps + [Resolve(i, draw, reply)]);
            var rate := RateAt(sc.plans[i].config, t.keys, s.now / 1_000);
            && OnlyRunner(s, t, i) && t.keys.limiter == s.keys.limiter
            && (!reply.NotRun? ==> rate.Some? && sc.plans[i].config.min <= rate.value <= sc.plans[i].config.max)
            && (reply.Delivered? ==> t.runners[i].resolvedAt == s.now / 1_000)
            && if reply.Delivered? && rate.value <= 6_000 then t.runners[i].phase == Scheduler.Resolved(rate.value)
               else TriesAgain(s, t.runners[i].phase)
  {
    RunFollows(sc, clock, steps);
    RunExtends(sc, clock, steps, Resolve(i, draw, reply));
    ReadLeads(sc, clock, Run(sc, clock, steps), i, draw, reply);
  }

  /** What the limiter took from runner `i` at `s`, and what was done with its answer. */
  predicate Reserved(sc: Setting, s: State, t: State, i: nat, batch: nat, reply: Reply)
    requires Valid(sc) && Has(sc, s, i) && s.runners[i].phase.Resolved? && i < |t.runners|
  {
    var before, after, rpm := s.keys.limiter.calls, t.keys.limiter.calls, s.runners[i].phase.rpm;
    && |after| == |before| + 1 && after == before + [after[|before|]]
    && var call := after[|before|];
       var phase := t.runners[i].phase;
       && call.at == s.now / 1_000 && call.requests == rpm && call.permits == batch
       && t.abandoned == s.abandoned + (if reply.Lost? then call.decision.granted else 0)
       && |t.origins| == |after|
       && (Stale(sc, t, |before|) <==>
             var window := sc.plans[i].config.window / 1_000;
             Start(s.runners[i].resolvedAt, window) != Start(s.now / 1_000, window))
       && (reply.Lost? ==> TriesAgain(s, phase))
       && (reply.Delivered? && call.decision.granted == 0 ==>
             phase.Ready? && End(call.at, 60_000_000) * 1_000 <= phase.wakeAt <= End(call.at, 60_000_000) * 1_000 + 999)
       && (reply.Delivered? && call.decision.granted > 0 ==>
             phase == Scheduler.Batch(rpm, call.decision, 1, s.now) && MayExecute(sc, t, i, 0))
  }

  lemma ReserveLeads(sc: Setting, s: State, i: nat, draw: nat, reply: Reply)
    requires Valid(sc) && MayReserve(sc, s, i, draw)
    requires Scheduler.InRange(s.runners[i].phase) && s.keys.limiter.now == Micros(s.now)
    requires |s.origins| == |s.keys.limiter.calls|
    ensures var t := Next(sc, s, Reserve(i, draw, reply));
            && OnlyRunner(s, t, i) && t.keys.schedule == s.keys.schedule && t.executed == s.executed
            && (reply.NotRun? ==> t.keys == s.keys && t.abandoned == s.abandoned && TriesAgain(s, t.runners[i].phase))
            && (!reply.NotRun? ==> Reserved(sc, s, t, i, BatchOf(sc, s, i, draw), reply))
  {
    var rpm, batch := s.runners[i].phase.rpm, BatchOf(sc, s, i, draw);
    Profile.BatchSizeAccepted(sc.plans[i].profile, rpm, draw);
    Scheduler.DrawsExist(sc.plans[i].profile, rpm);
    AnswerIsHonest(s, rpm, batch);
  }

  /**
   What a reservation leads to, in every run: the limiter decides on one batch of the profile at
   the runner's rate. An empty answer sends the runner to sleep until the end of its limiter
   minute, to the microsecond; a granted batch may run its first slot at once; an answer that is
   lost or never came is followed by another try in exactly one second. The call is stale exactly
   when the rate was read in another schedule window.
   */
  lemma ReservationOutcome(sc: Setting, clock: nat, steps: seq<Step>, i: nat, draw: nat, reply: Reply)
    requires Valid(sc) && MayReserve(sc, Run(sc, clock, steps), i, draw)
    ensures var s, t := Run(sc, clock, steps), Run(sc, clock, steps + [Reserve(i, draw, reply)]);
            var batch := Profile.BatchSize(sc.plans[i].profile, s.runners[i].phase.rpm, draw);
            && 1 <= batch <= s.runners[i].phase.rpm <= 6_000
            && OnlyRunner(s, t, i) && t.keys.schedule == s.keys.schedule && t.executed == s.executed
            && (reply.NotRun? ==> t.keys == s.keys && t.abandoned == s.abandoned && TriesAgain(s, t.runners[i].phase))
            && (!reply.NotRun? ==> Reserved(sc, s, t, i, batch, reply))
  {
    var s := Run(sc, clock, steps);
    RunFollows(sc, clock, steps);
    RunConserved(sc, clock, steps);
    RunBudgetsSelected(sc, clock, steps);
    assert RunnerSound(s.runners[i]);
    RunExtends(sc, clock, steps, Reserve(i, draw, reply));
    ReserveLeads(sc, s, i, draw, reply);
  }

  /** One more executed slot, and the wait after it. */
  predicate SlotDone(sc: Setting, s: State, t: State, i: nat, delay: int)
    requires Has(sc, s, i) && i < |t.runners| && s.runners[i].phase.Batch? && delay >= 1
  {
    var b, phase := s.runners[i].phase, t.runners[i].phase;
    && t.keys == s.keys && t.executed == s.executed + 1 && t.abandoned == s.abandoned
    && 1 <= b.position <= b.decision.granted
    && t.finished == (if b.position < b.decision.granted then s.finished
                      else s.finished + [Finished(b.decision.granted, b.decision.granted)])
    && (b.position < b.decision.granted ==> phase == Scheduler.Batch(b.rpm, b.decision, b.position + 1, s.now + delay))
    && (b.position == b.decision.granted ==> phase == Scheduler.Ready(s.now + Max(delay, b.decision.retryAfter)))
  }

  lemma SlotLeads(sc: Setting, s: State, i: nat, draw: nat)
    requires Valid(sc) && MayExecute(sc, s, i, draw) && RunnerSound(s.runners[i])
    ensures var t, b := Next(sc, s, Execute(i, draw)), s.runners[i].phase;
            var delay := Profile.NextDelay(sc.plans[i].profile, b.rpm, b.position, b.decision.granted, draw);
            delay >= 1 && OnlyRunner(s, t, i) && SlotDone(sc, s, t, i, delay)
  {
    var b := s.runners[i].phase;
    Profile.DelayPositive(sc.plans[i].profile, b.rpm, b.position, b.decision.granted, draw);
  }

  /**
   What executing a slot leads to, in every run: one more executed slot, then the profile's wait,
   after the last slot at least the limiter's delay, and the next slot or the top of the loop.
   */
  lemma SlotOutcome(sc: Setting, clock: nat, steps: seq<Step>, i: nat, draw: nat)
    requires Valid(sc) && MayExecute(sc, Run(sc, clock, steps), i, draw)
    ensures var s, t := Run(sc, clock, steps), Run(sc, clock, steps + [Execute(i, draw)]);
            var b := s.runners[i].phase;
            var delay := Profile.NextDelay(sc.plans[i].profile, b.rpm, b.position, b.decision.granted, draw);
            delay >= 1 && OnlyRunner(s, t, i) && SlotDone(sc, s, t, i, delay)
  {
    RunConserved(sc, clock, steps);
    RunExtends(sc, clock, steps, Execute(i, draw));
    SlotLeads(sc, Run(sc, clock, steps), i, draw);
  }

  /** The permits of a batch from its position on. */
  function Remaining(phase: Scheduler.Phase): int {
    match phase
    case Batch(_, decision, position, _) => decision.granted - position + 1
    case _ => 0
  }

  lemma StopLeads(sc: Setting, s: State, i: nat)
    requires Valid(sc) && i < |s.runners| && RunnerSound(s.runners[i])
    ensures var t := Next(sc, s, Stop(i));
            && OnlyRunner(s, t, i) && t.keys == s.keys && t.executed == s.executed
            && t.runners[i].phase == Scheduler.Stopped
            && t.abandoned == s.abandoned + Remaining(s.runners[i].phase)
  {
  }

  /** A runner that stops leaves its remaining permits to nobody. */
  lemma StopOutcome(sc: Setting, clock: nat, steps: seq<Step>, i: nat)
    requires Valid(sc) && i < |Run(sc, clock, steps).runners|
    ensures var s, t := Run(sc, clock, steps), Run(sc, clock, steps + [Stop(i)]);
            && OnlyRunner(s, t, i) && t.keys == s.keys && t.executed == s.executed
            && t.runners[i].phase == Scheduler.Stopped
            && t.abandoned == s.abandoned + Remaining(s.runners[i].phase)
  {
    RunConserved(sc, clock, steps);
    RunExtends(sc, clock, steps, Stop(i));
    StopLeads(sc, Run(sc, clock, steps), i);
  }

  lemma ReselectLeads(sc: Setting, clock: nat, s: State, i: nat, draw: nat)
    requires Valid(sc) && MayResolve(sc, s, i, draw)
    requires KeysFollow(sc.scope, clock, s.now, s.keys)
    ensures var t := Next(sc, s, Reselect(i, draw));
            && t == s.(keys := t.keys) && t.keys.limiter == s.keys.limiter
            && RateAt(sc.plans[i].config, t.keys, s.now / 1_000).Some?
  {
    ReadLeads(sc, clock, s, i, draw, Lost);
    assert Next(sc, s, Reselect(i, draw)).keys == Next(sc, s, Resolve(i, draw, Lost)).keys;
  }

  /** An unanswered read, in every run: the runner goes on trying, but a rate is selected. */
  lemma ReselectOutcome(sc: Setting, clock: nat, steps: seq<Step>, i: nat, draw: nat)
    requires Valid(sc) && MayResolve(sc, Run(sc, clock, steps), i, draw)
    ensures var s, t := Run(sc, clock, steps), Run(sc, clock, steps + [Reselect(i, draw)]);
            && t == s.(keys := t.keys) && t.keys.limiter == s.keys.limiter
            && RateAt(sc.plans[i].config, t.keys, s.now / 1_000).Some?
  {
    RunFollows(sc, clock, steps);
    RunExtends(sc, clock, steps, Reselect(i, draw));
    ReselectLeads(sc, clock, Run(sc, clock, steps), i, draw);
  }

  /** One more call of runner `i`, whose grants nobody will use. */
  predicate TakenInVain(s: State, t: State, rpm: nat, batch: nat) {
    var before, after := s.keys.limiter.calls, t.keys.limiter.calls;
    && t.now == s.now && t.runners == s.runners && t.keys.schedule == s.keys.schedule && t.executed == s.executed
    && |after| == |before| + 1
    && after == before + [Ledger.Call(s.now / 1_000, rpm, batch, after[|before|].decision)]
    && t.abandoned == s.abandoned + after[|before|].decision.granted
  }

  lemma ReacquireLeads(sc: Setting, s: State, i: nat, draw: nat)
    requires Valid(sc) && MayReserve(sc, s, i, draw)
    requires Scheduler.InRange(s.runners[i].phase) && s.keys.limiter.now == Micros(s.now)
    ensures TakenInVain(s, Next(sc, s, Reacquire(i, draw)), s.runners[i].phase.rpm, BatchOf(sc, s, i, draw))
  {
    Profile.BatchSizeAccepted(sc.plans[i].profile, s.runners[i].phase.rpm, draw);
    AnswerIsHonest(s, s.runners[i].phase.rpm, BatchOf(sc, s, i, draw));
  }

  /** An unanswered reservation, in every run: the runner goes on trying, but its permits are lost. */
  lemma ReacquireOutcome(sc: Setting, clock: nat, steps: seq<Step>, i: nat, draw: nat)
    requires Valid(sc) && MayReserve(sc, Run(sc, clock, steps), i, draw)
    ensures var s, t := Run(sc, clock, steps), Run(sc, clock, steps + [Reacquire(i, draw)]);
            var rpm := s.runners[i].phase.rpm;
            TakenInVain(s, t, rpm, Profile.BatchSize(sc.plans[i].profile, rpm, draw))
  {
    var s := Run(sc, clock, steps);
    RunFollows(sc, clock, steps);
    RunConserved(sc, clock, steps);
    assert RunnerSound(s.runners[i]);
    RunExtends(sc, clock, steps, Reacquire(i, draw));
    ReacquireLeads(sc, s, i, draw);
  }

  /** The answer to every limiter call of the fleet, in terms of the calls before it. */
  lemma FleetDecidesRight(sc: Setting, clock: nat, steps: seq<Step>, k: nat)
    requires Valid(sc)
    requires k < |Run(sc, clock, steps).keys.limiter.calls|
    ensures Ledger.DecidedRight(Run(sc, clock, steps).keys.limiter.calls, 60_000_000, k)
  {
    RunFollows(sc, clock, steps);
    Ledger.RedisDecidesRight(MINUTE, Micros(clock), Run(sc, clock, steps).keys.limiterSteps, k);
  }

  // ---- what a stale rate can do ----

  /** Two runners with rates from 2 to 5 in one-minute windows, reserved two at a time. */
  predicate TwoToFive(sc: Setting) {
    && Valid(sc) && |sc.plans| == 2 && sc.plans[0] == sc.plans[1]
    && sc.plans[0].config == RateSchedule.Config(2, 5, MINUTE_NANOS)
    && sc.plans[0].profile == Profile.Burst(2, 2, 10)
  }

  /** No call has been made yet in the schedule window around the present. */
  predicate WindowUnread(k: Keys, c: RateSchedule.Config)
    requires RateSchedule.ValidConfig(c)
  {
    RateSchedule.PicksBefore(k.schedule.picks, c, Start(k.schedule.now, RateSchedule.WindowMicros(c)))
  }

  /** The call of the first proposer in a window. */
  function OwnPick(sc: Setting, s: State, i: nat, draw: nat): RateSchedule.Pick
    requires Valid(sc) && i < |sc.plans|
  {
    var c := sc.plans[i].config;
    RateSchedule.Pick(c, Micros(s.now), c.min + draw, Some(c.min + draw))
  }

  lemma OwnProposalStands(sc: Setting, s: State, i: nat, draw: nat)
    requires Valid(sc) && i < |sc.plans|
    requires RateSchedule.Next(sc.scope, s.keys.schedule, Proposal(sc, i, draw)).picks ==
             s.keys.schedule.picks + [OwnPick(sc, s, i, draw)]
    ensures TakeSchedule(sc.scope, s.keys, Proposal(sc, i, draw)).schedule.picks ==
            s.keys.schedule.picks + [OwnPick(sc, s, i, draw)]
  {
  }

  lemma OwnSelect(sc: Setting, clock: nat, s: State, i: nat, draw: nat)
    requires Valid(sc) && i < |sc.plans| && draw <= sc.plans[i].config.max - sc.plans[i].config.min
    requires s.keys.schedule == RateSchedule.Run(sc.scope, Micros(clock), s.keys.scheduleSteps)
    requires s.keys.schedule.now == Micros(s.now) && WindowUnread(s.keys, sc.plans[i].config)
    ensures RateSchedule.Next(sc.scope, s.keys.schedule, Proposal(sc, i, draw)).picks ==
            s.keys.schedule.picks + [OwnPick(sc, s, i, draw)]
  {
    RateSchedule.RunSelectsOwn(
      sc.scope, Micros(clock), s.keys.scheduleSteps, s.keys.schedule, sc.plans[i].config, draw);
  }

  /** Runner `i` has read the rate of the call `pick`. */
  predicate RateTaken(s: State, t: State, i: nat, pick: RateSchedule.Pick) {
    && i < |s.runners| && pick.value.Some?
    && t.now == s.now && t.keys.limiter == s.keys.limiter && t.keys.schedule.now == s.keys.schedule.now
    && t.runners == s.runners[i := Runner(Scheduler.Resolved(pick.value.value), Micros(s.now), s.runners[i].ran)]
    && t.keys.schedule.picks == s.keys.schedule.picks + [pick]
  }

  /** A runner that is answered takes the value its call was given. */
  lemma TakesPick(sc: Setting, s: State, i: nat, draw: nat, pick: RateSchedule.Pick)
    requires Valid(sc) && MayResolve(sc, s, i, draw)
    requires TakeSchedule(sc.scope, s.keys, Proposal(sc, i, draw)).schedule.picks == s.keys.schedule.picks + [pick]
    requires pick.value.Some? && 1 <= pick.value.value <= Scheduler.MAX_RPM
    ensures RateTaken(s, Next(sc, s, Resolve(i, draw, Delivered)), i, pick)
  {
  }

  /** The first runner to call in a window reads the rate it proposes. */
  lemma ReadsOwnProposal(sc: Setting, clock: nat, s: State, i: nat, draw: nat)
    requires Valid(sc) && KeysFollow(sc.scope, clock, s.now, s.keys)
    requires MayResolve(sc, s, i, draw) && WindowUnread(s.keys, sc.plans[i].config)
    requires sc.plans[i].config.min + draw <= Scheduler.MAX_RPM
    ensures RateTaken(s, Next(sc, s, Resolve(i, draw, Delivered)), i, OwnPick(sc, s, i, draw))
  {
    OwnSelect(sc, clock, s, i, draw);
    OwnProposalStands(sc, s, i, draw);
    TakesPick(sc, s, i, draw, OwnPick(sc, s, i, draw));
  }

  lemma FreshRate(c: RateSchedule.Config, picks: seq<RateSchedule.Pick>, p: RateSchedule.Pick, after: Keys)
    requires RateSchedule.ValidConfig(c) && c.window == MINUTE_NANOS
    requires |picks| == 1 && picks[0].at == 0
    requires p.config == c && p.at == MINUTE
    requires after.schedule.picks == picks + [p]
    ensures RateAt(c, after, MINUTE) == Some(p.candidate)
  {
    assert RateSchedule.WindowMicros(c) == MINUTE && Start(MINUTE, MINUTE) == MINUTE;
    RateSchedule.NoneFirst(picks, c, MINUTE);
    RateSchedule.FirstAfterAppend(picks, p, c, MINUTE);
  }

  /** Runner 0 reads the rate 5 in the first minute. */
  lemma FirstRead(sc: Setting) returns (steps: seq<Step>, s: State)
    requires TwoToFive(sc)
    ensures s == Run(sc, 0, steps)
    ensures s.runners == [Runner(Scheduler.Resolved(5), 0, 0), Runner(Scheduler.Ready(0), 0, 0)]
    ensures s.now == 0 && s.keys.limiter == Ledger.RedisWorld(0, NO_KEY, []) && s.keys.schedule.now == 0
    ensures |s.keys.schedule.picks| == 1 && s.keys.schedule.picks[0].at == 0
  {
    RunFollows(sc, 0, []);
    ReadsOwnProposal(sc, 0, Begin(sc, 0), 0, 3);
    RunExtends(sc, 0, [], Resolve(0, 3, Delivered));
    steps, s := [] + [Resolve(0, 3, Delivered)], Next(sc, Begin(sc, 0), Resolve(0, 3, Delivered));
  }

  lemma MinutePasses(sc: Setting, r: State)
    requires TwoToFive(sc)
    requires r.now == 0 && r.keys.limiter == Ledger.RedisWorld(0, NO_KEY, []) && r.keys.schedule.now == 0
    ensures var s := Next(sc, r, Tick(MINUTE_NANOS));
            && s.now == MINUTE_NANOS && s.runners == r.runners
            && s.keys.limiter == Ledger.RedisWorld(MINUTE, NO_KEY, []) && s.keys.schedule.now == MINUTE
            && s.keys.schedule.picks == r.keys.schedule.picks
  {
    assert Micros(MINUTE_NANOS) == MINUTE;
  }

  /** It still has it a minute later. */
  lemma WaitedRead(sc: Setting) returns (steps: seq<Step>, s: State)
    requires TwoToFive(sc)
    ensures s == Run(sc, 0, steps)
    ensures s.runners == [Runner(Scheduler.Resolved(5), 0, 0), Runner(Scheduler.Ready(0), 0, 0)]
    ensures s.now == MINUTE_NANOS && s.keys.limiter == Ledger.RedisWorld(MINUTE, NO_KEY, [])
    ensures s.keys.schedule.now == MINUTE
    ensures |s.keys.schedule.picks| == 1 && s.keys.schedule.picks[0].at == 0
  {
    var prior, r := FirstRead(sc);
    MinutePasses(sc, r);
    RunExtends(sc, 0, prior, Tick(MINUTE_NANOS));
    steps, s := prior + [Tick(MINUTE_NANOS)], Next(sc, r, Tick(MINUTE_NANOS));
  }

  /** Then runner 1 is the first to call in its window, proposes 2 and reads it. */
  lemma SecondRead(sc: Setting, s: State) returns (t: State)
    requires TwoToFive(sc) && KeysFollow(sc.scope, 0, s.now, s.keys)
    requires |s.runners| == 2 && s.runners[1] == Runner(Scheduler.Ready(0), 0, 0)
    requires s.now == MINUTE_NANOS && s.keys.schedule.now == MINUTE
    requires |s.keys.schedule.picks| == 1 && s.keys.schedule.picks[0].at == 0
    ensures t == Next(sc, s, Resolve(1, 0, Delivered))
    ensures t.runners == s.runners[1 := Runner(Scheduler.Resolved(2), MINUTE, 0)] && t.keys.limiter == s.keys.limiter
    ensures RateAt(sc.plans[0].config, t.keys, MINUTE) == Some(2)
  {
    assert RateSchedule.WindowMicros(sc.plans[1].config) == MINUTE && Start(MINUTE, MINUTE) == MINUTE;
    ReadsOwnProposal(sc, 0, s, 1, 0);
    t := Next(sc, s, Resolve(1, 0, Delivered));
    FreshRate(sc.plans[0].config, s.keys.schedule.picks, OwnPick(sc, s, 1, 0), t.keys);
  }

  lemma FreshRead(sc: Setting) returns (steps: seq<Step>, s: State)
    requires TwoToFive(sc)
    ensures s == Run(sc, 0, steps)
    ensures s.runners == [Runner(Scheduler.Resolved(5), 0, 0), Runner(Scheduler.Resolved(2), MINUTE, 0)]
    ensures s.keys.limiter == Ledger.RedisWorld(MINUTE, NO_KEY, [])
    ensures RateAt(sc.plans[0].config, s.keys, MINUTE) == Some(2)
  {
    var prior, t := WaitedRead(sc);
    RunFollows(sc, 0, prior);
    s := SecondRead(sc, t);
    RunExtends(sc, 0, prior, Resolve(1, 0, Delivered));
    steps := prior + [Resolve(1, 0, Delivered)];
  }

  /** The limiter grants 2 permits to a budget of 2, then 2 more to the larger budget of 5. */
  lemma BudgetsMix()
    ensures var w := Ledger.RedisWorld(MINUTE, NO_KEY, []);
            var calls := Ledger.RedisStep(MINUTE, Ledger.RedisStep(MINUTE, w, Ledger.Acquire(2, 2)), Ledger.Acquire(5, 2)).calls;
            Ledger.GrantedIn(calls, Start(MINUTE, MINUTE), End(MINUTE, MINUTE)) == 4
  {
    var first, second := Ledger.Call(MINUTE, 2, 2, Decision(2, 0)), Ledger.Call(MINUTE, 5, 2, Decision(2, 0));
    var w := Ledger.RedisStep(MINUTE, Ledger.RedisWorld(MINUTE, NO_KEY, []), Ledger.Acquire(2, 2));
    assert Start(MINUTE, MINUTE) == MINUTE;
    assert w.calls == [] + [first] && Recorded(w.key, MINUTE) == 2;
    assert Ledger.RedisStep(MINUTE, w, Ledger.Acquire(5, 2)).calls == [first] + [second];
    Ledger.AppendCall([], first, MINUTE, MINUTE + MINUTE);
    Ledger.AppendCall([first], second, MINUTE, MINUTE + MINUTE);
  }

  /** A batch of two is what runner `i` reserves next, at its own rate. */
  lemma ReserveTwo(sc: Setting, s: State, i: nat, rpm: nat)
    requires TwoToFive(sc)
    requires i < |s.runners| == 2 && s.runners[i].phase == Scheduler.Resolved(rpm) && 2 <= rpm <= 5
    ensures var t := Next(sc, s, Reserve(i, 0, Delivered));
            && t.keys == TakeLimiter(s.keys, Ledger.Acquire(rpm, 2))
            && |t.runners| == |s.runners|
            && forall j :: 0 <= j < |s.runners| && j != i ==> t.runners[j] == s.runners[j]
  {
    assert BatchOf(sc, s, i, 0) == 2;
    assert Next(sc, s, Reserve(i, 0, Delivered)) == ReserveBatch(s, i, 2, Delivered);
  }

  lemma SameSelectedRate(sc: Setting, s: State, u: State)
    requires TwoToFive(sc)
    requires RateAt(sc.plans[0].config, s.keys, MINUTE) == Some(2) && u.keys.schedule == s.keys.schedule
    ensures SelectedRate(sc.plans, u.keys, MINUTE) == 2
  {
    OneSelectedRate(sc.plans, u.keys, MINUTE, sc.plans[0].config);
  }

  /**
   Without the condition of SystemBudget the selected rate can be exceeded: in this run two
   runners are granted 4 permits in a minute whose selected rate is 2.
   */
  lemma StaleRunnerOverruns(sc: Setting) returns (steps: seq<Step>)
    requires TwoToFive(sc)
    ensures var s := Run(sc, 0, steps);
            && SelectedRate(sc.plans, s.keys, MINUTE) == 2
            && Ledger.GrantedIn(s.keys.limiter.calls, Start(MINUTE, MINUTE), End(MINUTE, MINUTE)) == 4
  {
    var s;
    steps, s := FreshRead(sc);
    var t := Next(sc, s, Reserve(1, 0, Delivered));
    var u := Next(sc, t, Reserve(0, 0, Delivered));
    ReserveTwo(sc, s, 1, 2);
    ReserveTwo(sc, t, 0, 5);
    RunExtends(sc, 0, steps, Reserve(1, 0, Delivered));
    RunExtends(sc, 0, steps + [Reserve(1, 0, Delivered)], Reserve(0, 0, Delivered));
    steps := steps + [Reserve(1, 0, Delivered)] + [Reserve(0, 0, Delivered)];
    BudgetsMix();
    SameSelectedRate(sc, s, u);
  }
}
