/**
 The Redis-coordinated schedule: the first runner to reach Redis in a window
 proposes the requests per minute, and every later one reads that value.
 */
module RateSchedule {
  import opened Results
  import opened Windows
  import opened RedisHash
  import opened RateLimit
  import RedisKeys

  /** The window is a Duration in nanoseconds. */
  datatype Config = Config(min: int, max: int, window: int)

  datatype ScheduleError =
    | NoClient
    | InvalidScope
    | MinimumNotPositive
    | MaximumBelowMinimum
    | WindowNotWholeMinutes
    | NoRandomSource
    | CallCancelled
    | CallFailed

  /** A constructed schedule: its Redis key, and the range it draws candidates from. */
  datatype Uniform = Uniform(key: string, min: nat, rangeSize: nat, windowMicros: nat)

  predicate ValidConfig(c: Config) {
    1 <= c.min <= c.max && c.window >= MINUTE_NANOS && c.window % MINUTE_NANOS == 0
  }

  function WindowMicros(c: Config): nat
    requires ValidConfig(c)
  {
    c.window / NANOS_PER_MICRO
  }

  function KeyName(scope: RedisKeys.Scope, c: Config): string
    requires ValidConfig(c)
  {
    RedisKeys.Render(scope, RedisKeys.ScheduleKey(c.min, c.max, WindowMicros(c)))
  }

  lemma WholeMinutes(c: Config)
    requires ValidConfig(c)
    ensures WindowMicros(c) >= MINUTE && WindowMicros(c) % MINUTE == 0
    ensures WindowMicros(c) * 1_000 == c.window
  {
    var minutes := c.window / MINUTE_NANOS;
    assert WindowMicros(c) == minutes * MINUTE;
  }

  /** The key of the settings, candidates from min to max, and windows of whole minutes. */
  predicate Draws(u: Uniform, scope: RedisKeys.Scope, c: Config) {
    && ValidConfig(c)
    && u.key == KeyName(scope, c)
    && u.min == c.min && u.min + u.rangeSize == c.max + 1
    && u.windowMicros * 1_000 == c.window
    && u.windowMicros >= 60_000_000 && u.windowMicros % 60_000_000 == 0
  }

  /** The checks in their order, then the parameterised key. */
  function NewRedisUniform(hasClient: bool, scope: RedisKeys.Scope, c: Config, hasRandom: bool)
    : (result: Result<Uniform, ScheduleError>)
    ensures result.Ok? <==>
              && hasClient && RedisKeys.Valid(scope) && hasRandom
              && 1 <= c.min <= c.max && c.window >= 60_000_000_000 && c.window % 60_000_000_000 == 0
    ensures result.Ok? ==> Draws(result.value, scope, c)
    ensures result == Err(ScheduleError.NoClient) <==> !hasClient
    ensures result == Err(ScheduleError.InvalidScope) <==> hasClient && !RedisKeys.Valid(scope)
    ensures result == Err(MinimumNotPositive) <==> hasClient && RedisKeys.Valid(scope) && c.min < 1
    ensures result == Err(MaximumBelowMinimum) <==> hasClient && RedisKeys.Valid(scope) && c.max < c.min && c.min >= 1
    ensures result == Err(NoRandomSource) <==>
              && hasClient && RedisKeys.Valid(scope) && !hasRandom
              && 1 <= c.min <= c.max && c.window >= 60_000_000_000 && c.window % 60_000_000_000 == 0
  {
    if !hasClient then Err(ScheduleError.NoClient)
    else if !RedisKeys.Valid(scope) then Err(ScheduleError.InvalidScope)
    else if c.min < 1 then Err(MinimumNotPositive)
    else if c.max < c.min then Err(MaximumBelowMinimum)
    else if c.window < MINUTE_NANOS || c.window % MINUTE_NANOS != 0 then Err(WindowNotWholeMinutes)
    else if !hasRandom then Err(NoRandomSource)
    else
      WholeMinutes(c);
      Ok(Uniform(KeyName(scope, c), c.min, c.max - c.min + 1, WindowMicros(c)))
  }

  /** Settings that differ anywhere use different keys, also across scopes. */
  lemma KeyEncodesSettings(s: RedisKeys.Scope, c: Config, t: RedisKeys.Scope, d: Config)
    requires RedisKeys.Valid(s) && RedisKeys.Valid(t)
    requires ValidConfig(c) && ValidConfig(d)
    requires KeyName(s, c) == KeyName(t, d)
    ensures s == t && c == d
  {
    RedisKeys.KeysIdentifyScope(s, RedisKeys.ScheduleKey(c.min, c.max, WindowMicros(c)),
                                t, RedisKeys.ScheduleKey(d.min, d.max, WindowMicros(d)));
  }

  /** The value a call at `now` gets from the key, given its own candidate. */
  function Selected(h: Hash, now: nat, window: nat, candidate: nat): Option<nat>
    requires window > 0
  {
    if WindowField in h.fields && h.fields[WindowField] == Start(now, window) then
      if RpmField in h.fields then Some(h.fields[RpmField]) else None
    else Some(candidate)
  }

  function AfterSelect(h: Hash, now: nat, window: nat, candidate: nat): Hash
    requires window > 0
  {
    var start := Start(now, window);
    Hash(
      if WindowField in h.fields && h.fields[WindowField] == start then h.fields
      else h.fields[WindowField := start][RpmField := candidate],
      Some(WindowDeadline(now, window)))
  }

  /** The script, run atomically by Redis at `now`. */
  method SelectScript(key: RedisKey, now: nat, window: nat, candidate: nat) returns (selected: Option<nat>)
    requires window > 0
    modifies key
    ensures selected == Selected(old(key.View()), now, window, candidate)
    ensures var fields := old(key.fields);
            selected == if !(WindowField in fields && fields[WindowField] == now - now % window) then Some(candidate)
                        else if RpmField in fields then Some(fields[RpmField]) else None
    ensures key.deadline.Some?
            && now - now % window + 2 * window - 1_000 < key.deadline.value < now - now % window + 2 * window + 1_000
    ensures key.View() == AfterSelect(old(key.View()), now, window, candidate)
  {
    StartIsRemainder(now, window);
    DeadlineIsOneWindowLater(now, window);
    var windowStart := now - now % window;
    var storedWindow := key.HGet(WindowField);
    if storedWindow.None? || storedWindow.value != windowStart {
      selected := Some(candidate);
      key.HSet(WindowField, windowStart);
      key.HSet(RpmField, candidate);
    } else {
      selected := key.HGet(RpmField);
    }
    var remainingMicros := windowStart + window - now;
    assert WindowField in key.fields;
    key.PExpire(now, CeilDiv(remainingMicros + window, 1000));
  }

  /** The key after attempts that ran at the given times without an answer. */
  function AfterLostSelects(h: Hash, lost: seq<nat>, window: nat, candidate: nat): Hash
    requires window > 0
  {
    if lost == [] then h
    else AfterSelect(AfterLostSelects(h, lost[..|lost| - 1], window, candidate), lost[|lost| - 1], window, candidate)
  }

  class RedisUniform {
    const key: RedisKey
    const settings: Uniform

    constructor (key: RedisKey, settings: Uniform)
      requires key.name == settings.key
      ensures this.key == key && this.settings == settings
    {
      this.key := key;
      this.settings := settings;
    }

    /**
     `draw` is what the random source returns for the range; `now` is the Redis clock at the
     last attempt, and `lost` are the times of the attempts before it that ran unanswered.
     */
    method RequestsPerMinute(cancelled: bool, lost: seq<nat>, now: nat, draw: nat, reply: Reply)
      returns (result: Result<nat, ScheduleError>)
      requires settings.windowMicros > 0
      requires draw < settings.rangeSize
      modifies key
      ensures cancelled ==> result == Err(CallCancelled) && key.View() == old(key.View())
      ensures !cancelled ==>
                var candidate, window := settings.min + draw, settings.windowMicros;
                var before := AfterLostSelects(old(key.View()), lost, window, candidate);
                var selected := Selected(before, now, window, candidate);
                && key.View() == (if reply.NotRun? then before else AfterSelect(before, now, window, candidate))
                && result == if reply.Delivered? && selected.Some? then Ok(selected.value) else Err(CallFailed)
    {
      if cancelled {
        return Err(CallCancelled);
      }
      var candidate := settings.min + draw;
      for k := 0 to |lost|
        invariant key.View() == AfterLostSelects(old(key.View()), lost[..k], settings.windowMicros, candidate)
      {
        assert lost[..k + 1][..k] == lost[..k];
        var _ := SelectScript(key, lost[k], settings.windowMicros, candidate);
      }
      assert lost[..|lost|] == lost;
      if reply.NotRun? {
        return Err(CallFailed);
      }
      var selected := SelectScript(key, now, settings.windowMicros, candidate);
      if reply.Lost? || selected.None? {
        return Err(CallFailed);
      }
      return Ok(selected.value);
    }
  }

  /** Schedules of one scope with the same settings share one key on the server. */
  method OpenRedisUniform(server: Server?, scope: RedisKeys.Scope, c: Config, hasRandom: bool)
    returns (schedule: RedisUniform?, error: Option<ScheduleError>)
    requires server != null ==> server.Valid()
    modifies server
    ensures var made := NewRedisUniform(server != null, scope, c, hasRandom);
            if made.Err? then
              schedule == null && error == Some(made.error) && (server != null ==> server.keys == old(server.keys))
            else
              && error.None? && server.Valid()
              && schedule != null && schedule.settings == made.value && made.value.key == KeyName(scope, c)
              && KeyName(scope, c) in server.keys && schedule.key == server.keys[KeyName(scope, c)]
              && (KeyName(scope, c) in old(server.keys) ==> server.keys == old(server.keys))
              && (KeyName(scope, c) !in old(server.keys) ==>
                    && server.keys == old(server.keys)[KeyName(scope, c) := schedule.key]
                    && fresh(schedule.key) && schedule.key.View() == NO_KEY)
  {
    var made := NewRedisUniform(server != null, scope, c, hasRandom);
    if made.Err? {
      return null, Some(made.error);
    }
    var key := server.Key(made.value.key);
    schedule := new RedisUniform(key, made.value);
    return schedule, None;
  }

  // ---- whole runs of any number of runners with any settings in one scope ----

  /** A call that Redis ran: who asked, its candidate, and the value it returned. */
  datatype Pick = Pick(config: Config, at: nat, candidate: nat, value: Option<nat>)

  datatype Step = Tick(to: nat) | Expire(name: string) | Select(config: Config, draw: nat)

  datatype World = World(now: nat, keys: map<string, Hash>, picks: seq<Pick>)

  function KeyOf(w: World, name: string): Hash {
    if name in w.keys then w.keys[name] else NO_KEY
  }

  /** A call of settings `c` on the key of that name. */
  function SelectAt(w: World, name: string, c: Config, draw: nat): World
    requires ValidConfig(c) && draw <= c.max - c.min
  {
    var window, candidate, before := WindowMicros(c), c.min + draw, KeyOf(w, name);
    World(w.now, w.keys[name := AfterSelect(before, w.now, window, candidate)],
          w.picks + [Pick(c, w.now, candidate, Selected(before, w.now, window, candidate))])
  }

  function Next(scope: RedisKeys.Scope, w: World, step: Step): World {
    match step
    case Tick(to) => w.(now := Max(w.now, to))
    case Expire(name) => w.(keys := w.keys[name := Vanish(KeyOf(w, name), w.now)])
    case Select(c, draw) =>
      if !ValidConfig(c) || draw > c.max - c.min then w else SelectAt(w, KeyName(scope, c), c, draw)
  }

  function Run(scope: RedisKeys.Scope, clock: nat, steps: seq<Step>): World {
    if steps == [] then World(clock, map[], [])
    else Next(scope, Run(scope, clock, steps[..|steps| - 1]), steps[|steps| - 1])
  }

  /** The candidate of the first call with settings `c` in the window starting at `start`. */
  function FirstCandidate(picks: seq<Pick>, c: Config, start: nat): Option<nat>
    requires ValidConfig(c)
  {
    if picks == [] then None
    else
      var earlier := FirstCandidate(picks[..|picks| - 1], c, start);
      var last := picks[|picks| - 1];
      if earlier.Some? then earlier
      else if last.config == c && Start(last.at, WindowMicros(c)) == start then Some(last.candidate)
      else None
  }

  predicate PicksBefore(picks: seq<Pick>, c: Config, t: int) {
    forall i :: 0 <= i < |picks| && picks[i].config == c ==> picks[i].at < t
  }

  predicate PicksAgree(picks: seq<Pick>, c: Config)
    requires ValidConfig(c)
  {
    forall i :: 0 <= i < |picks| && picks[i].config == c ==>
      && picks[i].value.Some?
      && c.min <= picks[i].value.value <= c.max
      && picks[i].value == FirstCandidate(picks, c, Start(picks[i].at, WindowMicros(c)))
  }

  /** What the expiring hash of settings `c` still knows about the calls made so far. */
  predicate HashKnows(h: Hash, now: nat, picks: seq<Pick>, c: Config)
    requires ValidConfig(c)
  {
    var window := WindowMicros(c);
    && PicksBefore(picks, c, now + 1)
    && PicksAgree(picks, c)
    && if WindowField in h.fields then
         var start := h.fields[WindowField];
         && Aligned(start, window) && start <= now
         && RpmField in h.fields
         && c.min <= h.fields[RpmField] <= c.max
         && FirstCandidate(picks, c, start) == Some(h.fields[RpmField])
         && h.deadline.Some? && start + window <= h.deadline.value
         && PicksBefore(picks, c, start + window)
       else
         h == NO_KEY && PicksBefore(picks, c, Start(now, window))
  }

  predicate Knows(scope: RedisKeys.Scope, w: World, c: Config)
    requires ValidConfig(c)
  {
    HashKnows(KeyOf(w, KeyName(scope, c)), w.now, w.picks, c)
  }

  lemma {:induction false} NoneFirst(picks: seq<Pick>, c: Config, start: nat)
    requires ValidConfig(c)
    requires PicksBefore(picks, c, start)
    ensures FirstCandidate(picks, c, start) == None
  {
    if picks != [] {
      NoneFirst(picks[..|picks| - 1], c, start);
    }
  }

  lemma {:induction false} FirstHasPick(picks: seq<Pick>, c: Config, start: nat) returns (i: nat)
    requires ValidConfig(c)
    requires FirstCandidate(picks, c, start).Some?
    ensures i < |picks| && picks[i].config == c && Start(picks[i].at, WindowMicros(c)) == start
  {
    var n := |picks| - 1;
    if FirstCandidate(picks[..n], c, start).Some? {
      i := FirstHasPick(picks[..n], c, start);
    } else {
      i := n;
    }
  }

  lemma FirstAfterAppend(picks: seq<Pick>, p: Pick, c: Config, start: nat)
    requires ValidConfig(c)
    ensures FirstCandidate(picks + [p], c, start) ==
            if FirstCandidate(picks, c, start).Some? then FirstCandidate(picks, c, start)
            else if p.config == c && Start(p.at, WindowMicros(c)) == start then Some(p.candidate)
            else None
  {
    assert (picks + [p])[..|picks|] == picks;
  }

  lemma PicksAgreeAppend(picks: seq<Pick>, p: Pick, c: Config)
    requires ValidConfig(c)
    requires PicksAgree(picks, c)
    requires p.config == c ==>
      && p.value.Some?
      && c.min <= p.value.value <= c.max
      && p.value == FirstCandidate(picks + [p], c, Start(p.at, WindowMicros(c)))
    ensures PicksAgree(picks + [p], c)
  {
    var all := picks + [p];
    forall i | 0 <= i < |all| && all[i].config == c
      ensures all[i].value.Some? && c.min <= all[i].value.value <= c.max
      ensures all[i].value == FirstCandidate(all, c, Start(all[i].at, WindowMicros(c)))
    {
      FirstAfterAppend(picks, p, c, Start(all[i].at, WindowMicros(c)));
      if i < |picks| {
        assert all[i] == picks[i];
      }
    }
  }

  /** The value a call returns is the first candidate of its window, its own if it came first. */
  lemma SelectedIsFirst(h: Hash, now: nat, picks: seq<Pick>, c: Config, candidate: nat)
    requires ValidConfig(c) && c.min <= candidate <= c.max
    requires HashKnows(h, now, picks, c)
    ensures var window := WindowMicros(c);
            var value, after := Selected(h, now, window, candidate), AfterSelect(h, now, window, candidate);
            && value.Some? && c.min <= value.value <= c.max
            && FirstCandidate(picks + [Pick(c, now, candidate, value)], c, Start(now, window)) == value
            && WindowField in after.fields && after.fields[WindowField] == Start(now, window)
            && RpmField in after.fields && Some(after.fields[RpmField]) == value
  {
    var window := WindowMicros(c);
    var start := Start(now, window);
    FirstAfterAppend(picks, Pick(c, now, candidate, Selected(h, now, window, candidate)), c, start);
    if WindowField !in h.fields {
      NoneFirst(picks, c, start);
    } else if h.fields[WindowField] != start {
      WindowsDisjoint(h.fields[WindowField], now, window);
      NoneFirst(picks, c, start);
    }
  }

  lemma KnowsOwnSelect(h: Hash, now: nat, picks: seq<Pick>, c: Config, candidate: nat)
    requires ValidConfig(c) && c.min <= candidate <= c.max
    requires HashKnows(h, now, picks, c)
    ensures var window := WindowMicros(c);
            var pick := Pick(c, now, candidate, Selected(h, now, window, candidate));
            HashKnows(AfterSelect(h, now, window, candidate), now, picks + [pick], c)
  {
    var window := WindowMicros(c);
    var pick := Pick(c, now, candidate, Selected(h, now, window, candidate));
    SelectedIsFirst(h, now, picks, c, candidate);
    PicksAgreeAppend(picks, pick, c);
    DeadlineCoversWindow(now, window);
    SameWindow(now, now, window);
    assert PicksBefore(picks + [pick], c, now + 1);
  }

  lemma KnowsOtherSelect(h: Hash, now: nat, picks: seq<Pick>, c: Config, pick: Pick)
    requires ValidConfig(c) && pick.config != c
    requires HashKnows(h, now, picks, c)
    ensures HashKnows(h, now, picks + [pick], c)
  {
    PicksAgreeAppend(picks, pick, c);
    if WindowField in h.fields {
      FirstAfterAppend(picks, pick, c, h.fields[WindowField]);
    }
  }

  /** Waiting and expiring. */
  lemma KnowsLater(h: Hash, now: nat, picks: seq<Pick>, c: Config, later: nat)
    requires ValidConfig(c)
    requires HashKnows(h, now, picks, c) && now <= later
    ensures HashKnows(h, later, picks, c)
  {
    StartMonotone(now, later, WindowMicros(c));
  }

  lemma KnowsVanish(h: Hash, now: nat, picks: seq<Pick>, c: Config)
    requires ValidConfig(c)
    requires HashKnows(h, now, picks, c)
    ensures HashKnows(Vanish(h, now), now, picks, c)
  {
    if WindowField in h.fields {
      WindowsDisjoint(h.fields[WindowField], now, WindowMicros(c));
      SameWindow(h.fields[WindowField], now, WindowMicros(c));
    }
  }

  lemma HashKnowsSelect(h: Hash, after: Hash, now: nat, picks: seq<Pick>, pick: Pick, c: Config)
    requires ValidConfig(c)
    requires HashKnows(h, now, picks, c)
    requires pick.config == c ==>
      && c.min <= pick.candidate <= c.max
      && pick == Pick(c, now, pick.candidate, Selected(h, now, WindowMicros(c), pick.candidate))
    requires after == if pick.config == c then AfterSelect(h, now, WindowMicros(c), pick.candidate) else h
    ensures HashKnows(after, now, picks + [pick], c)
  {
    if pick.config == c {
      KnowsOwnSelect(h, now, picks, c, pick.candidate);
    } else {
      KnowsOtherSelect(h, now, picks, c, pick);
    }
  }

  /** A call writes the key of its own settings, `name`, and leaves the key `other` of settings `c`. */
  lemma KnowsSelectAt(w: World, name: string, d: Config, draw: nat, other: string, c: Config)
    requires ValidConfig(c) && ValidConfig(d) && draw <= d.max - d.min
    requires name == other <==> d == c
    requires HashKnows(KeyOf(w, other), w.now, w.picks, c)
    ensures var next := SelectAt(w, name, d, draw);
            HashKnows(KeyOf(next, other), next.now, next.picks, c)
  {
    var next := SelectAt(w, name, d, draw);
    HashKnowsSelect(KeyOf(w, other), KeyOf(next, other), w.now, w.picks, next.picks[|w.picks|], c);
  }

  lemma NamesDiffer(scope: RedisKeys.Scope, c: Config, d: Config)
    requires RedisKeys.Valid(scope)
    requires ValidConfig(c) && ValidConfig(d)
    ensures KeyName(scope, c) == KeyName(scope, d) <==> c == d
  {
    if KeyName(scope, c) == KeyName(scope, d) {
      KeyEncodesSettings(scope, c, scope, d);
    }
  }

  lemma KnowsSelect(scope: RedisKeys.Scope, w: World, d: Config, draw: nat, c: Config)
    requires RedisKeys.Valid(scope)
    requires ValidConfig(c) && ValidConfig(d) && draw <= d.max - d.min
    requires Knows(scope, w, c)
    ensures Knows(scope, Next(scope, w, Select(d, draw)), c)
  {
    NamesDiffer(scope, d, c);
    KnowsSelectAt(w, KeyName(scope, d), d, draw, KeyName(scope, c), c);
  }

  lemma KnowsStep(scope: RedisKeys.Scope, w: World, step: Step, c: Config)
    requires RedisKeys.Valid(scope)
    requires ValidConfig(c)
    requires Knows(scope, w, c)
    ensures Knows(scope, Next(scope, w, step), c)
  {
    var h := KeyOf(w, KeyName(scope, c));
    match step
    case Tick(to) => KnowsLater(h, w.now, w.picks, c, Max(w.now, to));
    case Expire(_) => KnowsVanish(h, w.now, w.picks, c);
    case Select(d, draw) =>
      if ValidConfig(d) && draw <= d.max - d.min {
        KnowsSelect(scope, w, d, draw, c);
      }
  }

  lemma {:induction false} RunKnows(scope: RedisKeys.Scope, clock: nat, steps: seq<Step>, c: Config)
    requires RedisKeys.Valid(scope)
    requires ValidConfig(c)
    ensures Knows(scope, Run(scope, clock, steps), c)
  {
    if steps != [] {
      RunKnows(scope, clock, steps[..|steps| - 1], c);
      KnowsStep(scope, Run(scope, clock, steps[..|steps| - 1]), steps[|steps| - 1], c);
    }
  }

  /** What a call adds: a value, the first candidate of the window it falls in. */
  lemma SelectsFirst(w: World, name: string, c: Config, draw: nat)
    requires ValidConfig(c) && draw <= c.max - c.min
    requires HashKnows(KeyOf(w, name), w.now, w.picks, c)
    ensures var picks := SelectAt(w, name, c, draw).picks;
            && |picks| == |w.picks| + 1
            && FirstCandidate(picks, c, Start(w.now, WindowMicros(c))) == picks[|w.picks|].value
  {
    SelectedIsFirst(KeyOf(w, name), w.now, w.picks, c, c.min + draw);
  }

  lemma RunSelects(scope: RedisKeys.Scope, clock: nat, steps: seq<Step>, c: Config, draw: nat)
    requires RedisKeys.Valid(scope)
    requires ValidConfig(c) && draw <= c.max - c.min
    ensures var w := Run(scope, clock, steps);
            var picks := Next(scope, w, Select(c, draw)).picks;
            && |picks| == |w.picks| + 1
            && FirstCandidate(picks, c, Start(w.now, WindowMicros(c))) == picks[|w.picks|].value
  {
    RunKnows(scope, clock, steps, c);
    SelectsFirst(Run(scope, clock, steps), KeyName(scope, c), c, draw);
  }

  /** The first call of a window gets its own candidate. */
  lemma SelectsOwn(w: World, name: string, c: Config, draw: nat)
    requires ValidConfig(c) && draw <= c.max - c.min
    requires HashKnows(KeyOf(w, name), w.now, w.picks, c)
    requires PicksBefore(w.picks, c, Start(w.now, WindowMicros(c)))
    ensures SelectAt(w, name, c, draw).picks == w.picks + [Pick(c, w.now, c.min + draw, Some(c.min + draw))]
  {
    var pick := SelectAt(w, name, c, draw).picks[|w.picks|];
    SelectsFirst(w, name, c, draw);
    NoneFirst(w.picks, c, Start(w.now, WindowMicros(c)));
    FirstAfterAppend(w.picks, pick, c, Start(w.now, WindowMicros(c)));
  }

  lemma RunSelectsOwn(scope: RedisKeys.Scope, clock: nat, steps: seq<Step>, w: World, c: Config, draw: nat)
    requires RedisKeys.Valid(scope) && w == Run(scope, clock, steps)
    requires ValidConfig(c) && draw <= c.max - c.min
    requires PicksBefore(w.picks, c, Start(w.now, WindowMicros(c)))
    ensures Next(scope, w, Select(c, draw)).picks == w.picks + [Pick(c, w.now, c.min + draw, Some(c.min + draw))]
  {
    RunKnows(scope, clock, steps, c);
    SelectsOwn(w, KeyName(scope, c), c, draw);
  }

  /**
   Agreement: in every run, each call with settings `c` gets the first candidate proposed
   in its window under those settings, so calls in one window get one value, and every
   value lies in the configured range.
   */
  lemma ScheduleAgreement(scope: RedisKeys.Scope, clock: nat, steps: seq<Step>, c: Config, i: nat, j: nat)
    requires RedisKeys.Valid(scope)
    requires ValidConfig(c)
    requires var picks := Run(scope, clock, steps).picks;
             i < |picks| && j < |picks| && picks[i].config == c && picks[j].config == c
    ensures var picks := Run(scope, clock, steps).picks;
            && picks[i].value == FirstCandidate(picks, c, Start(picks[i].at, WindowMicros(c)))
            && picks[i].value.Some? && c.min <= picks[i].value.value <= c.max
            && (Start(picks[i].at, WindowMicros(c)) == Start(picks[j].at, WindowMicros(c)) ==>
                  picks[i].value == picks[j].value)
  {
    RunKnows(scope, clock, steps, c);
  }

  // ---- calls that ran unanswered ----

  function Attempts(lost: seq<nat>, c: Config, draw: nat): seq<Step> {
    if lost == [] then [] else Attempts(lost[..|lost| - 1], c, draw) + [Tick(lost[|lost| - 1]), Select(c, draw)]
  }

  function Continue(scope: RedisKeys.Scope, w: World, steps: seq<Step>): World {
    if steps == [] then w
    else Next(scope, Continue(scope, w, steps[..|steps| - 1]), steps[|steps| - 1])
  }

  lemma TwoMore(scope: RedisKeys.Scope, w: World, steps: seq<Step>, a: Step, b: Step)
    ensures Continue(scope, w, steps + [a, b]) == Next(scope, Next(scope, Continue(scope, w, steps), a), b)
  {
    var one := steps + [a];
    assert steps + [a, b] == one + [b];
    assert (one + [b])[..|one|] == one && one[..|steps|] == steps;
  }

  /** One more attempt at `t`, of the key `name` of the settings. */
  lemma AttemptStep(w: World, name: string, c: Config, draw: nat, t: nat)
    requires ValidConfig(c) && draw <= c.max - c.min
    requires w.now <= t
    ensures var after := SelectAt(w.(now := t), name, c, draw);
            && KeyOf(after, name) == AfterSelect(KeyOf(w, name), t, WindowMicros(c), c.min + draw)
            && |after.picks| == |w.picks| + 1 && after.now == t
  {
  }

  /** Attempts that ran unanswered leave the key as that many calls of their own would. */
  lemma {:induction false} LostAreSelects(scope: RedisKeys.Scope, w: World, lost: seq<nat>, c: Config, draw: nat)
    requires ValidConfig(c) && draw <= c.max - c.min
    requires forall i :: 0 <= i < |lost| ==> w.now <= lost[i]
    requires forall i, j :: 0 <= i < j < |lost| ==> lost[i] <= lost[j]
    ensures var after, name := Continue(scope, w, Attempts(lost, c, draw)), KeyName(scope, c);
            && AfterLostSelects(KeyOf(w, name), lost, WindowMicros(c), c.min + draw) == KeyOf(after, name)
            && |after.picks| == |w.picks| + |lost|
            && after.now == if lost == [] then w.now else lost[|lost| - 1]
  {
    if lost != [] {
      var n := |lost| - 1;
      var before := Continue(scope, w, Attempts(lost[..n], c, draw));
      LostAreSelects(scope, w, lost[..n], c, draw);
      TwoMore(scope, w, Attempts(lost[..n], c, draw), Tick(lost[n]), Select(c, draw));
      AttemptStep(before, KeyName(scope, c), c, draw, lost[n]);
    }
  }
}
