/**
 The request budget: argument checks, the Redis script shared by all replicas,
 and the in-process limiter of a single replica. Durations are nanoseconds.
 */
module RateLimit {
  import opened Results
  import opened Windows
  import opened RedisHash
  import RedisKeys

  datatype Limit = Limit(requests: int, window: int)

  datatype Decision = Decision(granted: nat, retryAfter: nat)

  datatype LimitError =
    | NoClient
    | InvalidScope
    | Cancelled
    | RequestsNotPositive
    | WindowNotPositive
    | PermitsNotPositive
    | PermitsExceedBudget
    | WindowBelowMicrosecond
    | RedisFailed

  const NANOS_PER_MICRO: nat := 1000
  const MINUTE_NANOS: nat := 60_000_000_000

  /** Limit.Validate, then validatePermits. */
  function CheckArguments(limit: Limit, permits: int): (error: Option<LimitError>)
    ensures error.None? <==> limit.window > 0 && 1 <= permits <= limit.requests
    ensures error == Some(RequestsNotPositive) <==> limit.requests < 1
    ensures error == Some(WindowNotPositive) <==> limit.requests >= 1 && limit.window <= 0
    ensures error == Some(PermitsNotPositive) <==> limit.requests >= 1 && limit.window > 0 && permits < 1
    ensures error == Some(PermitsExceedBudget) <==> limit.requests >= 1 && limit.window > 0 && permits > limit.requests
  {
    if limit.requests < 1 then Some(RequestsNotPositive)
    else if limit.window <= 0 then Some(WindowNotPositive)
    else if permits < 1 then Some(PermitsNotPositive)
    else if permits > limit.requests then Some(PermitsExceedBudget)
    else None
  }

  /** How many permits a budget of `requests` still has for a caller asking for `permits`. */
  function Grant(used: nat, requests: nat, permits: nat): (granted: nat)
    ensures granted <= permits
    ensures granted == permits <==> permits == 0 || used + permits <= requests
    ensures granted < permits ==> used + granted == Max(used, requests)
  {
    Min(permits, Max(requests - used, 0))
  }

  /** The permits already given in the window starting at `start`, as the key records them. */
  function Recorded(h: Hash, start: nat): nat {
    if WindowField in h.fields && h.fields[WindowField] == start && CountField in h.fields
    then h.fields[CountField] else 0
  }

  /** The key after the script granted `granted` permits at `now`. */
  function AfterAcquire(h: Hash, now: nat, window: nat, granted: nat): Hash
    requires window > 0
  {
    var start := Start(now, window);
    var same := WindowField in h.fields && h.fields[WindowField] == start;
    Hash(
      if same && granted == 0 then h.fields
      else h.fields[WindowField := start][CountField := Recorded(h, start) + granted],
      Some(WindowDeadline(now, window)))
  }

  /** Full grants carry no retry delay; partial and empty ones carry the rest of the window. */
  function Answer(now: nat, window: nat, granted: nat, permits: nat): (decision: Decision)
    requires window > 0
    ensures decision.granted < permits ==> now * NANOS_PER_MICRO + decision.retryAfter == End(now, window) * NANOS_PER_MICRO
  {
    Decision(granted, if granted == permits then 0 else (End(now, window) - now) * NANOS_PER_MICRO)
  }

  /** One call on the shared key: the key afterwards and the decision. */
  function RedisAcquire(h: Hash, now: nat, window: nat, requests: nat, permits: nat): (Hash, Decision)
    requires window > 0
  {
    var granted := Grant(Recorded(h, Start(now, window)), requests, permits);
    (AfterAcquire(h, now, window, granted), Answer(now, window, granted, permits))
  }

  /** The fields once the window and its count are there, before the grant is added. */
  function OpenWindow(fields: map<Field, nat>, start: nat): map<Field, nat> {
    if WindowField in fields && fields[WindowField] == start then fields
    else fields[WindowField := start][CountField := 0]
  }

  lemma OpenThenAdd(h: Hash, now: nat, window: nat, granted: nat)
    requires window > 0
    ensures var open := OpenWindow(h.fields, Start(now, window));
            var count := if CountField in open then open[CountField] else 0;
            && count == Recorded(h, Start(now, window))
            && AfterAcquire(h, now, window, granted).fields ==
               if granted == 0 then open else open[CountField := count + granted]
  {
    var open := OpenWindow(h.fields, Start(now, window));
    assert open[WindowField := Start(now, window)] == open;
  }

  /** The script, run atomically by Redis at `now`. */
  method AcquireScript(key: RedisKey, now: nat, requests: nat, window: nat, permits: nat)
    returns (granted: nat, retryMicros: nat)
    requires window > 0
    modifies key
    ensures granted == Grant(Recorded(old(key.View()), Start(now, window)), requests, permits)
    ensures var fields := old(key.fields);
            var used := if WindowField in fields && fields[WindowField] == now - now % window && CountField in fields
                        then fields[CountField] else 0;
            && granted == (if used >= requests then 0 else if requests - used <= permits then requests - used else permits)
            && WindowField in key.fields && key.fields[WindowField] == now - now % window
            && (if CountField in key.fields then key.fields[CountField] else 0) == used + granted
    ensures key.deadline.Some?
            && now - now % window + 2 * window - 1_000 < key.deadline.value < now - now % window + 2 * window + 1_000
    ensures retryMicros == if granted == permits then 0 else End(now, window) - now
    ensures key.View() == AfterAcquire(old(key.View()), now, window, granted)
  {
    StartIsRemainder(now, window);
    DeadlineIsOneWindowLater(now, window);
    var windowStart := now - now % window;
    var storedWindow := key.HGet(WindowField);
    var count := 0;
    if storedWindow.None? || storedWindow.value != windowStart {
      key.HSet(WindowField, windowStart);
      key.HSet(CountField, count);
    } else {
      var storedCount := key.HGet(CountField);
      count := if storedCount.Some? then storedCount.value else 0;
    }
    assert key.View() == Hash(OpenWindow(old(key.fields), windowStart), old(key.deadline));
    var remaining := Max(requests - count, 0);
    granted := Min(permits, remaining);
    OpenThenAdd(old(key.View()), now, window, granted);
    if granted > 0 {
      key.HIncrBy(CountField, granted);
    }
    retryMicros := windowStart + window - now;
    assert key.fields == AfterAcquire(old(key.View()), now, window, granted).fields;
    assert WindowField in key.fields;
    key.PExpire(now, CeilDiv(retryMicros + window, 1000));
    if granted == permits {
      retryMicros := 0;
    }
  }

  /** The key after attempts that ran at the given times without an answer. */
  function AfterLost(h: Hash, lost: seq<nat>, window: nat, requests: nat, permits: nat): Hash
    requires window > 0
  {
    if lost == [] then h
    else
      var before := AfterLost(h, lost[..|lost| - 1], window, requests, permits);
      RedisAcquire(before, lost[|lost| - 1], window, requests, permits).0
  }

  /** The attempts of one call that ran unanswered, each of which takes permits again. */
  method RunUnanswered(key: RedisKey, lost: seq<nat>, requests: nat, window: nat, permits: nat)
    requires window > 0
    modifies key
    ensures key.View() == AfterLost(old(key.View()), lost, window, requests, permits)
  {
    for k := 0 to |lost|
      invariant key.View() == AfterLost(old(key.View()), lost[..k], window, requests, permits)
    {
      assert lost[..k + 1][..k] == lost[..k];
      var _, _ := AcquireScript(key, lost[k], requests, window, permits);
    }
    assert lost[..|lost|] == lost;
  }

  class RedisRateLimiter {
    const key: RedisKey

    constructor (key: RedisKey)
      ensures this.key == key
    {
      this.key := key;
    }

    /**
     `now` is the Redis clock at the last attempt, of which `reply` is the outcome; `lost` are
     the times of the attempts before it that ran unanswered.
     */
    method TryAcquire(cancelled: bool, lost: seq<nat>, now: nat, limit: Limit, permits: int, reply: Reply)
      returns (result: Result<Decision, LimitError>)
      modifies key
      ensures cancelled ==> result == Err(Cancelled)
      ensures !cancelled && CheckArguments(limit, permits).Some? ==>
                result == Err(CheckArguments(limit, permits).value)
      ensures !cancelled && CheckArguments(limit, permits).None? && limit.window < NANOS_PER_MICRO ==>
                result == Err(WindowBelowMicrosecond)
      ensures cancelled || CheckArguments(limit, permits).Some? || limit.window < NANOS_PER_MICRO ==>
                key.View() == old(key.View())
      ensures !cancelled && CheckArguments(limit, permits).None? && limit.window >= NANOS_PER_MICRO ==>
                var window := limit.window / NANOS_PER_MICRO;
                var before := AfterLost(old(key.View()), lost, window, limit.requests, permits);
                var call := RedisAcquire(before, now, window, limit.requests, permits);
                && key.View() == (if reply.NotRun? then before else call.0)
                && result == if reply.Delivered? then Ok(call.1) else Err(RedisFailed)
    {
      if cancelled {
        return Err(Cancelled);
      }
      var invalid := CheckArguments(limit, permits);
      if invalid.Some? {
        return Err(invalid.value);
      }
      var windowMicros := limit.window / NANOS_PER_MICRO;
      if windowMicros < 1 {
        return Err(WindowBelowMicrosecond);
      }
      RunUnanswered(key, lost, limit.requests, windowMicros, permits);
      if reply.NotRun? {
        return Err(RedisFailed);
      }
      ghost var call := RedisAcquire(key.View(), now, windowMicros, limit.requests, permits);
      var granted, retryMicros := AcquireScript(key, now, limit.requests, windowMicros, permits);
      assert key.View() == call.0 && Decision(granted, retryMicros * NANOS_PER_MICRO) == call.1;
      if reply.Lost? {
        return Err(RedisFailed);
      }
      return Ok(Decision(granted, retryMicros * NANOS_PER_MICRO));
    }
  }

  /** All limiters made for one scope on one server share one key, the scope's rate-limit key. */
  method NewRedisRateLimiter(server: Server?, scope: RedisKeys.Scope)
    returns (limiter: RedisRateLimiter?, error: Option<LimitError>)
    requires server != null ==> server.Valid()
    modifies server
    ensures error == if server == null then Some(NoClient)
                     else if !RedisKeys.Valid(scope) then Some(InvalidScope) else None
    ensures error.Some? ==> limiter == null && (server != null ==> server.keys == old(server.keys))
    ensures error.None? ==>
              var name := RedisKeys.Render(scope, RedisKeys.RateLimitKey);
              && server.Valid()
              && limiter != null && name in server.keys && limiter.key == server.keys[name] && limiter.key.name == name
              && (name in old(server.keys) ==> server.keys == old(server.keys))
              && (name !in old(server.keys) ==>
                    && server.keys == old(server.keys)[name := limiter.key]
                    && fresh(limiter.key) && limiter.key.View() == NO_KEY)
  {
    if server == null {
      return null, Some(NoClient);
    }
    if !RedisKeys.Valid(scope) {
      return null, Some(InvalidScope);
    }
    var key := server.Key(RedisKeys.Render(scope, RedisKeys.RateLimitKey));
    limiter := new RedisRateLimiter(key);
    return limiter, None;
  }

  /**
   The fields of LocalLimiter. `windowStart` counts nanoseconds from the zero time,
   1 January of year 1, which is where Time.Truncate counts from.
   */
  datatype LocalState = LocalState(window: nat, windowStart: nat, used: nat)

  const NEW_LOCAL := LocalState(0, 0, 0)

  function LocalUsed(s: LocalState, now: nat, window: nat): nat
    requires window > 0
  {
    if s.window == window && s.windowStart == Start(now, window) then s.used else 0
  }

  /** One serialised call on the local fields: the fields afterwards and the decision. */
  function LocalAcquire(s: LocalState, now: nat, window: nat, requests: nat, permits: nat): (LocalState, Decision)
    requires window > 0
  {
    var before := LocalUsed(s, now, window);
    var granted := Grant(before, requests, permits);
    (LocalState(window, Start(now, window), before + granted),
     Decision(granted, if granted == permits then 0 else End(now, window) - now))
  }

  class LocalLimiter {
    var window: nat
    var windowStart: nat
    var used: nat

    constructor ()
      ensures View() == NEW_LOCAL
    {
      window, windowStart, used := 0, 0, 0;
    }

    function View(): LocalState
      reads this
    {
      LocalState(window, windowStart, used)
    }

    /** One serialised call that read the clock at `now`. */
    method TryAcquire(cancelled: bool, now: nat, limit: Limit, permits: int)
      returns (result: Result<Decision, LimitError>)
      modifies this
      ensures cancelled ==> result == Err(Cancelled)
      ensures !cancelled && CheckArguments(limit, permits).Some? ==>
                result == Err(CheckArguments(limit, permits).value)
      ensures result.Err? ==> View() == old(View())
      ensures result.Err? <==> cancelled || CheckArguments(limit, permits).Some?
      ensures result.Ok? ==>
                (View(), result.value) == LocalAcquire(old(View()), now, limit.window, limit.requests, permits)
      ensures result.Ok? ==>
                var start := now - now % limit.window;
                var before := if old(window) == limit.window && old(windowStart) == start then old(used) else 0;
                && window == limit.window && windowStart == start && used == before + result.value.granted
                && (before >= limit.requests ==> result.value.granted == 0)
                && (before < limit.requests ==> result.value.granted == Min(permits, limit.requests - before))
                && result.value.retryAfter == if result.value.granted == permits then 0 else start + limit.window - now
    {
      if cancelled {
        return Err(Cancelled);
      }
      var invalid := CheckArguments(limit, permits);
      if invalid.Some? {
        return Err(invalid.value);
      }
      StartIsRemainder(now, limit.window);
      var start := now - now % limit.window;
      if window != limit.window || windowStart != start {
        window := limit.window;
        windowStart := start;
        used := 0;
      }
      var remaining := limit.requests - used;
      var granted := Min(permits, Max(remaining, 0));
      used := used + granted;
      var retryAfter := 0;
      if granted < permits {
        retryAfter := start + limit.window - now;
      }
      return Ok(Decision(granted, retryAfter));
    }
  }
}
