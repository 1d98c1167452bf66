/**
 Traffic profiles: how many permits a runner reserves at once, and how long it waits
 after each executed slot. Delays are nanoseconds; `draw` is what the random source
 returns for the span it is asked for.
 */
module Profile {
  import opened Results
  import opened RateLimit
  import opened Windows

  datatype Config = Config(kind: string, minBurstSize: int, maxBurstSize: int, delayDivisor: int)

  datatype Profile = Fixed | Uniform | Burst(minSize: nat, maxSize: nat, divisor: nat)

  datatype ProfileError =
    | BurstFieldsSet
    | NoRandomSource
    | MinBurstTooSmall
    | MaxBurstBelowMin
    | DivisorOutOfRange
    | UnsupportedType

  const DEFAULT_DIVISOR := 10
  const MINIMUM_DIVISOR := 2
  const MAXIMUM_DIVISOR := 100

  predicate Valid(p: Profile) {
    p.Burst? ==> 2 <= p.minSize <= p.maxSize && MINIMUM_DIVISOR <= p.divisor <= MAXIMUM_DIVISOR
  }

  predicate BurstFields(c: Config) {
    c.minBurstSize != 0 || c.maxBurstSize != 0 || c.delayDivisor != 0
  }

  /** Which configurations make which profile. */
  function New(c: Config, hasRandom: bool): (result: Result<Profile, ProfileError>)
    ensures result.Ok? ==> Valid(result.value)
    ensures result.Ok? && result.value.Burst? ==>
              && result.value.minSize == c.minBurstSize && result.value.maxSize == c.maxBurstSize
              && result.value.divisor == if c.delayDivisor == 0 then 10 else c.delayDivisor
    ensures result == Ok(Fixed) <==> c.kind in {"", "fixed"} && c.minBurstSize == c.maxBurstSize == c.delayDivisor == 0
    ensures result == Ok(Uniform) <==> c.kind == "uniform" && c.minBurstSize == c.maxBurstSize == c.delayDivisor == 0 && hasRandom
    ensures c.kind !in {"", "fixed", "uniform", "burst"} <==> result == Err(UnsupportedType)
    ensures result == Err(BurstFieldsSet) <==>
              c.kind in {"", "fixed", "uniform"} && !(c.minBurstSize == c.maxBurstSize == c.delayDivisor == 0)
    ensures result == Err(MinBurstTooSmall) <==> c.kind == "burst" && c.minBurstSize < 2
    ensures result == Err(MaxBurstBelowMin) <==> c.kind == "burst" && 2 <= c.minBurstSize && c.maxBurstSize < c.minBurstSize
    ensures result == Err(DivisorOutOfRange) <==>
              && c.kind == "burst" && 2 <= c.minBurstSize <= c.maxBurstSize
              && c.delayDivisor != 0 && !(2 <= c.delayDivisor <= 100)
    ensures c.kind == "burst" ==>
              (result.Ok? <==>
                && hasRandom
                && 2 <= c.minBurstSize <= c.maxBurstSize
                && (c.delayDivisor == 0 || 2 <= c.delayDivisor <= 100))
  {
    if c.kind == "" || c.kind == "fixed" then
      if BurstFields(c) then Err(BurstFieldsSet) else Ok(Fixed)
    else if c.kind == "uniform" then
      if BurstFields(c) then Err(BurstFieldsSet)
      else if !hasRandom then Err(NoRandomSource)
      else Ok(Uniform)
    else if c.kind == "burst" then
      if c.minBurstSize < 2 then Err(MinBurstTooSmall)
      else if c.maxBurstSize < c.minBurstSize then Err(MaxBurstBelowMin)
      else
        var divisor := if c.delayDivisor == 0 then DEFAULT_DIVISOR else c.delayDivisor;
        if divisor < MINIMUM_DIVISOR || divisor > MAXIMUM_DIVISOR then Err(DivisorOutOfRange)
        else if !hasRandom then Err(NoRandomSource)
        else Ok(Burst(c.minBurstSize, c.maxBurstSize, divisor))
    else Err(UnsupportedType)
  }

  function LargestBatch(p: Profile, rpm: nat): nat {
    if p.Burst? then Min(p.maxSize, rpm) else 1
  }

  /** The sizes a batch may take at a rate: bounds capped at the requests per minute. */
  function SmallestBatch(p: Profile, rpm: nat): nat {
    if p.Burst? then Min(p.minSize, LargestBatch(p, rpm)) else 1
  }

  /** What the random source is asked for: how far the size lies above the smallest one. */
  predicate BatchDraw(p: Profile, rpm: nat, draw: nat) {
    SmallestBatch(p, rpm) + draw <= LargestBatch(p, rpm)
  }

  /** The most permits a runner can hold at once, at any rate. */
  function Capacity(p: Profile): nat {
    if p.Burst? then p.maxSize else 1
  }

  function BatchSize(p: Profile, rpm: nat, draw: nat): (size: nat)
    requires Valid(p)
    requires BatchDraw(p, rpm, draw)
    ensures rpm >= 1 ==> 1 <= size <= rpm
    ensures size <= Capacity(p)
    ensures p.Burst? && p.minSize <= rpm ==> p.minSize <= size
    ensures !p.Burst? ==> size == Capacity(p) == 1
  {
    if p.Burst? then
      var maxSize := Min(p.maxSize, rpm);
      var minSize := Min(p.minSize, maxSize);
      minSize + draw
    else 1
  }

  /** Neither reserveBatch nor the limiter's argument check rejects a drawn batch. */
  lemma BatchSizeAccepted(p: Profile, rpm: nat, draw: nat)
    requires Valid(p)
    requires rpm >= 1
    requires BatchDraw(p, rpm, draw)
    ensures CheckArguments(Limit(rpm, MINUTE_NANOS), BatchSize(p, rpm, draw)).None?
  {
  }

  function MeanDelay(rpm: nat): nat
    requires rpm >= 1
  {
    MINUTE_NANOS / rpm
  }

  function IntraBurstDelay(divisor: nat, rpm: nat): nat
    requires rpm >= 1 && divisor >= 1
  {
    var delay := MeanDelay(rpm) / divisor;
    if delay < 1 then 1 else delay
  }

  /** The random source panics when asked for a draw below zero, so uniform needs a positive mean. */
  predicate DelayDraw(p: Profile, rpm: nat, draw: nat)
    requires rpm >= 1
  {
    p.Uniform? ==> draw < 2 * MeanDelay(rpm)
  }

  function NextDelay(p: Profile, rpm: nat, position: nat, batchSize: nat, draw: nat): int
    requires Valid(p)
    requires rpm >= 1
    requires DelayDraw(p, rpm, draw)
  {
    match p
    case Fixed => MeanDelay(rpm)
    case Uniform => draw + 1
    case Burst(_, _, divisor) =>
      var mean := MeanDelay(rpm);
      var intra := IntraBurstDelay(divisor, rpm);
      if position < batchSize then intra
      else batchSize * mean - (batchSize - 1) * intra
  }

  /** The delays after positions 1 to `upTo` of a batch, added up. */
  function SumDelays(p: Profile, rpm: nat, batchSize: nat, draws: seq<nat>, upTo: nat): int
    requires Valid(p)
    requires rpm >= 1
    requires upTo <= |draws|
    requires forall d :: d in draws ==> DelayDraw(p, rpm, d)
  {
    if upTo == 0 then 0
    else SumDelays(p, rpm, batchSize, draws, upTo - 1) + NextDelay(p, rpm, upTo, batchSize, draws[upTo - 1])
  }

  lemma MeanDelayBounds(rpm: nat)
    requires 1 <= rpm <= MINUTE_NANOS
    ensures MeanDelay(rpm) >= 1
    ensures rpm * MeanDelay(rpm) <= 60_000_000_000 < rpm * MeanDelay(rpm) + rpm
  {
    assert MINUTE_NANOS / rpm >= 1;
  }

  lemma IntraBelowMean(divisor: nat, rpm: nat)
    requires 1 <= rpm <= MINUTE_NANOS
    requires divisor >= 2
    ensures 1 <= IntraBurstDelay(divisor, rpm) <= MeanDelay(rpm)
  {
    MeanDelayBounds(rpm);
    var mean := MeanDelay(rpm);
    assert mean / divisor <= mean;
  }

  /**
   The wait inside a burst is the floored mean over the configured divisor, and one nanosecond
   where that would be nothing.
   */
  lemma BurstGap(p: Profile, rpm: nat, position: nat, batchSize: nat, draw: nat)
    requires Valid(p) && p.Burst?
    requires rpm >= 1 && position < batchSize
    ensures var d, mean := NextDelay(p, rpm, position, batchSize, draw), 60_000_000_000 / rpm;
            1 <= d && d * p.divisor <= Max(mean, p.divisor) && mean < (d + 1) * p.divisor
  {
    var mean := MINUTE_NANOS / rpm;
    QuotientBounds(mean, p.divisor);
  }

  lemma QuotientBounds(n: nat, d: nat)
    requires d >= 1
    ensures n / d * d <= n < (n / d + 1) * d
    ensures 1 * d == d
  {
  }

  /** Every size the configured bounds and the rate allow is drawn, each by one draw. */
  lemma BatchSizesExactly(p: Profile, rpm: nat, size: nat)
    requires Valid(p) && p.Burst? && rpm >= 1
    ensures (exists draw: nat :: BatchDraw(p, rpm, draw) && BatchSize(p, rpm, draw) == size)
            <==> Min(p.minSize, Min(p.maxSize, rpm)) <= size <= Min(p.maxSize, rpm)
    ensures forall a: nat, b: nat ::
              BatchDraw(p, rpm, a) && BatchDraw(p, rpm, b) ==>
                (BatchSize(p, rpm, a) == BatchSize(p, rpm, b) <==> a == b)
    ensures Capacity(p) == p.maxSize
  {
    var least := Min(p.minSize, Min(p.maxSize, rpm));
    if least <= size <= Min(p.maxSize, rpm) {
      var draw: nat := size - least;
      assert BatchDraw(p, rpm, draw) && BatchSize(p, rpm, draw) == size;
    }
  }

  /** A uniform delay takes every value from one nanosecond to twice the mean, and no other. */
  lemma UniformDelaysExactly(rpm: nat, position: nat, batchSize: nat, delay: int)
    requires rpm >= 1
    ensures (exists draw: nat :: DelayDraw(Uniform, rpm, draw) && NextDelay(Uniform, rpm, position, batchSize, draw) == delay)
            <==> 1 <= delay <= 2 * (60_000_000_000 / rpm)
  {
    if 1 <= delay <= 2 * (60_000_000_000 / rpm) {
      var draw: nat := delay - 1;
      assert DelayDraw(Uniform, rpm, draw) && NextDelay(Uniform, rpm, position, batchSize, draw) == delay;
    }
  }

  /** Every delay of every profile is positive. */
  lemma DelayPositive(p: Profile, rpm: nat, position: nat, batchSize: nat, draw: nat)
    requires Valid(p)
    requires 1 <= rpm <= MINUTE_NANOS
    requires DelayDraw(p, rpm, draw)
    requires 1 <= batchSize
    ensures NextDelay(p, rpm, position, batchSize, draw) >= 1
  {
    MeanDelayBounds(rpm);
    if p.Burst? {
      var mean, intra := MeanDelay(rpm), IntraBurstDelay(p.divisor, rpm);
      IntraBelowMean(p.divisor, rpm);
      MulMonotoneRight(batchSize - 1, intra, mean);
      MulSucc(batchSize - 1, mean);
    }
  }

  lemma {:induction false} SumBeforeLast(p: Profile, rpm: nat, batchSize: nat, draws: seq<nat>, upTo: nat)
    requires Valid(p) && p.Burst?
    requires rpm >= 1
    requires upTo <= |draws|
    requires upTo < batchSize
    ensures SumDelays(p, rpm, batchSize, draws, upTo) == upTo * IntraBurstDelay(p.divisor, rpm)
  {
    if upTo > 0 {
      SumBeforeLast(p, rpm, batchSize, draws, upTo - 1);
      MulSucc(upTo - 1, IntraBurstDelay(p.divisor, rpm));
    }
  }

  lemma {:induction false} SumFixed(rpm: nat, batchSize: nat, draws: seq<nat>, upTo: nat)
    requires rpm >= 1
    requires upTo <= |draws|
    ensures SumDelays(Fixed, rpm, batchSize, draws, upTo) == upTo * MeanDelay(rpm)
  {
    if upTo > 0 {
      SumFixed(rpm, batchSize, draws, upTo - 1);
      MulSucc(upTo - 1, MeanDelay(rpm));
    }
  }

  /**
   Burst cycle: the compensating pause makes the delays of a batch of `n` add up to
   exactly `n` mean delays, which is at most one minute when `n` is within the rate.
   */
  lemma CycleKeepsMean(p: Profile, rpm: nat, n: nat, draws: seq<nat>)
    requires Valid(p) && !p.Uniform?
    requires 1 <= n <= rpm <= MINUTE_NANOS
    requires |draws| == n
    ensures SumDelays(p, rpm, n, draws, n) == n * MeanDelay(rpm)
    ensures n * MeanDelay(rpm) <= MINUTE_NANOS
  {
    assert n * MeanDelay(rpm) <= MINUTE_NANOS by {
      MeanDelayBounds(rpm);
      MulMonotone(n, rpm, MeanDelay(rpm));
    }
    if p.Burst? {
      var intra := IntraBurstDelay(p.divisor, rpm);
      assert SumDelays(p, rpm, n, draws, n - 1) == (n - 1) * intra by {
        SumBeforeLast(p, rpm, n, draws, n - 1);
      }
      assert NextDelay(p, rpm, n, n, draws[n - 1]) == n * MeanDelay(rpm) - (n - 1) * intra;
    } else {
      SumFixed(rpm, n, draws, n);
    }
  }

  /** Uniform delays added over all draws below `upTo`. */
  function SumOverDraws(rpm: nat, upTo: nat): nat
    requires rpm >= 1
    requires upTo <= 2 * MeanDelay(rpm)
  {
    if upTo == 0 then 0
    else SumOverDraws(rpm, upTo - 1) + NextDelay(Uniform, rpm, 1, 1, upTo - 1)
  }

  /** Over its equally likely draws a uniform delay averages half a nanosecond above the mean. */
  lemma {:induction false} UniformKeepsMean(rpm: nat, upTo: nat)
    requires rpm >= 1
    requires upTo <= 2 * MeanDelay(rpm)
    ensures 2 * SumOverDraws(rpm, upTo) == upTo * (upTo + 1)
  {
    if upTo > 0 {
      UniformKeepsMean(rpm, upTo - 1);
      assert (upTo - 1) * upTo + 2 * upTo == upTo * (upTo + 1);
    }
  }
}
