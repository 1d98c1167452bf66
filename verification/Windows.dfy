/**
 Fixed time windows as both Redis scripts cut them: a window starts at
 `now - now % length`. Times are whole microseconds since the Unix epoch
 unless a name says otherwise.
 */
module Windows {

  const MINUTE: nat := 60_000_000

  /** The last window boundary not after `now`; StartIsRemainder ties it to the scripts' formula. */
  function Start(now: nat, length: nat): (start: nat)
    requires length > 0
    ensures start <= now < start + length
  {
    if now < length then 0 else Start(now - length, length) + length
  }

  function End(now: nat, length: nat): nat
    requires length > 0
  {
    Start(now, length) + length
  }

  predicate Aligned(start: nat, length: nat)
    requires length > 0
  {
    Start(start, length) == start
  }

  lemma MulMonotone(a: int, b: int, c: nat)
    requires a <= b
    ensures a * c <= b * c
  {
  }

  lemma MulMonotoneRight(c: nat, a: int, b: int)
    requires a <= b
    ensures c * a <= c * b
  {
  }

  lemma MulSucc(q: int, length: int)
    ensures (q + 1) * length == q * length + length
  {
  }

  lemma RemainderUnique(t: int, length: nat, q: int, r: int)
    requires length > 0
    requires 0 <= r < length && t == q * length + r
    ensures t % length == r
  {
    var d := t / length;
    if d < q {
      MulMonotone(d + 1, q, length);
    } else if q < d {
      MulMonotone(q + 1, d, length);
    }
  }

  lemma RemainderShift(now: nat, length: nat)
    requires length > 0 && now >= length
    ensures now % length == (now - length) % length
  {
    var q, r := (now - length) / length, (now - length) % length;
    assert now == (q + 1) * length + r by {
      MulSucc(q, length);
    }
    RemainderUnique(now, length, q + 1, r);
  }

  /** A window starts where both scripts and Time.Truncate say it does. */
  lemma {:induction false} StartIsRemainder(now: nat, length: nat)
    requires length > 0
    ensures Start(now, length) == now - now % length
  {
    if now >= length {
      StartIsRemainder(now - length, length);
      RemainderShift(now, length);
    }
  }

  /** Distinct windows do not overlap: the earlier one ends before the later one starts. */
  lemma {:induction false} WindowsDisjoint(a: nat, b: nat, length: nat)
    requires length > 0
    requires a <= b
    ensures Start(a, length) == Start(b, length) || End(a, length) <= Start(b, length)
  {
    if a >= length {
      WindowsDisjoint(a - length, b - length, length);
    }
  }

  lemma StartMonotone(a: nat, b: nat, length: nat)
    requires length > 0
    requires a <= b
    ensures Start(a, length) <= Start(b, length)
  {
    WindowsDisjoint(a, b, length);
  }

  /** Two instants share a start exactly when the second lies in the first one's window. */
  lemma SameWindow(a: nat, t: nat, length: nat)
    requires length > 0
    ensures Start(t, length) == Start(a, length) <==> Start(a, length) <= t < End(a, length)
    ensures Aligned(Start(a, length), length)
  {
    var start := Start(a, length);
    WindowsDisjoint(start, a, length);
    if a <= t {
      WindowsDisjoint(a, t, length);
    } else {
      WindowsDisjoint(t, a, length);
    }
  }

  /** The end of a window starts the next one. */
  lemma EndIsStart(t: nat, length: nat)
    requires length > 0
    ensures Start(End(t, length), length) == End(t, length)
  {
    SameWindow(t, t, length);
  }

  /** Moving time by a boundary moves the windows with it. */
  lemma {:induction false} ShiftByBoundary(t: nat, boundary: nat, length: nat)
    requires length > 0
    requires Aligned(boundary, length)
    ensures Start(t + boundary, length) == Start(t, length) + boundary
    decreases boundary
  {
    if boundary >= length {
      ShiftByBoundary(t, boundary - length, length);
      assert t + boundary - length == t + (boundary - length);
    }
  }

  lemma {:induction false} MultipleIsAligned(length: nat, count: nat)
    requires length > 0
    ensures Aligned(length * count, length)
  {
    if count > 0 {
      MultipleIsAligned(length, count - 1);
      assert length * count == length * (count - 1) + length;
    }
  }

  lemma {:induction false} WindowsInside(t: nat, inner: nat, outer: nat)
    requires inner > 0 && outer > 0 && Aligned(outer, inner)
    ensures Start(Start(t, inner), outer) == Start(t, outer)
    ensures End(t, inner) <= End(t, outer)
  {
    if t >= outer {
      WindowsInside(t - outer, inner, outer);
      ShiftByBoundary(t - outer, outer, inner);
    } else {
      WindowsDisjoint(t, outer, inner);
    }
  }

  /**
   Windows nest: when the outer length is a whole number of inner lengths, every
   inner window lies inside one outer window, so an instant and the start of its
   inner window are always in the same outer window.
   */
  lemma WindowsNest(t: nat, inner: nat, count: nat, outer: nat)
    requires inner > 0 && count > 0
    requires outer == inner * count && outer > 0
    ensures Start(Start(t, inner), outer) == Start(t, outer)
    ensures End(t, inner) <= End(t, outer)
  {
    MultipleIsAligned(inner, count);
    WindowsInside(t, inner, outer);
  }

  lemma {:induction false} AlignedToInner(t: nat, inner: nat, outer: nat)
    requires inner > 0 && outer > 0 && Aligned(outer, inner)
    requires Aligned(t, outer)
    ensures Aligned(t, inner)
  {
    if t >= outer {
      AlignedToInner(t - outer, inner, outer);
      ShiftByBoundary(t - outer, outer, inner);
    }
  }

  /** An outer window about to end, within one inner length, ends with the inner one. */
  lemma EndsTogether(t: nat, inner: nat, count: nat, outer: nat)
    requires inner > 0 && count > 0
    requires outer == inner * count && outer > 0
    requires End(t, outer) - t <= inner
    ensures End(t, inner) == End(t, outer)
  {
    MultipleIsAligned(inner, count);
    WindowsInside(t, inner, outer);
    EndIsStart(t, outer);
    AlignedToInner(End(t, outer), inner, outer);
    EndIsStart(t, inner);
    SameWindow(End(t, inner), End(t, outer), inner);
  }

  lemma ThousandsShift(nanos: int, length: int)
    ensures (nanos - length * 1000) / 1000 == nanos / 1000 - length
  {
  }

  /** The same windows in nanoseconds. */
  lemma {:induction false} WindowInNanos(nanos: nat, length: nat)
    requires length > 0
    ensures Start(nanos, length * 1000) == Start(nanos / 1000, length) * 1000
  {
    if nanos >= length * 1000 {
      WindowInNanos(nanos - length * 1000, length);
      ThousandsShift(nanos, length);
    }
  }
}
