/**
 One Redis key holding a hash, with the commands the Lua scripts use on it.
 A hash without fields is an absent key. Field values are the decimal numbers
 the scripts store; the fields are the three names the scripts use.
 */
module RedisHash {
  import opened Results
  import opened Windows

  datatype Field = WindowField | CountField | RpmField

  datatype Hash = Hash(fields: map<Field, nat>, deadline: Option<nat>)

  const NO_KEY := Hash(map[], None)

  /** math.ceil(n / d) */
  function CeilDiv(n: nat, d: nat): (q: nat)
    requires d > 0
    ensures n <= q * d < n + d
  {
    (n + d - 1) / d
  }

  /**
   PEXPIRE counts whole milliseconds from the server's millisecond clock, so the
   deadline starts from `now` rounded down.
   */
  function ExpiryDeadline(now: nat, ttlMillis: nat): nat {
    (now / 1000 + ttlMillis) * 1000
  }

  /** From its deadline on, a key may vanish at any moment. */
  function Vanish(h: Hash, now: nat): Hash {
    if h.deadline.Some? && h.deadline.value <= now then NO_KEY else h
  }

  /** The TTL both scripts pass to PEXPIRE: the rest of the window and one more window. */
  function WindowTtlMillis(now: nat, window: nat): nat
    requires window > 0
  {
    CeilDiv(End(now, window) - now + window, 1000)
  }

  function WindowDeadline(now: nat, window: nat): nat
    requires window > 0
  {
    ExpiryDeadline(now, WindowTtlMillis(now, window))
  }

  /** The deadline is one window after the window's end, up to the rounding. */
  lemma DeadlineIsOneWindowLater(now: nat, window: nat)
    requires window > 0
    ensures End(now, window) + window - 1_000 < WindowDeadline(now, window) < End(now, window) + window + 1_000
  {
    var rest := End(now, window) - now + window;
    assert rest <= CeilDiv(rest, 1000) * 1000 < rest + 1000;
    assert now - 1000 < now / 1000 * 1000 <= now;
  }

  // ---- when rounding to milliseconds keeps a live window ----

  /** The windows that no key written inside them can leave early. */
  predicate RoundingSafe(window: nat)
    requires window > 0
  {
    window >= 1000 || 1000 % window == 0 || 1000 % (1000 - window) == 0
  }

  lemma MillisecondEnd(now: nat)
    ensures End(now, 1000) == (now / 1000 + 1) * 1000
  {
    StartIsRemainder(now, 1000);
  }

  lemma CoversWhole(now: nat, window: nat)
    requires window >= 1000
    ensures End(now, window) <= WindowDeadline(now, window)
  {
    var rest := End(now, window) - now + window;
    assert CeilDiv(rest, 1000) * 1000 >= rest;
  }

  /** Windows that divide a millisecond end with it at the latest. */
  lemma CoversDivisor(now: nat, window: nat)
    requires 0 < window < 1000 && 1000 % window == 0
    ensures End(now, window) <= WindowDeadline(now, window)
  {
    WindowsNest(now, window, 1000 / window, 1000);
    MillisecondEnd(now);
    assert WindowTtlMillis(now, window) >= 1;
  }

  /** Windows a divisor short of a millisecond: the TTL is two of them when it has to be. */
  lemma CoversComplement(now: nat, window: nat)
    requires 0 < window < 1000 && 1000 % (1000 - window) == 0
    ensures End(now, window) <= WindowDeadline(now, window)
  {
    var v := 1000 - window;
    if End(now, window) - now <= v {
      var k := 1000 / v;
      assert v * k == 1000 && v * (k - 1) == window;
      WindowsNest(now, v, k, 1000);
      EndsTogether(now, v, k - 1, window);
      MillisecondEnd(now);
      assert WindowTtlMillis(now, window) >= 1;
    } else {
      assert WindowTtlMillis(now, window) >= 2;
    }
  }

  /** For every other window there is an instant whose key is gone before the window is over. */
  lemma EarlyDeadline(window: nat) returns (now: nat)
    requires window > 0 && !RoundingSafe(window)
    ensures WindowDeadline(now, window) < End(now, window)
  {
    if window <= 500 {
      var k, s := 1000 / window, 1000 % window;
      now := 999;
      RemainderUnique(now, window, k, s - 1);
    } else {
      var v := 1000 - window;
      var k, s := 1000 / v, 1000 % v;
      assert v * k == 1000 - s;
      assert window * k == 1000 * k - v * k;
      now := 1000 * (k - 1) - 1;
      assert now == window * (k - 1) + (window - s - 1);
      RemainderUnique(now, window, k - 1, window - s - 1);
      assert now / 1000 == k - 2;
    }
    StartIsRemainder(now, window);
    assert WindowTtlMillis(now, window) == 1;
  }

  lemma DeadlineCoversWindow(now: nat, window: nat)
    requires window > 0 && RoundingSafe(window)
    ensures End(now, window) <= WindowDeadline(now, window)
  {
    if window >= 1000 {
      CoversWhole(now, window);
    } else if 1000 % window == 0 {
      CoversDivisor(now, window);
    } else {
      CoversComplement(now, window);
    }
  }

  /**
   Exactly when rounding to milliseconds can never make a key expire inside the window
   that wrote it: in particular whenever the window is a millisecond or more.
   */
  lemma DeadlineCoversExactly(window: nat)
    requires window > 0
    ensures (forall now: nat :: End(now, window) <= WindowDeadline(now, window)) <==> RoundingSafe(window)
  {
    if RoundingSafe(window) {
      forall now: nat ensures End(now, window) <= WindowDeadline(now, window) {
        DeadlineCoversWindow(now, window);
      }
    } else {
      var now := EarlyDeadline(window);
    }
  }

  class RedisKey {
    const name: string
    var fields: map<Field, nat>
    var deadline: Option<nat>

    constructor (name: string)
      ensures this.name == name && View() == NO_KEY
    {
      this.name := name;
      fields := map[];
      deadline := None;
    }

    function View(): Hash
      reads this
    {
      Hash(fields, deadline)
    }

    method HGet(field: Field) returns (value: Option<nat>)
      ensures value == if field in fields then Some(fields[field]) else None
    {
      if field in fields {
        value := Some(fields[field]);
      } else {
        value := None;
      }
    }

    method HSet(field: Field, value: nat)
      modifies this
      ensures View() == Hash(old(fields)[field := value], old(deadline))
    {
      fields := fields[field := value];
    }

    method HIncrBy(field: Field, amount: nat)
      modifies this
      ensures View() == Hash(
          old(fields)[field := (if field in old(fields) then old(fields)[field] else 0) + amount],
          old(deadline))
    {
      var current := if field in fields then fields[field] else 0;
      fields := fields[field := current + amount];
    }

    /** PEXPIRE sets a deadline on an existing key and does nothing on an absent one. */
    method PExpire(now: nat, ttlMillis: nat)
      modifies this
      ensures View() == if old(fields) == map[] then old(View())
                        else Hash(old(fields), Some(ExpiryDeadline(now, ttlMillis)))
    {
      if fields != map[] {
        deadline := Some(ExpiryDeadline(now, ttlMillis));
      }
    }
  }

  /** The server that all clients of an address share: one key for each name. */
  class Server {
    var keys: map<string, RedisKey>

    constructor ()
      ensures Valid() && keys == map[]
    {
      keys := map[];
    }

    ghost predicate Valid()
      reads this
    {
      forall name :: name in keys ==> keys[name].name == name
    }

    /** The key of a name, absent if nobody has used it. */
    method Key(name: string) returns (key: RedisKey)
      requires Valid()
      modifies this
      ensures Valid()
      ensures name in keys && keys[name] == key && key.name == name
      ensures name in old(keys) ==> keys == old(keys)
      ensures name !in old(keys) ==> fresh(key) && key.View() == NO_KEY && keys == old(keys)[name := key]
    {
      if name !in keys {
        var absent := new RedisKey(name);
        keys := keys[name := absent];
      }
      key := keys[name];
    }
  }
}
