/**
 Bounded value stores: the in-memory ring of one runner and the Redis list shared by
 all of them hold the same last values, oldest first.
 */
module Stores {
  import opened Results

  datatype StoreError = Cancelled | EmptyValue | StoreNotFound | RedisFailed

  /** The last `limit` elements, all of them if there are fewer. */
  function Last<T>(s: seq<T>, limit: nat): seq<T> {
    if |s| <= limit then s else s[|s| - limit..]
  }

  /** A bounded queue after one more value: the oldest is evicted only when it is full. */
  function Enqueue(queue: seq<string>, value: string, limit: nat): seq<string> {
    Last(queue + [value], limit)
  }

  function EnqueueAll(queue: seq<string>, values: seq<string>, limit: nat): seq<string> {
    if values == [] then queue
    else Enqueue(EnqueueAll(queue, values[..|values| - 1], limit), values[|values| - 1], limit)
  }

  lemma LastAfterPut(init: seq<string>, value: string, limit: nat)
    requires limit >= 1
    ensures Enqueue(Last(init, limit), value, limit) == Last(init + [value], limit)
  {
    if |init| > limit {
      var kept := init[|init| - limit..];
      assert (kept + [value])[1..] == kept[1..] + [value];
      assert kept[1..] == init[|init| - limit + 1..];
      assert (init + [value])[|init| - limit + 1..] == init[|init| - limit + 1..] + [value];
    }
  }

  /** After any sequence of puts a store holds the last `limit` values put. */
  lemma {:induction false} PutsKeepLast(values: seq<string>, limit: nat)
    requires limit >= 1
    ensures EnqueueAll([], values, limit) == Last(values, limit)
  {
    if values != [] {
      var init, value := values[..|values| - 1], values[|values| - 1];
      PutsKeepLast(init, limit);
      LastAfterPut(init, value, limit);
      assert values == init + [value];
    }
  }

  // ---- the in-memory ring ----

  /** Overwriting the oldest slot and moving on drops the oldest value and appends the new one. */
  lemma Overwrite(values: seq<string>, at: nat, value: string)
    requires at < |values|
    ensures var next := if at + 1 == |values| then 0 else at + 1;
            var ring := values[at := value];
            ring[next..] + ring[..next] == (values[at..] + values[..at])[1..] + [value]
  {
  }

  lemma FromStart(values: seq<string>)
    ensures values[0..] + values[..0] == values
  {
  }

  lemma EvictsOldest(queue: seq<string>, value: string, limit: nat)
    requires |queue| == limit >= 1
    ensures Enqueue(queue, value, limit) == queue[1..] + [value]
  {
    assert (queue + [value])[1..] == queue[1..] + [value];
  }

  lemma Successor(at: nat, limit: nat)
    requires at < limit
    ensures (at + 1) % limit == if at + 1 == limit then 0 else at + 1
  {
  }

  class MemoryPool {
    var values: seq<string>
    var next: nat
    const limit: nat

    constructor (limit: nat)
      requires limit >= 1
      ensures Valid() && Contents() == [] && this.limit == limit
    {
      values, next := [], 0;
      this.limit := limit;
    }

    ghost predicate Valid()
      reads this
    {
      limit >= 1 && next < limit && |values| <= limit && (|values| < limit ==> next == 0)
    }

    /** The ring read from `next` round to `next`: oldest value first. */
    function Contents(): seq<string>
      requires Valid()
      reads this
    {
      values[next..] + values[..next]
    }

    method Put(value: string)
      requires Valid()
      modifies this
      ensures Valid()
      ensures Contents() == Enqueue(old(Contents()), value, limit)
    {
      if |values| < limit {
        FromStart(values);
        FromStart(values + [value]);
        values := values + [value];
        return;
      }
      ghost var before := Contents();
      Overwrite(values, next, value);
      Successor(next, limit);
      values := values[next := value];
      next := (next + 1) % limit;
      assert Contents() == before[1..] + [value];
      EvictsOldest(before, value, limit);
    }

    /** Random draws an index into `values`, whose values are those of the queue. */
    method Random(intN: nat -> nat) returns (value: Option<string>)
      requires Valid()
      requires forall n: nat :: n > 0 ==> intN(n) < n
      ensures value.None? <==> Contents() == []
      ensures value.Some? ==> value.value == values[intN(|values|)]
      ensures multiset(values) == multiset(Contents())
    {
      assert values == values[..next] + values[next..];
      if |values| == 0 {
        return None;
      }
      return Some(values[intN(|values|)]);
    }
  }

  // ---- configured stores ----

  const MAX_STORES := 32
  const MAX_STORE_CAPACITY := 100_000

  datatype StoreConfig = StoreConfig(name: string, capacity: int)

  datatype ConfigError = TooManyStores | InvalidName(at: nat) | Duplicated(at: nat) | InvalidCapacity(at: nat)

  /** validateName: ^[a-z][a-z0-9-]{0,62}$ */
  predicate ValidName(name: string) {
    && 1 <= |name| <= 63
    && 'a' <= name[0] <= 'z'
    && forall c :: c in name ==> 'a' <= c <= 'z' || '0' <= c <= '9' || c == '-'
  }

  /** In terms of code points: a small letter, then at most 62 small letters, digits and hyphens. */
  lemma NamePattern(name: string)
    ensures ValidName(name) <==>
            && 0 < |name| < 64 && 97 <= name[0] as int <= 122
            && forall i :: 1 <= i < |name| ==>
                 97 <= name[i] as int <= 122 || 48 <= name[i] as int <= 57 || name[i] as int == 45
  {
    if ValidName(name) {
      assert forall i :: 0 <= i < |name| ==> name[i] in name;
    }
  }

  /** The entry at `i` is acceptable after those before it. */
  predicate EntryValid(configs: seq<StoreConfig>, i: nat)
    requires i < |configs|
  {
    && ValidName(configs[i].name)
    && (forall j :: 0 <= j < i ==> configs[j].name != configs[i].name)
    && 1 <= configs[i].capacity <= MAX_STORE_CAPACITY
  }

  predicate ConfigsValid(configs: seq<StoreConfig>) {
    |configs| <= MAX_STORES && forall i :: 0 <= i < |configs| ==> EntryValid(configs, i)
  }

  predicate NamesDiffer(configs: seq<StoreConfig>) {
    forall i, j :: 0 <= i < j < |configs| ==> configs[i].name != configs[j].name
  }

  predicate EachValid(configs: seq<StoreConfig>) {
    forall i :: 0 <= i < |configs| ==> ValidName(configs[i].name) && 1 <= configs[i].capacity <= 100_000
  }

  /** At most 32 stores of different valid names, each of 1 to 100000 values. */
  lemma AcceptedExactly(configs: seq<StoreConfig>)
    ensures ConfigsValid(configs) <==> |configs| <= 32 && EachValid(configs) && NamesDiffer(configs)
  {
    if ConfigsValid(configs) {
      forall i | 0 <= i < |configs| ensures ValidName(configs[i].name) && 1 <= configs[i].capacity <= 100_000 {
        assert EntryValid(configs, i);
      }
      forall i, j | 0 <= i < j < |configs| ensures configs[i].name != configs[j].name {
        assert EntryValid(configs, j);
      }
    } else if EachValid(configs) && NamesDiffer(configs) {
      assert forall i :: 0 <= i < |configs| ==> EntryValid(configs, i);
    }
  }

  /** What is said of a bad entry: its name comes first, then a duplicate, then the capacity. */
  function Complaint(configs: seq<StoreConfig>, i: nat): ConfigError
    requires i < |configs|
  {
    if !ValidName(configs[i].name) then InvalidName(i)
    else if exists j :: 0 <= j < i && configs[j].name == configs[i].name then Duplicated(i)
    else InvalidCapacity(i)
  }

  /** The capacities are those of the entries, and of no other names. */
  predicate CapacitiesOf(configs: seq<StoreConfig>, capacities: map<string, nat>) {
    && (forall i :: 0 <= i < |configs| ==> configs[i].name in capacities && capacities[configs[i].name] == configs[i].capacity)
    && (forall name :: name in capacities ==>
          (exists i :: 0 <= i < |configs| && configs[i].name == name) && 1 <= capacities[name] <= MAX_STORE_CAPACITY)
  }

  lemma OneMoreCapacity(configs: seq<StoreConfig>, i: nat, capacities: map<string, nat>)
    requires i < |configs| && CapacitiesOf(configs[..i], capacities)
    requires configs[i].name !in capacities && 1 <= configs[i].capacity <= MAX_STORE_CAPACITY
    ensures CapacitiesOf(configs[..i + 1], capacities[configs[i].name := configs[i].capacity])
  {
    var before, after := configs[..i], configs[..i + 1];
    assert after == before + [configs[i]];
    forall name | name in capacities ensures exists k :: 0 <= k < |after| && after[k].name == name {
      var k :| 0 <= k < |before| && before[k].name == name;
      assert after[k].name == name;
    }
    assert after[i].name == configs[i].name;
  }

  method ValidateStoreConfigs(configs: seq<StoreConfig>) returns (result: Result<map<string, nat>, ConfigError>)
    ensures result.Ok? <==> ConfigsValid(configs)
    ensures result.Ok? ==> CapacitiesOf(configs, result.value)
    ensures result == Err(TooManyStores) <==> |configs| > MAX_STORES
    ensures result.Err? && !result.error.TooManyStores? ==>
              && result.error.at < |configs| && !EntryValid(configs, result.error.at)
              && (forall k :: 0 <= k < result.error.at ==> EntryValid(configs, k))
              && result.error == Complaint(configs, result.error.at)
              && (result.error.InvalidName? <==> !ValidName(configs[result.error.at].name))
              && (result.error.Duplicated? <==>
                    && ValidName(configs[result.error.at].name)
                    && exists j :: 0 <= j < result.error.at && configs[j].name == configs[result.error.at].name)
  {
    if |configs| > MAX_STORES {
      return Err(TooManyStores);
    }
    var capacities: map<string, nat> := map[];
    for i := 0 to |configs|
      invariant forall k :: 0 <= k < i ==> EntryValid(configs, k)
      invariant CapacitiesOf(configs[..i], capacities)
    {
      var config := configs[i];
      if !ValidName(config.name) {
        assert !EntryValid(configs, i);
        return Err(InvalidName(i));
      }
      if config.name in capacities {
        assert !EntryValid(configs, i);
        return Err(Duplicated(i));
      }
      if config.capacity < 1 || config.capacity > MAX_STORE_CAPACITY {
        assert !EntryValid(configs, i);
        return Err(InvalidCapacity(i));
      }
      OneMoreCapacity(configs, i, capacities);
      capacities := capacities[config.name := config.capacity];
    }
    assert configs[..|configs|] == configs;
    return Ok(capacities);
  }

  class MemoryStore {
    const stores: map<string, MemoryPool>

    /** One empty pool for each capacity. */
    constructor (capacities: map<string, nat>)
      requires forall name :: name in capacities ==> capacities[name] >= 1
      ensures Valid() && stores.Keys == capacities.Keys
      ensures forall name :: name in stores ==>
                fresh(stores[name]) && stores[name].limit == capacities[name] && stores[name].Contents() == []
    {
      var pools: map<string, MemoryPool> := map[];
      var rest := capacities.Keys;
      while rest != {}
        invariant rest <= capacities.Keys && pools.Keys == capacities.Keys - rest
        invariant forall name :: name in pools ==>
                    && fresh(pools[name]) && pools[name].Valid()
                    && pools[name].limit == capacities[name] && pools[name].Contents() == []
        invariant forall a, b :: a in pools && b in pools && a != b ==> pools[a] != pools[b]
        decreases rest
      {
        var name :| name in rest;
        var pool := new MemoryPool(capacities[name]);
        pools := pools[name := pool];
        rest := rest - {name};
      }
      stores := pools;
    }

    /** Every store has a pool of its own. */
    ghost predicate Valid()
      reads stores.Values
    {
      && (forall name :: name in stores ==> stores[name].Valid())
      && (forall a, b :: a in stores && b in stores && a != b ==> stores[a] != stores[b])
    }

    method Put(cancelled: bool, store: string, value: string) returns (error: Option<StoreError>)
      requires Valid()
      modifies if store in stores then {stores[store]} else {}
      ensures Valid()
      ensures error == if cancelled then Some(Cancelled)
                       else if value == "" then Some(EmptyValue)
                       else if store !in stores then Some(StoreNotFound)
                       else None
      ensures store in stores ==>
                stores[store].Contents() ==
                if error.Some? then old(stores[store].Contents())
                else Enqueue(old(stores[store].Contents()), value, stores[store].limit)
      ensures forall other :: other in stores && other != store ==>
                stores[other].Contents() == old(stores[other].Contents())
    {
      if cancelled {
        return Some(Cancelled);
      }
      if value == "" {
        return Some(EmptyValue);
      }
      if store !in stores {
        return Some(StoreNotFound);
      }
      stores[store].Put(value);
      return None;
    }

    method Random(cancelled: bool, store: string, intN: nat -> nat)
      returns (result: Result<Option<string>, StoreError>)
      requires Valid()
      requires forall n: nat :: n > 0 ==> intN(n) < n
      ensures cancelled ==> result == Err(Cancelled)
      ensures !cancelled && store !in stores ==> result == Err(StoreNotFound)
      ensures !cancelled && store in stores ==>
                && result.Ok?
                && (result.value.None? <==> stores[store].Contents() == [])
                && (result.value.Some? ==>
                      && result.value.value == stores[store].values[intN(|stores[store].values|)]
                      && result.value.value in stores[store].Contents())
    {
      if cancelled {
        return Err(Cancelled);
      }
      if store !in stores {
        return Err(StoreNotFound);
      }
      var value := stores[store].Random(intN);
      assert value.Some? ==> value.value in multiset(stores[store].values);
      return Ok(value);
    }
  }

  /** A store with one empty pool for each configured name, of the configured capacity. */
  method NewMemoryStore(configs: seq<StoreConfig>) returns (store: MemoryStore?, error: Option<ConfigError>)
    ensures error.None? <==> ConfigsValid(configs)
    ensures error.Some? ==> store == null
    ensures error.None? ==>
              && store != null && fresh(store) && store.Valid()
              && (forall name :: name in store.stores ==> fresh(store.stores[name]) && store.stores[name].Contents() == [])
              && CapacitiesOf(configs, map name | name in store.stores :: store.stores[name].limit)
  {
    var validated := ValidateStoreConfigs(configs);
    if validated.Err? {
      return null, Some(validated.error);
    }
    store := new MemoryStore(validated.value);
    assert (map name | name in store.stores :: store.stores[name].limit) == validated.value;
    return store, None;
  }

  // ---- the Redis list ----

  /** LTRIM: negative indices count from the end, and the kept range includes `stop`. */
  function LTrim(list: seq<string>, start: int, stop: int): seq<string> {
    var n := |list|;
    var from := Max(if start < 0 then start + n else start, 0);
    var to := Min(if stop < 0 then stop + n else stop, n - 1);
    if from > to || from >= n then [] else list[from..to + 1]
  }

  /** RPUSH followed by LTRIM to the last `limit` is the bounded queue's step. */
  lemma PushTrimIsEnqueue(list: seq<string>, value: string, limit: nat)
    requires limit >= 1
    ensures LTrim(list + [value], 0 - limit, -1) == Enqueue(list, value, limit)
    ensures Enqueue(list, value, limit) != []
  {
  }

  function PushTrimAll(values: seq<string>, limit: nat): seq<string> {
    if values == [] then []
    else LTrim(PushTrimAll(values[..|values| - 1], limit) + [values[|values| - 1]], 0 - limit, -1)
  }

  /**
   Store refinement: after the same puts, from empty, the ring and the list hold the same
   values in the same order, the last `limit` of them, so they evict the same value and
   draw from the same values.
   */
  lemma {:induction false} ListIsRing(values: seq<string>, limit: nat)
    requires limit >= 1
    ensures PushTrimAll(values, limit) == EnqueueAll([], values, limit) == Last(values, limit)
  {
    PutsKeepLast(values, limit);
    if values != [] {
      var init := values[..|values| - 1];
      ListIsRing(init, limit);
      PushTrimIsEnqueue(PushTrimAll(init, limit), values[|values| - 1], limit);
    }
  }
}
