/**
 The Redis value stores: one list per store, a read in two steps, and the deadline that
 stores removed from a scenario get. Times are whole milliseconds of the Redis clock.
 */
module RedisStores {
  import opened Results
  import opened Stores
  import RedisKeys

  const REMOVED_STORE_TTL: nat := 7 * 24 * 60 * 60 * 1000

  datatype NewStoreError = NoClient | InvalidScope | InvalidConfig(cause: ConfigError)

  datatype Entry = Entry(values: seq<string>, deadline: Option<nat>)

  type Lists = map<string, Entry>

  function KeyOf(prefix: string, store: string): string {
    prefix + ":" + store
  }

  /** strings.TrimPrefix */
  function TrimPrefix(text: string, prefix: string): string {
    if prefix <= text then text[|prefix|..] else text
  }

  /** The key of a store in this scope: what the SCAN pattern and the name check let through. */
  predicate Managed(prefix: string, key: string) {
    prefix + ":" <= key && ValidName(TrimPrefix(key, prefix + ":"))
  }

  lemma ManagedKey(prefix: string, store: string)
    ensures TrimPrefix(KeyOf(prefix, store), prefix + ":") == store
    ensures Managed(prefix, KeyOf(prefix, store)) <==> ValidName(store)
  {
  }

  // ---- what the commands do ----

  function AfterPut(lists: Lists, key: string, value: string, limit: nat): Lists {
    var before := if key in lists then lists[key] else Entry([], None);
    lists[key := Entry(Enqueue(before.values, value, limit), before.deadline)]
  }

  /** Every attempt of a put that runs pushes the value again. */
  function AfterPuts(lists: Lists, key: string, value: string, limit: nat, attempts: nat): Lists {
    if attempts == 0 then lists else AfterPut(AfterPuts(lists, key, value, limit, attempts - 1), key, value, limit)
  }

  function ReconcileEntry(entry: Entry, prefix: string, key: string, active: set<string>, now: nat): Entry {
    if !Managed(prefix, key) then entry
    else if TrimPrefix(key, prefix + ":") in active then Entry(entry.values, None)
    else if entry.deadline.Some? then entry
    else Entry(entry.values, Some(now + REMOVED_STORE_TTL))
  }

  /**
   PERSIST for the keys of active stores, EXPIRE NX for the others, nothing for foreign keys.
   The commands for the stores in `missed` did not run.
   */
  function AfterReconcile(lists: Lists, prefix: string, active: set<string>, missed: set<string>, now: nat): Lists {
    map key | key in lists ::
      if TrimPrefix(key, prefix + ":") in missed then lists[key]
      else ReconcileEntry(lists[key], prefix, key, active, now)
  }

  /**
   What a reconcile leaves, list by list: every list and its values; the deadline only of a
   valid store name under the prefix, which an active store loses and a removed one gets once,
   seven days ahead.
   */
  predicate Retained(before: Lists, after: Lists, prefix: string, active: set<string>, missed: set<string>, now: nat) {
    && after.Keys == before.Keys
    && forall key :: key in before ==>
         var store := TrimPrefix(key, prefix + ":");
         && after[key].values == before[key].values
         && (store in missed || !(prefix + ":" <= key) || !ValidName(store) ==> after[key].deadline == before[key].deadline)
         && (store !in missed && prefix + ":" <= key && ValidName(store) ==>
               && (store in active ==> after[key].deadline.None?)
               && (store !in active && before[key].deadline.Some? ==> after[key].deadline == before[key].deadline)
               && (store !in active && before[key].deadline.None? ==> after[key].deadline == Some(now + 604_800_000)))
  }

  lemma RetentionExactly(lists: Lists, prefix: string, active: set<string>, missed: set<string>, now: nat)
    ensures Retained(lists, AfterReconcile(lists, prefix, active, missed, now), prefix, active, missed, now)
  {
  }

  /** Keys are gone from their deadline on. */
  function AfterExpiry(lists: Lists, now: nat): Lists {
    map key | key in lists && !(lists[key].deadline.Some? && lists[key].deadline.value <= now) :: lists[key]
  }

  /** The reconcile commands carried out for some of the keys. */
  function OnKeys(lists: Lists, prefix: string, active: set<string>, now: nat, keys: seq<string>): Lists {
    map key | key in lists ::
      if key in keys then ReconcileEntry(lists[key], prefix, key, active, now) else lists[key]
  }

  /** A key handled twice is left as it was after the first time. */
  lemma OneMoreKey(lists: Lists, prefix: string, active: set<string>, now: nat, keys: seq<string>, key: string)
    requires Managed(prefix, key)
    ensures var before, after := OnKeys(lists, prefix, active, now, keys),
                                 OnKeys(lists, prefix, active, now, keys + [key]);
            after == if key in before
                     then before[key := ReconcileEntry(before[key], prefix, key, active, now)] else before
  {
  }

  /** The stores whose lists the commands did not get to. */
  function Unsent(lists: Lists, prefix: string, sent: seq<string>): set<string> {
    set key | key in lists && Managed(prefix, key) && key !in sent :: TrimPrefix(key, prefix + ":")
  }

  lemma UnsentStores(lists: Lists, prefix: string, sent: seq<string>, store: string)
    ensures store in Unsent(lists, prefix, sent) <==>
            KeyOf(prefix, store) in lists && ValidName(store) && KeyOf(prefix, store) !in sent
  {
    ManagedKey(prefix, store);
    if store in Unsent(lists, prefix, sent) {
      var key :| key in lists && Managed(prefix, key) && key !in sent && TrimPrefix(key, prefix + ":") == store;
      assert key == prefix + ":" + store;
    }
  }

  /** The commands leave what a reconcile leaves that missed the other stores. */
  lemma SentIsReconciled(lists: Lists, prefix: string, active: set<string>, now: nat, sent: seq<string>)
    requires forall key :: key in sent ==> Managed(prefix, key)
    ensures OnKeys(lists, prefix, active, now, sent) ==
            AfterReconcile(lists, prefix, active, Unsent(lists, prefix, sent), now)
  {
    forall key | key in lists && Managed(prefix, key)
      ensures TrimPrefix(key, prefix + ":") in Unsent(lists, prefix, sent) <==> key !in sent
    {
      var store := TrimPrefix(key, prefix + ":");
      assert key == KeyOf(prefix, store);
      UnsentStores(lists, prefix, sent, store);
    }
  }

  /** The length, then the value at an index drawn below it. */
  function TwoStepRead(first: Lists, second: Lists, key: string, intN: nat -> nat): Option<string>
    requires forall n: nat :: n > 0 ==> intN(n) < n
  {
    var length := if key in first then |first[key].values| else 0;
    if length == 0 then None
    else if key in second && intN(length) < |second[key].values| then Some(second[key].values[intN(length)])
    else None
  }

  // ---- the database and the store that uses it ----

  class Database {
    var lists: Lists

    constructor ()
      ensures lists == map[]
    {
      lists := map[];
    }

    method RPush(key: string, value: string)
      modifies this
      ensures lists == old(lists)[key :=
          if key in old(lists) then Entry(old(lists)[key].values + [value], old(lists)[key].deadline)
          else Entry([value], None)]
    {
      var entry := if key in lists then lists[key] else Entry([], None);
      assert [] + [value] == [value];
      lists := lists[key := Entry(entry.values + [value], entry.deadline)];
    }

    /** A list trimmed to nothing is deleted. */
    method LTrimKey(key: string, start: int, stop: int)
      modifies this
      ensures lists ==
              if key !in old(lists) then old(lists)
              else if LTrim(old(lists)[key].values, start, stop) == [] then old(lists) - {key}
              else old(lists)[key := Entry(LTrim(old(lists)[key].values, start, stop), old(lists)[key].deadline)]
    {
      if key in lists {
        var kept := LTrim(lists[key].values, start, stop);
        if kept == [] {
          lists := lists - {key};
        } else {
          lists := lists[key := Entry(kept, lists[key].deadline)];
        }
      }
    }

    method LLen(key: string) returns (length: nat)
      ensures length == if key in lists then |lists[key].values| else 0
    {
      length := if key in lists then |lists[key].values| else 0;
    }

    method LIndex(key: string, index: nat) returns (value: Option<string>)
      ensures value == if key in lists && index < |lists[key].values| then Some(lists[key].values[index]) else None
    {
      if key in lists && index < |lists[key].values| {
        return Some(lists[key].values[index]);
      }
      return None;
    }

    method Persist(key: string)
      modifies this
      ensures lists == if key in old(lists) then old(lists)[key := old(lists)[key].(deadline := None)] else old(lists)
    {
      if key in lists {
        lists := lists[key := lists[key].(deadline := None)];
      }
    }

    method ExpireNX(key: string, now: nat, ttl: nat)
      modifies this
      ensures lists == if key in old(lists) && old(lists)[key].deadline.None?
                       then old(lists)[key := old(lists)[key].(deadline := Some(now + ttl))] else old(lists)
    {
      if key in lists && lists[key].deadline.None? {
        lists := lists[key := lists[key].(deadline := Some(now + ttl))];
      }
    }
  }

  class RedisStore {
    const db: Database
    const keyPrefix: string
    const limits: map<string, nat>

    constructor (db: Database, keyPrefix: string, limits: map<string, nat>)
      ensures this.db == db && this.keyPrefix == keyPrefix && this.limits == limits
    {
      this.db := db;
      this.keyPrefix := keyPrefix;
      this.limits := limits;
    }

    predicate Valid() {
      forall store :: store in limits ==> limits[store] >= 1
    }

    /** RPUSH and LTRIM, as one transaction. */
    method PushAndTrim(key: string, value: string, limit: nat)
      requires limit >= 1
      modifies db
      ensures db.lists == AfterPut(old(db.lists), key, value, limit)
    {
      ghost var values := if key in db.lists then db.lists[key].values else [];
      PushTrimIsEnqueue(values, value, limit);
      assert [] + [value] == [value];
      db.RPush(key, value);
      db.LTrimKey(key, -(limit as int), -1);
    }

    /** `lost` attempts ran the transaction unanswered; `reply` is the outcome of the last one. */
    method Put(cancelled: bool, store: string, value: string, lost: nat, reply: Reply) returns (error: Option<StoreError>)
      requires Valid()
      modifies db
      ensures error == if cancelled then Some(Cancelled)
                       else if value == "" then Some(EmptyValue)
                       else if store !in limits then Some(StoreNotFound)
                       else if !reply.Delivered? then Some(RedisFailed)
                       else None
      ensures db.lists == if cancelled || value == "" || store !in limits then old(db.lists)
                          else AfterPuts(old(db.lists), KeyOf(keyPrefix, store), value, limits[store],
                                         if reply.NotRun? then lost else lost + 1)
    {
      if cancelled {
        return Some(Cancelled);
      }
      if value == "" {
        return Some(EmptyValue);
      }
      if store !in limits {
        return Some(StoreNotFound);
      }
      var key, limit := KeyOf(keyPrefix, store), limits[store];
      for attempts := 0 to lost
        invariant db.lists == AfterPuts(old(db.lists), key, value, limit, attempts)
      {
        PushAndTrim(key, value, limit);
      }
      if reply.NotRun? {
        return Some(RedisFailed);
      }
      PushAndTrim(key, value, limit);
      return if reply.Lost? then Some(RedisFailed) else None;
    }

    /**
     Random reads the length and then one index, as two commands that reach Redis or fail:
     `others` is what other clients have made of the lists in between.
     */
    method Random(cancelled: bool, store: string, intN: nat -> nat, lenReaches: bool, others: Lists, indexReaches: bool)
      returns (result: Result<Option<string>, StoreError>)
      requires forall n: nat :: n > 0 ==> intN(n) < n
      modifies db
      ensures cancelled ==> result == Err(Cancelled)
      ensures !cancelled && store !in limits ==> result == Err(StoreNotFound)
      ensures !cancelled && store in limits ==>
                var key := KeyOf(keyPrefix, store);
                if !lenReaches || (!indexReaches && key in old(db.lists) && old(db.lists)[key].values != [])
                then result == Err(RedisFailed)
                else result == Ok(TwoStepRead(old(db.lists), others, key, intN))
      ensures !cancelled && store in limits && lenReaches ==>
                var key := KeyOf(keyPrefix, store);
                var length := if key in old(db.lists) then |old(db.lists)[key].values| else 0;
                && (length == 0 ==> result == Ok(None))
                && (length > 0 && indexReaches ==>
                      if key in others && intN(length) < |others[key].values|
                      then result == Ok(Some(others[key].values[intN(length)])) else result == Ok(None))
    {
      if cancelled {
        return Err(Cancelled);
      }
      if store !in limits {
        return Err(StoreNotFound);
      }
      var key := KeyOf(keyPrefix, store);
      if !lenReaches {
        return Err(RedisFailed);
      }
      var length := db.LLen(key);
      if length == 0 {
        return Ok(None);
      }
      db.lists := others;
      if !indexReaches {
        return Err(RedisFailed);
      }
      var value := db.LIndex(key, intN(length));
      return Ok(value);
    }

    /** The scanned keys that belong to this scope's named stores. */
    method CollectKeys(scanned: seq<string>) returns (keys: seq<string>)
      requires forall key :: key in scanned ==> keyPrefix + ":" <= key
      ensures forall key :: key in keys <==> key in scanned && Managed(keyPrefix, key)
    {
      keys := [];
      for i := 0 to |scanned|
        invariant forall key :: key in keys <==> key in scanned[..i] && Managed(keyPrefix, key)
      {
        var key := scanned[i];
        assert key in scanned;
        var store := TrimPrefix(key, keyPrefix + ":");
        if ':' in store || !ValidName(store) {
          assert ':' in store ==> !ValidName(store);
          continue;
        }
        keys := keys + [key];
      }
      assert scanned[..|scanned|] == scanned;
    }

    /** The pipelined commands, one for each collected key. */
    method ApplyRetention(keys: seq<string>, now: nat)
      requires forall key :: key in keys ==> Managed(keyPrefix, key)
      modifies db
      ensures db.lists == OnKeys(old(db.lists), keyPrefix, limits.Keys, now, keys)
    {
      ghost var before := db.lists;
      for i := 0 to |keys|
        invariant db.lists == OnKeys(before, keyPrefix, limits.Keys, now, keys[..i])
      {
        var key := keys[i];
        assert key in keys;
        OneMoreKey(before, keyPrefix, limits.Keys, now, keys[..i], key);
        assert keys[..i + 1] == keys[..i] + [key];
        var store := TrimPrefix(key, keyPrefix + ":");
        if store in limits {
          db.Persist(key);
          continue;
        }
        db.ExpireNX(key, now, REMOVED_STORE_TTL);
      }
      assert keys[..|keys|] == keys;
    }

    /**
     ReconcileKeys, with the keys the SCAN returned: unless it fails at least every key of the
     prefix, in any order and possibly more than once, and perhaps some that are gone again.
     `others` is what other clients have made of the lists when the pipeline is sent. If the
     connection breaks, only the first `ran` of the pipelined commands have run.
     */
    method ReconcileKeys(cancelled: bool, scanned: seq<string>, scanFails: bool, others: Lists,
                         breaks: bool, ran: nat, now: nat)
      returns (error: Option<StoreError>, missed: set<string>)
      requires !scanFails ==> forall key :: key in db.lists && keyPrefix + ":" <= key ==> key in scanned
      requires forall key :: key in scanned ==> keyPrefix + ":" <= key
      modifies db
      ensures cancelled ==> error == Some(Cancelled) && db.lists == old(db.lists)
      ensures !cancelled && scanFails ==> error == Some(RedisFailed) && db.lists == others
      ensures !cancelled && !scanFails ==>
                && error == (if breaks && exists key :: key in scanned && Managed(keyPrefix, key)
                             then Some(RedisFailed) else None)
                && db.lists == AfterReconcile(others, keyPrefix, limits.Keys, missed, now)
                && Retained(others, db.lists, keyPrefix, limits.Keys, missed, now)
      ensures error.None? ==>
                && (forall store :: store in missed <==>
                      && KeyOf(keyPrefix, store) in others && ValidName(store)
                      && KeyOf(keyPrefix, store) !in scanned)
                && (forall store :: store in missed ==> KeyOf(keyPrefix, store) !in old(db.lists))
    {
      missed := {};
      if cancelled {
        return Some(Cancelled), missed;
      }
      if scanFails {
        db.lists := others;
        return Some(RedisFailed), missed;
      }
      var keys := CollectKeys(scanned);
      db.lists := others;
      var sent := if breaks then keys[..Min(ran, |keys|)] else keys;
      assert forall key :: key in sent ==> key in keys;
      missed := Unsent(others, keyPrefix, sent);
      SentIsReconciled(others, keyPrefix, limits.Keys, now, sent);
      RetentionExactly(others, keyPrefix, limits.Keys, missed, now);
      forall store ensures store in missed <==>
          KeyOf(keyPrefix, store) in others && ValidName(store) && KeyOf(keyPrefix, store) !in sent
      {
        UnsentStores(others, keyPrefix, sent, store);
      }
      forall store ensures ValidName(store) ==> Managed(keyPrefix, KeyOf(keyPrefix, store)) {
        ManagedKey(keyPrefix, store);
      }
      if |keys| == 0 {
        assert OnKeys(others, keyPrefix, limits.Keys, now, sent) == others;
        return None, missed;
      }
      assert keys[0] in keys;
      ApplyRetention(sent, now);
      return if breaks then Some(RedisFailed) else None, missed;
    }
  }

  /** The store of a scope uses the scope's store keys, with the configured capacities as limits. */
  method NewRedisStore(db: Database?, scope: RedisKeys.Scope, configs: seq<StoreConfig>)
    returns (store: RedisStore?, error: Option<NewStoreError>)
    ensures error.None? <==> db != null && RedisKeys.Valid(scope) && ConfigsValid(configs)
    ensures db == null <==> error == Some(NoClient)
    ensures db != null && !RedisKeys.Valid(scope) <==> error == Some(InvalidScope)
    ensures error.Some? ==> store == null
    ensures error.None? ==>
              && store != null && store.db == db && store.Valid()
              && CapacitiesOf(configs, store.limits)
              && forall name :: KeyOf(store.keyPrefix, name) == RedisKeys.Render(scope, RedisKeys.StoreKey(name))
  {
    if db == null {
      return null, Some(NoClient);
    }
    if !RedisKeys.Valid(scope) {
      return null, Some(InvalidScope);
    }
    var validated := ValidateStoreConfigs(configs);
    if validated.Err? {
      return null, Some(InvalidConfig(validated.error));
    }
    var prefix := RedisKeys.KindPrefix(scope, RedisKeys.STORE);
    forall name: string ensures KeyOf(prefix, name) == RedisKeys.Render(scope, RedisKeys.StoreKey(name)) {
      RedisKeys.OpeningIsKey(scope, RedisKeys.StoreKey(name));
    }
    store := new RedisStore(db, prefix, validated.value);
    return store, None;
  }

  // ---- the two-step read ----

  lemma {:induction false} PutsOnlyGrow(queue: seq<string>, values: seq<string>, limit: nat)
    requires |queue| <= limit
    ensures |queue| <= |EnqueueAll(queue, values, limit)| <= limit
  {
    if values != [] {
      PutsOnlyGrow(queue, values[..|values| - 1], limit);
    }
  }

  /** Values put between the two steps never make the read of a nonempty list find nothing. */
  lemma ReadSurvivesPuts(first: Lists, second: Lists, key: string, intN: nat -> nat, puts: seq<string>, limit: nat)
    requires forall n: nat :: n > 0 ==> intN(n) < n
    requires key in first && key in second
    requires 1 <= |first[key].values| <= limit
    requires second[key].values == EnqueueAll(first[key].values, puts, limit)
    ensures var i := intN(|first[key].values|);
            i < |second[key].values| && TwoStepRead(first, second, key, intN) == Some(second[key].values[i])
  {
    PutsOnlyGrow(first[key].values, puts, limit);
  }

  // ---- a retried put ----

  function Copies(value: string, n: nat): seq<string> {
    if n == 0 then [] else Copies(value, n - 1) + [value]
  }

  lemma {:induction false} CopiesLength(value: string, n: nat)
    ensures |Copies(value, n)| == n
  {
    if n > 0 {
      CopiesLength(value, n - 1);
    }
  }

  /**
   A put whose unanswered attempts ran has put its value once for each of them: the list is
   the bounded queue after as many puts of the same value, and keeps its deadline.
   */
  lemma {:induction false} RetriedPut(lists: Lists, key: string, value: string, limit: nat, attempts: nat)
    requires attempts >= 1
    ensures var after := AfterPuts(lists, key, value, limit, attempts);
            var before := if key in lists then lists[key] else Entry([], None);
            after == lists[key := Entry(EnqueueAll(before.values, Copies(value, attempts), limit), before.deadline)]
  {
    var copies := Copies(value, attempts);
    assert copies[..attempts - 1] == Copies(value, attempts - 1) by {
      CopiesLength(value, attempts - 1);
    }
    CopiesLength(value, attempts);
    if attempts > 1 {
      RetriedPut(lists, key, value, limit, attempts - 1);
    }
  }

  // ---- all runs of puts, reconciles and time ----

  datatype Step =
    | Tick(to: nat)
    | Put(store: string, value: string, limit: nat)
    | Reconcile(active: set<string>, missed: set<string>)

  /** Made: a put found no list and created one. Reconciled: a reconcile, which may have missed some stores. */
  datatype Note = Made(store: string) | Reconciled(active: set<string>, missed: set<string>, at: nat)

  datatype World = World(now: nat, lists: Lists, notes: seq<Note>)

  function Next(prefix: string, w: World, step: Step): World {
    match step
    case Tick(to) =>
      var now := Max(w.now, to);
      World(now, AfterExpiry(w.lists, now), w.notes)
    case Put(store, value, limit) =>
      if value == "" || limit < 1 || !ValidName(store) then w
      else
        var key := KeyOf(prefix, store);
        World(w.now, AfterPut(w.lists, key, value, limit),
              if key in w.lists then w.notes else w.notes + [Made(store)])
    case Reconcile(active, missed) =>
      World(w.now, AfterReconcile(w.lists, prefix, active, missed, w.now), w.notes + [Reconciled(active, missed, w.now)])
  }

  function Run(prefix: string, clock: nat, steps: seq<Step>): World {
    if steps == [] then World(clock, map[], [])
    else Next(prefix, Run(prefix, clock, steps[..|steps| - 1]), steps[|steps| - 1])
  }

  function AfterNote(earlier: Option<nat>, note: Note, store: string): Option<nat> {
    match note
    case Made(made) => if made == store then None else earlier
    case Reconciled(active, missed, at) =>
      if store in missed then earlier
      else if store in active then None
      else if earlier.Some? then earlier else Some(at)
  }

  /**
   When the first reconcile excluding the store ran, counting only reconciles that did not
   miss it, after its list was last made and after the last reconcile including it; None if
   the last one included it or there was none.
   */
  function FirstExclusion(notes: seq<Note>, store: string): Option<nat> {
    if notes == [] then None
    else AfterNote(FirstExclusion(notes[..|notes| - 1], store), notes[|notes| - 1], store)
  }

  predicate DeadlineKnown(w: World, prefix: string, store: string) {
    var key := KeyOf(prefix, store);
    key in w.lists ==>
      var since := FirstExclusion(w.notes, store);
      && w.lists[key].deadline == (if since.Some? then Some(since.value + 604_800_000) else None)
      && (since.Some? ==> since.value <= w.now < since.value + 604_800_000)
  }

  lemma LastNote(notes: seq<Note>, note: Note, store: string)
    ensures FirstExclusion(notes + [note], store) == AfterNote(FirstExclusion(notes, store), note, store)
  {
    assert (notes + [note])[..|notes|] == notes;
  }

  lemma DeadlineKnownStep(prefix: string, w: World, step: Step, store: string)
    requires ValidName(store)
    requires DeadlineKnown(w, prefix, store)
    ensures DeadlineKnown(Next(prefix, w, step), prefix, store)
  {
    var next := Next(prefix, w, step);
    ManagedKey(prefix, store);
    match step
    case Tick(_) =>
    case Put(other, _, _) =>
      ManagedKey(prefix, other);
      LastNote(w.notes, Made(other), store);
    case Reconcile(active, missed) =>
      LastNote(w.notes, Reconciled(active, missed, w.now), store);
  }

  /**
   Deadline protocol: in every run, a store's list has a deadline exactly when the last
   reconcile that reached it since it was made excluded the store; the deadline is seven days
   after the first such reconcile since the last including one, and it has not passed.
   */
  lemma {:induction false} DeadlineProtocol(prefix: string, clock: nat, steps: seq<Step>, store: string)
    requires ValidName(store)
    ensures DeadlineKnown(Run(prefix, clock, steps), prefix, store)
  {
    if steps != [] {
      DeadlineProtocol(prefix, clock, steps[..|steps| - 1], store);
      DeadlineKnownStep(prefix, Run(prefix, clock, steps[..|steps| - 1]), steps[|steps| - 1], store);
    }
  }

  /** Steps that put nothing into the store and reach no later than `latest`. */
  predicate Quiet(steps: seq<Step>, store: string, latest: nat) {
    forall i :: 0 <= i < |steps| ==>
      && (steps[i].Put? ==> steps[i].store != store)
      && (steps[i].Tick? ==> steps[i].to <= latest)
  }

  predicate Includes(step: Step, store: string) {
    step.Reconcile? && store in step.active && store !in step.missed
  }

  function Continue(prefix: string, w: World, steps: seq<Step>): World {
    if steps == [] then w
    else Next(prefix, Continue(prefix, w, steps[..|steps| - 1]), steps[|steps| - 1])
  }

  /**
   Rollback window: from any reachable state, a store whose deadline lies ahead keeps its
   values through any reconciles until then, and a reconcile that includes it again takes
   the deadline away.
   */
  lemma {:induction false} RestoredUnchanged(prefix: string, w: World, steps: seq<Step>, store: string, latest: nat)
    requires ValidName(store)
    requires DeadlineKnown(w, prefix, store) && KeyOf(prefix, store) in w.lists
    requires w.now <= latest < w.now + REMOVED_STORE_TTL
    requires w.lists[KeyOf(prefix, store)].deadline.Some? ==> latest < w.lists[KeyOf(prefix, store)].deadline.value
    requires Quiet(steps, store, latest)
    ensures var end := Continue(prefix, w, steps);
            var key := KeyOf(prefix, store);
            && key in end.lists
            && end.lists[key].values == w.lists[key].values
            && w.now <= end.now <= latest
            && (end.lists[key].deadline.Some? ==> latest < end.lists[key].deadline.value)
            && (steps != [] && Includes(steps[|steps| - 1], store) ==> end.lists[key].deadline.None?)
  {
    if steps != [] {
      var init, last := steps[..|steps| - 1], steps[|steps| - 1];
      assert forall i :: 0 <= i < |init| ==> init[i] == steps[i];
      RestoredUnchanged(prefix, w, init, store, latest);
      ManagedKey(prefix, store);
      if last.Put? {
        ManagedKey(prefix, last.store);
      }
    }
  }

  lemma ThreeSteps(prefix: string, clock: nat, a: Step, b: Step, c: Step)
    ensures Run(prefix, clock, [a, b, c]) ==
            Next(prefix, Next(prefix, Next(prefix, World(clock, map[], []), a), b), c)
  {
    assert [a, b, c][..2] == [a, b] && [a, b][..1] == [a] && [a][..0] == [];
    assert Run(prefix, clock, [a]) == Next(prefix, World(clock, map[], []), a);
    assert Run(prefix, clock, [a, b]) == Next(prefix, Run(prefix, clock, [a]), b);
  }

  /** A store that was filled and then removed is there, with its value, for exactly seven days. */
  lemma RemovedStoreLives(prefix: string, clock: nat, store: string, value: string, limit: nat, to: nat)
    requires ValidName(store) && value != "" && limit >= 1 && clock <= to
    ensures var lists := Run(prefix, clock, [Put(store, value, limit), Reconcile({}, {}), Tick(to)]).lists;
            && (KeyOf(prefix, store) in lists <==> to < clock + 7 * 24 * 60 * 60 * 1000)
            && (KeyOf(prefix, store) in lists ==> lists[KeyOf(prefix, store)].values == [value])
  {
    ThreeSteps(prefix, clock, Put(store, value, limit), Reconcile({}, {}), Tick(to));
    ManagedKey(prefix, store);
    assert [] + [value] == [value];
  }
}
