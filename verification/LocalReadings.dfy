/**
 The in-process limiter with concurrent callers. A call reads the clock before it takes the
 lock, so in the order of the lock the readings may be in any order. Readings and windows are
 nanoseconds from the zero time.
 */
module LocalReadings {
  import opened Windows
  import opened RateLimit
  import Ledger

  /** The arguments of a call that passed the argument checks. */
  datatype Request = Request(requests: nat, permits: nat)

  predicate Accepted(asked: seq<Request>) {
    forall i :: 0 <= i < |asked| ==> 1 <= asked[i].permits <= asked[i].requests
  }

  /** The first `n` calls in the order of the lock: the fields afterwards, and what was granted. */
  function Calls(window: nat, times: seq<nat>, asked: seq<Request>, n: nat): (LocalState, seq<Ledger.Call>)
    requires window > 0 && n <= |times| == |asked|
  {
    if n == 0 then (NEW_LOCAL, [])
    else
      var (state, calls) := Calls(window, times, asked, n - 1);
      var r := asked[n - 1];
      var (next, decision) := LocalAcquire(state, times[n - 1], window, r.requests, r.permits);
      (next, calls + [Ledger.Call(times[n - 1], r.requests, r.permits, decision)])
  }

  function AllCalls(window: nat, times: seq<nat>, asked: seq<Request>): seq<Ledger.Call>
    requires window > 0 && |times| == |asked|
  {
    Calls(window, times, asked, |times|).1
  }

  predicate KeepsBudget(window: nat, calls: seq<Ledger.Call>, t: nat)
    requires window > 0
  {
    Ledger.GrantedIn(calls, Start(t, window), End(t, window)) <= Ledger.BudgetIn(calls, Start(t, window), End(t, window))
  }

  ghost predicate KeepsBudgets(window: nat, times: seq<nat>, asked: seq<Request>)
    requires window > 0 && |times| == |asked|
  {
    forall t :: KeepsBudget(window, AllCalls(window, times, asked), t)
  }

  /** A call in between read another window than the calls `i` and `k` around it. */
  predicate ReturnsAt(window: nat, times: seq<nat>, i: nat, j: nat, k: nat)
    requires window > 0
  {
    i < j < k < |times| && Start(times[i], window) == Start(times[k], window) != Start(times[j], window)
  }

  /** Some window is read again after another one has been read. */
  ghost predicate Returns(window: nat, times: seq<nat>)
    requires window > 0
  {
    exists i: nat, j: nat, k: nat :: ReturnsAt(window, times, i, j, k)
  }

  /** Readings in order, as of a limiter with a single caller, never return. */
  lemma OrderedNeverReturns(window: nat, times: seq<nat>)
    requires window > 0
    requires forall i, j :: 0 <= i < j < |times| ==> times[i] <= times[j]
    ensures !Returns(window, times)
  {
    forall i: nat, j: nat, k: nat | i < j < k < |times| ensures !ReturnsAt(window, times, i, j, k) {
      StartMonotone(times[i], times[j], window);
      StartMonotone(times[j], times[k], window);
    }
  }

  /** The last of `n` calls, given what the calls before it left. */
  lemma LastCall(window: nat, times: seq<nat>, asked: seq<Request>, n: nat)
    requires window > 0 && 0 < n <= |times| == |asked|
    ensures var (state, calls) := Calls(window, times, asked, n - 1);
            var (after, all) := Calls(window, times, asked, n);
            var granted := Grant(LocalUsed(state, times[n - 1], window), asked[n - 1].requests, asked[n - 1].permits);
            && |all| == |calls| + 1 && all == calls + [all[|calls|]]
            && all[|calls|].at == times[n - 1]
            && all[|calls|].requests == asked[n - 1].requests && all[|calls|].permits == asked[n - 1].permits
            && all[|calls|].decision.granted == granted
            && after == LocalState(window, Start(times[n - 1], window), LocalUsed(state, times[n - 1], window) + granted)
  {
  }

  /** The calls are made at the readings, with the arguments asked. */
  predicate Match(times: seq<nat>, asked: seq<Request>, calls: seq<Ledger.Call>)
    requires |calls| <= |times| == |asked|
  {
    forall k :: 0 <= k < |calls| ==> calls[k].at == times[k] && calls[k].requests == asked[k].requests
  }

  lemma {:induction false} CallsMatch(window: nat, times: seq<nat>, asked: seq<Request>, n: nat)
    requires window > 0 && n <= |times| == |asked|
    ensures |Calls(window, times, asked, n).1| == n && Match(times, asked, Calls(window, times, asked, n).1)
  {
    if n > 0 {
      CallsMatch(window, times, asked, n - 1);
      LastCall(window, times, asked, n);
    }
  }

  // ---- readings that never return keep the budget ----

  /** The fields hold the window read last and what was granted in it. */
  predicate FieldsKnow(window: nat, times: seq<nat>, n: nat, state: LocalState, calls: seq<Ledger.Call>)
    requires window > 0 && n <= |times|
  {
    if n == 0 then state == NEW_LOCAL && calls == []
    else
      var lo := Start(times[n - 1], window);
      state == LocalState(window, lo, Ledger.GrantedIn(calls, lo, lo + window))
  }

  /** A reading of another window than the one before is the first of its window. */
  lemma NotReadBefore(window: nat, times: seq<nat>, k: nat, n: nat)
    requires window > 0 && !Returns(window, times)
    requires k < n < |times|
    requires Start(times[n - 1], window) != Start(times[n], window)
    ensures Start(times[k], window) != Start(times[n], window)
  {
    assert k < n - 1 ==> !ReturnsAt(window, times, k, n - 1, n);
  }

  /** What the fields count for the window of the next reading is what was granted in it before. */
  lemma UsedIsGranted(window: nat, times: seq<nat>, n: nat, state: LocalState, calls: seq<Ledger.Call>)
    requires window > 0 && n < |times| && !Returns(window, times)
    requires FieldsKnow(window, times, n, state, calls)
    requires |calls| == n && forall k :: 0 <= k < n ==> calls[k].at == times[k]
    ensures LocalUsed(state, times[n], window) ==
            Ledger.GrantedIn(calls, Start(times[n], window), End(times[n], window))
  {
    if n > 0 && Start(times[n - 1], window) != Start(times[n], window) {
      forall c | c in calls ensures c.at < Start(times[n], window) || End(times[n], window) <= c.at {
        var k :| 0 <= k < |calls| && calls[k] == c;
        NotReadBefore(window, times, k, n);
        SameWindow(times[n], times[k], window);
      }
      Ledger.NothingOutside(calls, Start(times[n], window), End(times[n], window));
    }
  }

  lemma BudgetAfterCall(window: nat, calls: seq<Ledger.Call>, c: Ledger.Call, t: nat)
    requires window > 0 && KeepsBudget(window, calls, t)
    requires c.decision.granted ==
             Grant(Ledger.GrantedIn(calls, Start(c.at, window), End(c.at, window)), c.requests, c.permits)
    ensures KeepsBudget(window, calls + [c], t)
  {
    Ledger.AppendCall(calls, c, Start(t, window), End(t, window));
    SameWindow(t, c.at, window);
  }

  /** One more call of a limiter whose fields are right for the window it reads. */
  lemma CallKeeps(window: nat, calls: seq<Ledger.Call>, c: Ledger.Call, all: seq<Ledger.Call>, t: nat)
    requires window > 0 && KeepsBudget(window, calls, t) && all == calls + [c]
    requires c.decision.granted ==
             Grant(Ledger.GrantedIn(calls, Start(c.at, window), End(c.at, window)), c.requests, c.permits)
    ensures KeepsBudget(window, all, t)
    ensures Ledger.GrantedIn(all, Start(c.at, window), End(c.at, window)) ==
            Ledger.GrantedIn(calls, Start(c.at, window), End(c.at, window)) + c.decision.granted
  {
    BudgetAfterCall(window, calls, c, t);
    Ledger.AppendCall(calls, c, Start(c.at, window), End(c.at, window));
  }

  lemma FieldsStep(window: nat, times: seq<nat>, n: nat, state: LocalState, calls: seq<Ledger.Call>,
                   c: Ledger.Call, after: LocalState, all: seq<Ledger.Call>, t: nat)
    requires window > 0 && n < |times| && !Returns(window, times)
    requires FieldsKnow(window, times, n, state, calls) && KeepsBudget(window, calls, t)
    requires |calls| == n && forall k :: 0 <= k < n ==> calls[k].at == times[k]
    requires all == calls + [c] && c.at == times[n]
    requires c.decision.granted == Grant(LocalUsed(state, c.at, window), c.requests, c.permits)
    requires after == LocalState(window, Start(c.at, window), LocalUsed(state, c.at, window) + c.decision.granted)
    ensures FieldsKnow(window, times, n + 1, after, all) && KeepsBudget(window, all, t)
  {
    UsedIsGranted(window, times, n, state, calls);
    CallKeeps(window, calls, c, all, t);
  }

  lemma NoReturnStep(window: nat, times: seq<nat>, asked: seq<Request>, n: nat, t: nat)
    requires window > 0 && n < |times| == |asked| && !Returns(window, times)
    requires var (state, calls) := Calls(window, times, asked, n);
             FieldsKnow(window, times, n, state, calls) && KeepsBudget(window, calls, t)
    ensures var (after, all) := Calls(window, times, asked, n + 1);
            FieldsKnow(window, times, n + 1, after, all) && KeepsBudget(window, all, t)
  {
    var (state, calls) := Calls(window, times, asked, n);
    var (after, all) := Calls(window, times, asked, n + 1);
    CallsMatch(window, times, asked, n);
    LastCall(window, times, asked, n + 1);
    FieldsStep(window, times, n, state, calls, all[n], after, all, t);
  }

  lemma {:induction false} NoReturnKeeps(window: nat, times: seq<nat>, asked: seq<Request>, n: nat, t: nat)
    requires window > 0 && n <= |times| == |asked| && !Returns(window, times)
    ensures var (state, calls) := Calls(window, times, asked, n);
            FieldsKnow(window, times, n, state, calls) && KeepsBudget(window, calls, t)
  {
    if n > 0 {
      NoReturnKeeps(window, times, asked, n - 1, t);
      NoReturnStep(window, times, asked, n - 1, t);
    }
  }

  // ---- a window read again is granted its budget again ----

  /** Every caller asks for one permit of a budget of one. */
  predicate Ones(asked: seq<Request>) {
    forall i :: 0 <= i < |asked| ==> asked[i] == Request(1, 1)
  }

  lemma {:induction false} EarlierCallStays(window: nat, times: seq<nat>, asked: seq<Request>, b: nat, n: nat)
    requires window > 0 && b < n <= |times| == |asked|
    ensures |Calls(window, times, asked, n).1| == n && |Calls(window, times, asked, b + 1).1| == b + 1
    ensures Calls(window, times, asked, n).1[b] == Calls(window, times, asked, b + 1).1[b]
  {
    CallsMatch(window, times, asked, n);
    CallsMatch(window, times, asked, b + 1);
    if b + 1 < n {
      EarlierCallStays(window, times, asked, b, n - 1);
      LastCall(window, times, asked, n);
    }
  }

  /** Nothing is counted for a window other than the one read last. */
  lemma NothingUsed(window: nat, times: seq<nat>, asked: seq<Request>, n: nat)
    requires window > 0 && n < |times| == |asked|
    requires n > 0 ==> Start(times[n - 1], window) != Start(times[n], window)
    ensures LocalUsed(Calls(window, times, asked, n).0, times[n], window) == 0
  {
    if n > 0 {
      LastCall(window, times, asked, n);
    }
  }

  /** The first reading of a window after another one, or at all, is granted a permit. */
  lemma FirstIsGranted(window: nat, times: seq<nat>, asked: seq<Request>, b: nat)
    requires window > 0 && b < |times| == |asked| && Ones(asked)
    requires b > 0 ==> Start(times[b - 1], window) != Start(times[b], window)
    ensures var calls := AllCalls(window, times, asked);
            b < |calls| && calls[b].at == times[b] && calls[b].decision.granted == 1
  {
    NothingUsed(window, times, asked, b);
    LastCall(window, times, asked, b + 1);
    CallsMatch(window, times, asked, b);
    EarlierCallStays(window, times, asked, b, |times|);
  }

  /** Going back from a call, the first one of its uninterrupted stretch after `low`. */
  lemma {:induction false} StretchStart(window: nat, times: seq<nat>, low: nat, k: nat) returns (b: nat)
    requires window > 0 && low <= k < |times|
    ensures low <= b <= k && Start(times[b], window) == Start(times[k], window)
    ensures b == low || Start(times[b - 1], window) != Start(times[b], window)
    decreases k
  {
    b := k;
    if k > low && Start(times[k - 1], window) == Start(times[k], window) {
      b := StretchStart(window, times, low, k - 1);
    }
  }

  lemma {:induction false} GrantedOnce(calls: seq<Ledger.Call>, a: nat, lo: int, hi: int)
    requires a < |calls| && lo <= calls[a].at < hi
    ensures Ledger.GrantedIn(calls, lo, hi) >= calls[a].decision.granted
  {
    var n := |calls| - 1;
    if a < n {
      GrantedOnce(calls[..n], a, lo, hi);
    }
  }

  lemma {:induction false} GrantedTwice(calls: seq<Ledger.Call>, a: nat, b: nat, lo: int, hi: int)
    requires a < b < |calls|
    requires lo <= calls[a].at < hi && lo <= calls[b].at < hi
    ensures Ledger.GrantedIn(calls, lo, hi) >= calls[a].decision.granted + calls[b].decision.granted
  {
    var n := |calls| - 1;
    if b < n {
      GrantedTwice(calls[..n], a, b, lo, hi);
    } else {
      GrantedOnce(calls[..n], a, lo, hi);
    }
  }

  lemma OnesBudget(window: nat, times: seq<nat>, asked: seq<Request>, lo: int, hi: int)
    requires window > 0 && |times| == |asked| && Ones(asked)
    ensures Ledger.BudgetIn(AllCalls(window, times, asked), lo, hi) <= 1
  {
    CallsMatch(window, times, asked, |times|);
    Ledger.BudgetBound(AllCalls(window, times, asked), lo, hi, 1);
  }

  lemma ReturnOverruns(window: nat, times: seq<nat>, asked: seq<Request>, i: nat, j: nat, k: nat)
    requires window > 0 && |times| == |asked| && Ones(asked)
    requires ReturnsAt(window, times, i, j, k)
    ensures !KeepsBudget(window, AllCalls(window, times, asked), times[k])
  {
    var a := StretchStart(window, times, 0, i);
    var b := StretchStart(window, times, j, k);
    FirstIsGranted(window, times, asked, a);
    FirstIsGranted(window, times, asked, b);
    SameWindow(times[k], times[a], window);
    SameWindow(times[k], times[b], window);
    GrantedTwice(AllCalls(window, times, asked), a, b, Start(times[k], window), End(times[k], window));
    OnesBudget(window, times, asked, Start(times[k], window), End(times[k], window));
  }

  /**
   Exactly which readings are safe: whatever the callers ask for, every window stays within
   the largest budget brought to it, if and only if in the order of the lock no window is read
   again after another one has been read.
   */
  lemma LocalBudgetExactly(window: nat, times: seq<nat>)
    requires window > 0
    ensures (forall asked :: |asked| == |times| && Accepted(asked) ==> KeepsBudgets(window, times, asked))
            <==> !Returns(window, times)
  {
    if Returns(window, times) {
      var i: nat, j: nat, k: nat :| ReturnsAt(window, times, i, j, k);
      var ones := seq(|times|, _ => Request(1, 1));
      ReturnOverruns(window, times, ones, i, j, k);
      assert Accepted(ones) && !KeepsBudgets(window, times, ones);
    } else {
      forall asked | |asked| == |times| && Accepted(asked) ensures KeepsBudgets(window, times, asked) {
        forall t ensures KeepsBudget(window, AllCalls(window, times, asked), t) {
          NoReturnKeeps(window, times, asked, |times|, t);
        }
      }
    }
  }
}
