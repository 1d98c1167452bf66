/**
 Deleting a scenario: stop its runner, delete its Redis keys, drop the finalizer, and
 give up on the cleanup after a grace period. Times are milliseconds.
 */
module Finalizer {
  import opened Results
  import opened RedisKeys

  const GRACE_PERIOD: nat := 5 * 60 * 1000
  const REQUEUE_INTERVAL: nat := 5 * 1000

  /** A Deployment under foreground deletion is still found until its Pods are gone. */
  datatype Deployment = Absent | Running(controlled: bool) | Deleting(controlled: bool)

  /** `cleaned` and `abandoned` record how the finalizer went, if it did. */
  datatype World = World(
    now: nat, deletedAt: nat,
    deployment: Deployment, podsAlive: bool,
    keys: set<string>,
    finalizer: bool, cleaned: bool, abandoned: bool)

  datatype DeleteOutcome = DeleteOk | DeleteNotFound | DeleteFailed

  /** What the API server and Redis answer during one reconcile. */
  datatype Answers = Answers(
    getFails: bool, delete: DeleteOutcome,
    hasRedis: bool, scanFails: bool, del: Reply,
    updateOk: bool)

  datatype Outcome = Finished | Requeue(after: nat) | UpdateFailed

  predicate Expired(w: World) {
    w.now >= w.deletedAt + GRACE_PERIOD
  }

  predicate OwnKeys(scope: Scope, keys: set<string>) {
    exists name :: name in keys && MatchesCleanup(scope, name)
  }

  function WithoutOwn(scope: Scope, keys: set<string>): set<string> {
    set name | name in keys && !MatchesCleanup(scope, name)
  }

  // ---- what one reconcile comes to ----

  /** The reconcile found the Deployment gone and listed the keys. */
  predicate ReachesDel(scope: Scope, w: World, a: Answers) {
    && w.finalizer && !a.getFails && w.deployment.Absent?
    && a.hasRedis && Valid(scope) && !a.scanFails
  }

  /** DEL is only sent when there is something to delete. */
  predicate CleansUp(scope: Scope, w: World, a: Answers) {
    ReachesDel(scope, w, a) && (OwnKeys(scope, w.keys) ==> a.del.Delivered?)
  }

  predicate RequestsDelete(w: World, a: Answers) {
    w.finalizer && !a.getFails && !w.deployment.Absent? && w.deployment.controlled
  }

  function AfterReconcile(scope: Scope, w: World, a: Answers): World {
    var gone := w.finalizer && a.updateOk && (CleansUp(scope, w, a) || Expired(w));
    w.(
      deployment := if RequestsDelete(w, a) && a.delete.DeleteOk? then Deleting(true) else w.deployment,
      keys := if ReachesDel(scope, w, a) && !a.del.NotRun? then WithoutOwn(scope, w.keys) else w.keys,
      finalizer := w.finalizer && !gone,
      cleaned := w.cleaned || (gone && CleansUp(scope, w, a)),
      abandoned := w.abandoned || (gone && !CleansUp(scope, w, a)))
  }

  function OutcomeOf(scope: Scope, w: World, a: Answers): Outcome {
    if !w.finalizer then Finished
    else if CleansUp(scope, w, a) || Expired(w) then (if a.updateOk then Finished else UpdateFailed)
    else Requeue(REQUEUE_INTERVAL)
  }

  /** The Deployment after a reconcile: stopped exactly when it is found, controlled and may be deleted. */
  predicate RunnerStopped(w: World, a: Answers, after: World) {
    && (after.deployment != w.deployment <==>
          w.finalizer && !a.getFails && w.deployment == Running(true) && a.delete.DeleteOk?)
    && (after.deployment != w.deployment ==> after.deployment == Deleting(true))
  }

  /**
   All that one reconcile does: it stops the runner, deletes the own keys once the runner is
   gone, drops the finalizer after a cleanup or five minutes, whichever comes first, and until
   then comes back every five seconds.
   */
  ghost predicate Reconciled(scope: Scope, w: World, a: Answers, after: World, outcome: Outcome) {
    var listed := !a.getFails && w.deployment.Absent? && a.hasRedis && Valid(scope) && !a.scanFails;
    var clean := listed && (a.del.Delivered? || !(exists name :: name in w.keys && MatchesCleanup(scope, name)));
    var over := clean || w.now - w.deletedAt >= 300_000;
    && RunnerStopped(w, a, after)
    && after.now == w.now && after.deletedAt == w.deletedAt && after.podsAlive == w.podsAlive
    && (forall name :: name in after.keys <==>
          && name in w.keys
          && !(w.finalizer && listed && !a.del.NotRun? && MatchesCleanup(scope, name)))
    && (after.finalizer <==> w.finalizer && !(over && a.updateOk))
    && (after.cleaned <==> w.cleaned || (w.finalizer && !after.finalizer && clean))
    && (after.abandoned <==> w.abandoned || (w.finalizer && !after.finalizer && !clean))
    && (outcome == Finished <==> !after.finalizer)
    && (outcome == Requeue(5_000) <==> w.finalizer && !over)
  }

  lemma ReconcileExactly(scope: Scope, w: World, a: Answers)
    ensures Reconciled(scope, w, a, AfterReconcile(scope, w, a), OutcomeOf(scope, w, a))
  {
  }

  function AfterRetry(w: World, updateOk: bool): World {
    if Expired(w) && updateOk then w.(finalizer := false, abandoned := true) else w
  }

  lemma FoundAreOwn(scope: Scope, keys: set<string>, found: seq<string>)
    requires forall name :: name in found <==>
               name in keys && exists j :: 0 <= j < |CleanupPatterns(scope)| && Glob(CleanupPatterns(scope)[j], name)
    ensures found == [] <==> !OwnKeys(scope, keys)
    ensures keys - (set name | name in found) == WithoutOwn(scope, keys)
    ensures !OwnKeys(scope, keys) ==> WithoutOwn(scope, keys) == keys
  {
    assert forall name :: name in found <==> name in keys && MatchesCleanup(scope, name);
    if found != [] {
      assert found[0] in found;
    }
  }

  lemma NothingOwnedStays(scope: Scope, keys: set<string>)
    ensures !OwnKeys(scope, keys) ==> WithoutOwn(scope, keys) == keys
  {
  }

  /** The controller's view of the cluster, and its deletion reconcile step by step. */
  class Cluster {
    var now: nat
    var deletedAt: nat
    var deployment: Deployment
    var podsAlive: bool
    var keys: set<string>
    var finalizer: bool
    var cleaned: bool
    var abandoned: bool

    constructor (w: World)
      ensures View() == w
    {
      now, deletedAt := w.now, w.deletedAt;
      deployment, podsAlive := w.deployment, w.podsAlive;
      keys := w.keys;
      finalizer, cleaned, abandoned := w.finalizer, w.cleaned, w.abandoned;
    }

    function View(): World
      reads this
    {
      World(now, deletedAt, deployment, podsAlive, keys, finalizer, cleaned, abandoned)
    }

    /** `scan` lists the keys matching a pattern, each at least once. */
    method ScanAll(patterns: seq<string>, scan: string -> seq<string>, scanFails: bool)
      returns (found: seq<string>, ok: bool)
      requires forall pattern, name :: name in scan(pattern) <==> name in keys && Glob(pattern, name)
      ensures ok ==> forall name :: name in found <==>
                name in keys && exists j :: 0 <= j < |patterns| && Glob(patterns[j], name)
      ensures ok <==> !scanFails || patterns == []
    {
      found := [];
      for i := 0 to |patterns|
        invariant forall name :: name in found <==> name in keys && exists j :: 0 <= j < i && Glob(patterns[j], name)
        invariant i > 0 ==> !scanFails
      {
        if scanFails {
          return found, false;
        }
        found := found + scan(patterns[i]);
      }
      ok := true;
    }

    method DeleteScenarioRedisKeys(scope: Scope, scan: string -> seq<string>, scanFails: bool, del: Reply)
      returns (ok: bool)
      requires forall pattern, name :: name in scan(pattern) <==> name in keys && Glob(pattern, name)
      modifies this`keys
      ensures ok <==> !scanFails && (OwnKeys(scope, old(keys)) ==> del.Delivered?)
      ensures keys == if !scanFails && !del.NotRun? then WithoutOwn(scope, old(keys)) else old(keys)
    {
      var found, listed := ScanAll(CleanupPatterns(scope), scan, scanFails);
      if !listed {
        return false;
      }
      FoundAreOwn(scope, keys, found);
      if |found| == 0 {
        return true;
      }
      if !del.NotRun? {
        keys := keys - set name | name in found;
      }
      return del.Delivered?;
    }

    method RemoveFinalizer(updateOk: bool) returns (outcome: Outcome)
      modifies this`finalizer
      ensures finalizer == (old(finalizer) && !updateOk)
      ensures outcome == if updateOk then Finished else UpdateFailed
    {
      if !updateOk {
        return UpdateFailed;
      }
      finalizer := false;
      return Finished;
    }

    method RetryOrAbandon(updateOk: bool) returns (outcome: Outcome)
      requires finalizer
      modifies this`finalizer, this`abandoned
      ensures View() == AfterRetry(old(View()), updateOk)
      ensures outcome == if !Expired(old(View())) then Requeue(REQUEUE_INTERVAL)
                         else if updateOk then Finished else UpdateFailed
    {
      if now >= deletedAt + GRACE_PERIOD {
        outcome := RemoveFinalizer(updateOk);
        if outcome == UpdateFailed {
          return;
        }
        abandoned := true;
        return;
      }
      return Requeue(REQUEUE_INTERVAL);
    }

    /** The part of the reconcile that runs once the Deployment is gone. */
    method CleanUp(scope: Scope, a: Answers, scan: string -> seq<string>) returns (outcome: Outcome)
      requires finalizer && !a.getFails && deployment.Absent?
      requires forall pattern, name :: name in scan(pattern) <==> name in keys && Glob(pattern, name)
      modifies this
      ensures View() == AfterReconcile(scope, old(View()), a)
      ensures outcome == OutcomeOf(scope, old(View()), a)
    {
      if !a.hasRedis {
        outcome := RetryOrAbandon(a.updateOk);
        return;
      }
      if !Valid(scope) {
        outcome := RetryOrAbandon(a.updateOk);
        return;
      }
      var ok := DeleteScenarioRedisKeys(scope, scan, a.scanFails, a.del);
      if !ok {
        outcome := RetryOrAbandon(a.updateOk);
        return;
      }
      NothingOwnedStays(scope, old(keys));
      outcome := RemoveFinalizer(a.updateOk);
      cleaned := cleaned || !finalizer;
    }

    /**
     A found Deployment that the scenario controls is put under foreground deletion; own keys
     are deleted once it is gone; the finalizer goes after a cleanup or five minutes, whichever
     comes first, and until then the reconcile comes back every five seconds.
     */
    method ReconcileDeletion(scope: Scope, a: Answers, scan: string -> seq<string>) returns (outcome: Outcome)
      requires forall pattern, name :: name in scan(pattern) <==> name in keys && Glob(pattern, name)
      modifies this
      ensures View() == AfterReconcile(scope, old(View()), a)
      ensures outcome == OutcomeOf(scope, old(View()), a)
      ensures Reconciled(scope, old(View()), a, View(), outcome)
    {
      ReconcileExactly(scope, View(), a);
      if !finalizer {
        return Finished;
      }
      if a.getFails {
        outcome := RetryOrAbandon(a.updateOk);
        return;
      }
      if !deployment.Absent? {
        if !deployment.controlled {
          outcome := RetryOrAbandon(a.updateOk);
          return;
        }
        if a.delete.DeleteFailed? {
          outcome := RetryOrAbandon(a.updateOk);
          return;
        }
        if a.delete.DeleteOk? {
          deployment := Deleting(deployment.controlled);
        }
        outcome := RetryOrAbandon(a.updateOk);
        return;
      }
      outcome := CleanUp(scope, a, scan);
    }
  }

  // ---- runs of the cluster around a scenario that is being deleted ----

  /**
   Write: a Pod of scope `t` writes a key; Pods of the deleted scenario only while alive.
   LeaveInBackground: the Deployment is deleted with background propagation, as suspending
   a scenario does, so its Pods may outlive it.
   */
  datatype Step =
    | Tick(to: nat)
    | Write(t: Scope, k: Key)
    | Forget(name: string)
    | PodsStop
    | PodsStart
    | DeploymentGone
    | LeaveInBackground
    | Reconcile(answers: Answers)

  function Next(scope: Scope, w: World, step: Step): World {
    match step
    case Tick(to) => w.(now := Max(w.now, to))
    case Write(t, k) =>
      if Valid(t) && (t == scope ==> w.podsAlive) then w.(keys := w.keys + {Render(t, k)}) else w
    case Forget(name) => w.(keys := w.keys - {name})
    case PodsStop => if w.deployment.Deleting? || w.deployment.Absent? then w.(podsAlive := false) else w
    case PodsStart => if w.deployment.Running? then w.(podsAlive := true) else w
    case DeploymentGone => if w.deployment.Deleting? && !w.podsAlive then w.(deployment := Absent) else w
    case LeaveInBackground => w.(deployment := Absent)
    case Reconcile(answers) => AfterReconcile(scope, w, answers)
  }

  function Run(scope: Scope, start: World, steps: seq<Step>): World {
    if steps == [] then start
    else Next(scope, Run(scope, start, steps[..|steps| - 1]), steps[|steps| - 1])
  }

  lemma RunExtends(scope: Scope, start: World, prior: seq<Step>, step: Step)
    ensures Run(scope, start, prior + [step]) == Next(scope, Run(scope, start, prior), step)
  {
    assert (prior + [step])[..|prior|] == prior;
  }

  /** In every run a reconcile stops exactly the runner it finds, controls and may delete. */
  lemma StopsExactly(scope: Scope, start: World, prior: seq<Step>, a: Answers)
    ensures var w, after := Run(scope, start, prior), Run(scope, start, prior + [Reconcile(a)]);
            RunnerStopped(w, a, after) && after.podsAlive == w.podsAlive && after.now == w.now
  {
    ReconcileExactly(scope, Run(scope, start, prior), a);
    RunExtends(scope, start, prior, Reconcile(a));
  }

  /** Answers of a cluster and a Redis that work. */
  predicate Working(a: Answers) {
    !a.getFails && a.delete.DeleteOk? && a.hasRedis && !a.scanFails && a.del.Delivered? && a.updateOk
  }

  /**
   Normal progress: from any reachable state within the grace period whose runner is found and
   controlled, a working reconcile, the end of the Pods and of the Deployment and another
   working reconcile end the deletion: the finalizer is gone after a cleanup, the own keys are
   gone, and every other key is still there.
   */
  lemma NormalProgress(scope: Scope, start: World, prior: seq<Step>, a: Answers, b: Answers, name: string)
    requires Valid(scope) && Working(a) && Working(b)
    requires Run(scope, start, prior).finalizer && Run(scope, start, prior).deployment == Running(true)
    requires Run(scope, start, prior).now < Run(scope, start, prior).deletedAt + 300_000
    ensures var w := Run(scope, start, prior);
            var end := Run(scope, start, prior + [Reconcile(a)] + [PodsStop] + [DeploymentGone] + [Reconcile(b)]);
            && !end.finalizer && end.cleaned && end.abandoned == w.abandoned
            && end.deployment.Absent? && !end.podsAlive
            && (name in end.keys <==> name in w.keys && !MatchesCleanup(scope, name))
  {
    var stopped := prior + [Reconcile(a)] + [PodsStop];
    var gone := stopped + [DeploymentGone];
    StopsExactly(scope, start, prior, a);
    RunExtends(scope, start, prior, Reconcile(a));
    RunExtends(scope, start, prior + [Reconcile(a)], PodsStop);
    RunExtends(scope, start, stopped, DeploymentGone);
    RunExtends(scope, start, gone, Reconcile(b));
  }

  /** What goes on around the controller: the Pods of a found runner write, and keys expire. */
  lemma KeysComeAndGo(scope: Scope, w: World, k: Key, name: string)
    requires Valid(scope) && w.deployment.Running?
    ensures var writing := Run(scope, w, [] + [PodsStart] + [Write(scope, k)]);
            writing.podsAlive && writing.keys == w.keys + {Render(scope, k)}
    ensures Run(scope, w, [] + [Forget(name)]).keys == w.keys - {name}
  {
    RunExtends(scope, w, [], PodsStart);
    RunExtends(scope, w, [] + [PodsStart], Write(scope, k));
    RunExtends(scope, w, [], Forget(name));
  }

  /** A scenario just marked for deletion, whose runner is either found or stopped. */
  predicate Initial(w: World) {
    && w.finalizer && !w.cleaned && !w.abandoned
    && w.deletedAt <= w.now
    && (w.deployment.Absent? ==> !w.podsAlive)
  }

  predicate Stopped(scope: Scope, w: World) {
    && (w.deployment.Absent? ==> !w.podsAlive)
    && (w.cleaned ==> w.deployment.Absent? && !OwnKeys(scope, w.keys))
    && (!w.finalizer ==> w.cleaned || w.abandoned)
  }

  lemma StoppedStep(scope: Scope, w: World, step: Step)
    requires Valid(scope) && GlobFreeScope(scope)
    requires Stopped(scope, w)
    requires !step.LeaveInBackground?
    ensures Stopped(scope, Next(scope, w, step))
  {
    if step.Write? && Valid(step.t) {
      CleanupExact(scope, step.t, step.k);
    }
  }

  /**
   Safety: in every run where the Deployment leaves only through the foreground delete, once
   the finalizer has been removed after a cleanup, no key of that UID exists in any later state.
   */
  lemma {:induction false} CleanedStaysClean(scope: Scope, start: World, steps: seq<Step>)
    requires Valid(scope) && GlobFreeScope(scope)
    requires Initial(start)
    requires forall i :: 0 <= i < |steps| ==> !steps[i].LeaveInBackground?
    ensures var w := Run(scope, start, steps);
            && Stopped(scope, w)
            && (!w.finalizer && !w.abandoned ==> forall k :: Render(scope, k) !in w.keys)
  {
    if steps != [] {
      CleanedStaysClean(scope, start, steps[..|steps| - 1]);
      StoppedStep(scope, Run(scope, start, steps[..|steps| - 1]), steps[|steps| - 1]);
    }
    forall k: Key
      ensures MatchesCleanup(scope, Render(scope, k))
    {
      CleanupExact(scope, scope, k);
    }
  }

  /**
   A background deletion is what the theorem has to exclude: the Pods outlive the
   Deployment, and write a key after the cleanup.
   */
  lemma BackgroundDeletionLeaks(scope: Scope, k: Key, start: World) returns (steps: seq<Step>)
    requires Valid(scope)
    requires Initial(start) && start.podsAlive && start.keys == {}
    ensures var w := Run(scope, start, steps);
            !w.finalizer && w.cleaned && !w.abandoned && Render(scope, k) in w.keys
  {
    var a := Answers(false, DeleteOk, true, false, Delivered, true);
    steps := [LeaveInBackground, Reconcile(a), Write(scope, k)];
    assert steps[..2] == [LeaveInBackground, Reconcile(a)];
    assert steps[..2][..1] == [LeaveInBackground];
    assert steps[..2][..1][..0] == [];
    var w1 := Next(scope, start, LeaveInBackground);
    assert Run(scope, start, steps[..2][..1]) == w1;
    assert Run(scope, start, steps[..2]) == AfterReconcile(scope, w1, a);
  }

  ghost predicate StaysClean(scope: Scope, w: World) {
    forall steps: seq<Step> :: !OwnKeys(scope, Run(scope, w, steps).keys)
  }

  predicate NoWriterLeft(scope: Scope, w: World) {
    w.deployment.Absent? && !w.podsAlive && !OwnKeys(scope, w.keys)
  }

  lemma {:induction false} NoWriterRun(scope: Scope, w: World, steps: seq<Step>)
    requires Valid(scope) && GlobFreeScope(scope)
    requires NoWriterLeft(scope, w)
    ensures NoWriterLeft(scope, Run(scope, w, steps))
  {
    if steps != [] {
      var last := steps[|steps| - 1];
      NoWriterRun(scope, w, steps[..|steps| - 1]);
      if last.Write? && Valid(last.t) {
        CleanupExact(scope, last.t, last.k);
      }
    }
  }

  /** A Pod that is still alive can write a key at any time. */
  lemma WriterLeft(scope: Scope, w: World)
    requires Valid(scope) && GlobFreeScope(scope)
    requires w.podsAlive
    ensures !StaysClean(scope, w)
  {
    var steps := [Write(scope, RateLimitKey)];
    assert steps[..0] == [];
    CleanupExact(scope, scope, RateLimitKey);
    assert Run(scope, w, steps) == Next(scope, w, steps[0]);
    assert Render(scope, RateLimitKey) in Run(scope, w, steps).keys;
    assert OwnKeys(scope, Run(scope, w, steps).keys);
  }

  /**
   Exactly when a cleanup lasts: in every run, background deletes included, after the
   reconcile that cleaned up and removed the finalizer no key of that UID exists in any later
   state if and only if no Pod of the scenario was alive at that reconcile.
   */
  lemma CleanupLastsExactly(scope: Scope, start: World, prior: seq<Step>, a: Answers)
    requires Valid(scope) && GlobFreeScope(scope)
    requires CleansUp(scope, Run(scope, start, prior), a) && a.updateOk
    ensures var cleaned := Run(scope, start, prior + [Reconcile(a)]);
            && cleaned.cleaned && !cleaned.finalizer
            && (StaysClean(scope, cleaned) <==> !Run(scope, start, prior).podsAlive)
  {
    var w, cleaned := Run(scope, start, prior), Run(scope, start, prior + [Reconcile(a)]);
    assert (prior + [Reconcile(a)])[..|prior|] == prior;
    assert cleaned == AfterReconcile(scope, w, a);
    if w.podsAlive {
      WriterLeft(scope, cleaned);
    } else {
      forall steps: seq<Step> ensures !OwnKeys(scope, Run(scope, cleaned, steps).keys) {
        NoWriterRun(scope, cleaned, steps);
      }
    }
  }

  /** Keys are deleted only after the Deployment was found gone, and never those of another scope. */
  lemma OnlyOwnKeysOnlyWhenGone(scope: Scope, w: World, a: Answers, t: Scope, k: Key)
    requires Valid(scope) && GlobFreeScope(scope) && Valid(t)
    ensures var after := AfterReconcile(scope, w, a);
            && (after.keys != w.keys ==> w.finalizer && w.deployment.Absent? && !a.getFails)
            && after.keys <= w.keys
            && (Render(t, k) in w.keys && t != scope ==> Render(t, k) in after.keys)
  {
    CleanupExact(scope, t, k);
  }

  /** The reconcile at step `i` of the run is the one that lets the object go. */
  predicate Ends(scope: Scope, start: World, steps: seq<Step>, i: nat)
    requires i < |steps|
  {
    var w := Run(scope, start, steps[..i]);
    && steps[i].Reconcile?
    && steps[i].answers.updateOk
    && (CleansUp(scope, w, steps[i].answers) || Expired(w))
  }

  ghost predicate SomeEnds(scope: Scope, start: World, steps: seq<Step>) {
    exists i: nat :: i < |steps| && Ends(scope, start, steps, i)
  }

  lemma EndsAppend(scope: Scope, start: World, steps: seq<Step>, last: Step)
    ensures SomeEnds(scope, start, steps + [last]) <==>
            || SomeEnds(scope, start, steps)
            || Ends(scope, start, steps + [last], |steps|)
  {
    var all := steps + [last];
    forall i: nat | i < |steps|
      ensures Ends(scope, start, all, i) <==> Ends(scope, start, steps, i)
    {
      assert all[..i] == steps[..i];
    }
  }

  lemma GoneAfter(scope: Scope, w: World, step: Step)
    ensures !Next(scope, w, step).finalizer <==>
            || !w.finalizer
            || (step.Reconcile? && step.answers.updateOk && (CleansUp(scope, w, step.answers) || Expired(w)))
  {
  }

  /**
   Progress: in every run, the finalizer is gone if and only if some reconcile had a working
   update and either cleaned up or ran at or after the end of the grace period; so any one
   reconcile from then on is enough, on every branch.
   */
  lemma {:induction false} FinalizerGoneExactlyWhen(scope: Scope, start: World, steps: seq<Step>)
    requires start.finalizer
    ensures !Run(scope, start, steps).finalizer <==> SomeEnds(scope, start, steps)
  {
    if steps != [] {
      var prior, last := steps[..|steps| - 1], steps[|steps| - 1];
      FinalizerGoneExactlyWhen(scope, start, prior);
      assert prior + [last] == steps;
      EndsAppend(scope, start, prior, last);
      GoneAfter(scope, Run(scope, start, prior), last);
    }
  }
}
