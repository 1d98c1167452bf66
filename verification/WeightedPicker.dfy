/** Weighted choice among operations with exclusions, and the execution of one reserved slot. */
module WeightedPicker {

  /** Weight of the operations below `upTo` that are not excluded. */
  function WeightBelow(weights: seq<nat>, excluded: seq<bool>, upTo: nat): nat
    requires |weights| == |excluded|
    requires upTo <= |weights|
  {
    if upTo == 0 then 0
    else WeightBelow(weights, excluded, upTo - 1) + if excluded[upTo - 1] then 0 else weights[upTo - 1]
  }

  /** The operation `i` owns the draws of one interval as long as its weight. */
  predicate Selects(weights: seq<nat>, excluded: seq<bool>, draw: nat, i: nat)
    requires |weights| == |excluded|
  {
    && i < |weights|
    && !excluded[i]
    && WeightBelow(weights, excluded, i) <= draw < WeightBelow(weights, excluded, i) + weights[i]
  }

  lemma {:induction false} WeightMonotone(weights: seq<nat>, excluded: seq<bool>, i: nat, j: nat)
    requires |weights| == |excluded|
    requires i <= j <= |weights|
    ensures WeightBelow(weights, excluded, i) <= WeightBelow(weights, excluded, j)
  {
    if i < j {
      WeightMonotone(weights, excluded, i, j - 1);
    }
  }

  /** The source's two loops; `intN` is the random source, asked once for the total. */
  method PickWeighted(weights: seq<nat>, excluded: seq<bool>, intN: nat -> nat) returns (index: nat, ok: bool)
    requires |weights| == |excluded|
    requires forall n: nat :: n > 0 ==> intN(n) < n
    ensures ok <==> WeightBelow(weights, excluded, |weights|) > 0
    ensures ok ==> Selects(weights, excluded, intN(WeightBelow(weights, excluded, |weights|)), index)
  {
    index, ok := 0, false;
    var totalWeight := 0;
    for i := 0 to |weights|
      invariant totalWeight == WeightBelow(weights, excluded, i)
    {
      if !excluded[i] {
        totalWeight := totalWeight + weights[i];
      }
    }
    if totalWeight == 0 {
      return;
    }
    var selected := intN(totalWeight);
    for i := 0 to |weights|
      invariant 0 <= selected
      invariant selected + WeightBelow(weights, excluded, i) == intN(totalWeight)
    {
      if excluded[i] {
        continue;
      }
      if selected < weights[i] {
        return i, true;
      }
      selected := selected - weights[i];
    }
    // Every draw below the total selects inside the loop: the last return is never reached.
    assert false;
  }

  lemma SelectionUnique(weights: seq<nat>, excluded: seq<bool>, draw: nat, i: nat, j: nat)
    requires |weights| == |excluded|
    requires Selects(weights, excluded, draw, i) && Selects(weights, excluded, draw, j)
    ensures i == j
  {
    if i < j {
      WeightMonotone(weights, excluded, i + 1, j);
    } else if j < i {
      WeightMonotone(weights, excluded, j + 1, i);
    }
  }

  lemma {:induction false} SelectionExists(weights: seq<nat>, excluded: seq<bool>, draw: nat, upTo: nat) returns (i: nat)
    requires |weights| == |excluded|
    requires upTo <= |weights|
    requires draw < WeightBelow(weights, excluded, upTo)
    ensures i < upTo && Selects(weights, excluded, draw, i)
  {
    if draw < WeightBelow(weights, excluded, upTo - 1) {
      i := SelectionExists(weights, excluded, draw, upTo - 1);
    } else {
      i := upTo - 1;
    }
  }

  /** How many of the draws below `upTo` select `i`. */
  function CountDraws(weights: seq<nat>, excluded: seq<bool>, i: nat, upTo: nat): nat
    requires |weights| == |excluded|
  {
    if upTo == 0 then 0
    else CountDraws(weights, excluded, i, upTo - 1) + if Selects(weights, excluded, upTo - 1, i) then 1 else 0
  }

  lemma {:induction false} CountInInterval(weights: seq<nat>, excluded: seq<bool>, i: nat, upTo: nat)
    requires |weights| == |excluded|
    requires i < |weights|
    ensures var lo := WeightBelow(weights, excluded, i);
            CountDraws(weights, excluded, i, upTo) ==
            if excluded[i] || upTo <= lo then 0 else if upTo <= lo + weights[i] then upTo - lo else weights[i]
  {
    if upTo > 0 {
      CountInInterval(weights, excluded, i, upTo - 1);
    }
  }

  /** Exact weights: of the equally likely draws, exactly `weights[i]` select `i`, none if it is excluded. */
  lemma ExactWeights(weights: seq<nat>, excluded: seq<bool>, i: nat)
    requires |weights| == |excluded|
    requires i < |weights|
    ensures CountDraws(weights, excluded, i, WeightBelow(weights, excluded, |weights|)) ==
            if excluded[i] then 0 else weights[i]
  {
    WeightMonotone(weights, excluded, i + 1, |weights|);
    CountInInterval(weights, excluded, i, WeightBelow(weights, excluded, |weights|));
  }

  // ---- one reserved slot ----

  predicate Distinct(s: seq<nat>) {
    forall i, j :: 0 <= i < j < |s| ==> s[i] != s[j]
  }

  predicate Below(s: seq<nat>, n: nat) {
    forall i :: 0 <= i < |s| ==> s[i] < n
  }

  function CountTrue(marks: seq<bool>): nat {
    if marks == [] then 0 else CountTrue(marks[..|marks| - 1]) + if marks[|marks| - 1] then 1 else 0
  }

  lemma {:induction false} MarkOne(marks: seq<bool>, i: nat)
    requires i < |marks| && !marks[i]
    ensures CountTrue(marks[i := true]) == CountTrue(marks) + 1
  {
    var n := |marks| - 1;
    if i == n {
      assert marks[i := true][..n] == marks[..n];
    } else {
      MarkOne(marks[..n], i);
      assert marks[i := true][..n] == marks[..n][i := true];
    }
  }

  /** Some place is unmarked exactly while the marks are fewer than the places. */
  lemma {:induction false} UnmarkedExists(marks: seq<bool>)
    ensures CountTrue(marks) <= |marks|
    ensures CountTrue(marks) < |marks| <==> exists i :: 0 <= i < |marks| && !marks[i]
  {
    if marks != [] {
      var init := marks[..|marks| - 1];
      UnmarkedExists(init);
      assert forall i :: 0 <= i < |init| ==> init[i] == marks[i];
    }
  }

  /** A mark for each operation already run. */
  function MarksOf(n: nat, order: seq<nat>): (marks: seq<bool>)
    ensures |marks| == n
    ensures forall i: nat :: i < n ==> (marks[i] <==> i in order)
  {
    seq(n, (i: nat) => i in order)
  }

  lemma MarkNext(n: nat, order: seq<nat>, index: nat)
    requires index < n
    ensures MarksOf(n, order + [index]) == MarksOf(n, order)[index := true]
  {
  }

  /** The marked places are exactly the elements of the sequence, one mark for each. */
  predicate Marks(marks: seq<bool>, order: seq<nat>) {
    CountTrue(marks) == |order| && marks == MarksOf(|marks|, order)
  }

  lemma {:induction false} NoMarks(marks: seq<bool>)
    requires forall i :: 0 <= i < |marks| ==> !marks[i]
    ensures Marks(marks, [])
  {
    if marks != [] {
      NoMarks(marks[..|marks| - 1]);
    }
  }

  /** While some operation has not run, a pick among the others finds positive weight. */
  lemma WeightLeft(weights: seq<nat>, marks: seq<bool>, order: seq<nat>)
    requires |weights| == |marks|
    requires forall i :: 0 <= i < |weights| ==> weights[i] >= 1
    requires Marks(marks, order) && |order| < |marks|
    ensures WeightBelow(weights, marks, |weights|) > 0
  {
    UnmarkedExists(marks);
    var free :| 0 <= free < |marks| && !marks[free];
    WeightMonotone(weights, marks, free + 1, |weights|);
  }

  /** Running one more operation extends the order and its mark; a full order holds every operation. */
  lemma OneMore(marks: seq<bool>, order: seq<nat>, index: nat)
    requires Marks(marks, order) && Below(order, |marks|) && Distinct(order)
    requires index < |marks| && !marks[index]
    ensures var all := order + [index];
            && Marks(marks[index := true], all) && Below(all, |marks|) && Distinct(all)
            && |all| <= |marks|
            && (|all| == |marks| ==> forall i: nat :: i < |marks| ==> i in all)
  {
    assert index !in order;
    MarkOne(marks, index);
    MarkNext(|marks|, order, index);
    UnmarkedExists(marks[index := true]);
  }

  /** The operation run at attempt `k` owns the draw of that attempt among those not yet run. */
  predicate PickedAt(weights: seq<nat>, slot: nat, intN: (nat, nat, nat) -> nat, order: seq<nat>, k: nat)
    requires k < |order|
  {
    var run := MarksOf(|weights|, order[..k]);
    Selects(weights, run, intN(slot, k, WeightBelow(weights, run, |weights|)), order[k])
  }

  /**
   What the execution of one slot does: it runs operations once each, every one owning its
   attempt's draw among those left, where all but the last reported an unavailable store
   value, and all operations if the last one reported it too.
   */
  predicate SlotRan(weights: seq<nat>, slot: nat, intN: (nat, nat, nat) -> nat, order: seq<nat>,
                    unavailable: (nat, nat, nat) -> bool) {
    && 1 <= |order| <= |weights|
    && Below(order, |weights|) && Distinct(order)
    && (forall k :: 0 <= k < |order| ==> PickedAt(weights, slot, intN, order, k))
    && (forall k :: 0 <= k < |order| - 1 ==> unavailable(slot, k, order[k]))
    && (unavailable(slot, |order| - 1, order[|order| - 1]) ==> |order| == |weights|)
    && (|order| == |weights| ==> forall i: nat :: i < |weights| ==> i in order)
  }

  /** So far every operation run owned its draw, reported an unavailable value and was excluded. */
  predicate SlotGoesOn(weights: seq<nat>, marks: seq<bool>, slot: nat, intN: (nat, nat, nat) -> nat, order: seq<nat>,
                       unavailable: (nat, nat, nat) -> bool) {
    && |marks| == |weights|
    && Marks(marks, order) && Below(order, |marks|) && Distinct(order)
    && (forall k :: 0 <= k < |order| ==> PickedAt(weights, slot, intN, order, k))
    && (forall k :: 0 <= k < |order| ==> unavailable(slot, k, order[k]))
    && (order != [] && |order| == |marks| ==> SlotRan(weights, slot, intN, order, unavailable))
  }

  lemma PickedEarlier(weights: seq<nat>, slot: nat, intN: (nat, nat, nat) -> nat, order: seq<nat>, index: nat, k: nat)
    requires k < |order| && PickedAt(weights, slot, intN, order, k)
    ensures PickedAt(weights, slot, intN, order + [index], k)
  {
    assert (order + [index])[..k] == order[..k];
  }

  lemma PickedStays(weights: seq<nat>, slot: nat, intN: (nat, nat, nat) -> nat, order: seq<nat>, index: nat)
    requires forall k :: 0 <= k < |order| ==> PickedAt(weights, slot, intN, order, k)
    requires var run := MarksOf(|weights|, order);
             Selects(weights, run, intN(slot, |order|, WeightBelow(weights, run, |weights|)), index)
    ensures forall k :: 0 <= k < |order + [index]| ==> PickedAt(weights, slot, intN, order + [index], k)
  {
    var all := order + [index];
    forall k | 0 <= k < |order| ensures PickedAt(weights, slot, intN, all, k) {
      PickedEarlier(weights, slot, intN, order, index, k);
    }
    assert all[..|order|] == order;
  }

  /** One more operation ends the slot, unless it is unavailable too and others are left. */
  lemma SlotEnds(weights: seq<nat>, marks: seq<bool>, slot: nat, intN: (nat, nat, nat) -> nat, order: seq<nat>, index: nat,
                 unavailable: (nat, nat, nat) -> bool)
    requires SlotGoesOn(weights, marks, slot, intN, order, unavailable)
    requires Selects(weights, marks, intN(slot, |order|, WeightBelow(weights, marks, |weights|)), index)
    ensures var all := order + [index];
            && |all| <= |marks|
            && (!unavailable(slot, |order|, index) ==> SlotRan(weights, slot, intN, all, unavailable))
            && (unavailable(slot, |order|, index) ==>
                  SlotGoesOn(weights, marks[index := true], slot, intN, all, unavailable))
  {
    OneMore(marks, order, index);
    PickedStays(weights, slot, intN, order, index);
  }

  /**
   `intN(slot, attempt, n)` is the random source, and `unavailable(slot, attempt, operation)`
   says whether that execution reported an unavailable store value; both may answer
   differently at each attempt.
   */
  method ExecuteReservedSlot(weights: seq<nat>, slot: nat, intN: (nat, nat, nat) -> nat,
                             unavailable: (nat, nat, nat) -> bool)
    returns (order: seq<nat>)
    requires |weights| >= 1
    requires forall i :: 0 <= i < |weights| ==> weights[i] >= 1
    requires forall attempt: nat, n: nat :: n > 0 ==> intN(slot, attempt, n) < n
    ensures SlotRan(weights, slot, intN, order, unavailable)
  {
    var excluded := new bool[|weights|](_ => false);
    order := [];
    NoMarks(excluded[..]);
    var attempts := 0;
    while attempts < |weights|
      invariant attempts <= |weights|
      invariant |order| == attempts
      invariant SlotGoesOn(weights, excluded[..], slot, intN, order, unavailable)
    {
      ghost var marks := excluded[..];
      WeightLeft(weights, marks, order);
      var index, ok := PickWeighted(weights, excluded[..], n => intN(slot, attempts, n));
      SlotEnds(weights, marks, slot, intN, order, index, unavailable);
      order := order + [index];
      if !unavailable(slot, attempts, index) {
        return;
      }
      excluded[index] := true;
      assert excluded[..] == marks[index := true];
      attempts := attempts + 1;
    }
  }
}
