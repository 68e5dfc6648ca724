/** The layered pool never deadlocks, always ends, and has then run every item exactly once. */
module PoolCompletion {
  import opened LayeredPool
  import opened Wrappers

  // ── Progress ──────────────────────────────────────────────────────────

  ghost predicate Final(s: State) {
    |s.threads| > 0 && s.threads[Caller(s)].Exited?
  }

  /** The thread at `w` can act now, the lock aside. */
  predicate Moves(p: Phase) {
    p.Starting? || p.Ready? || Locks(p) || p.Running? || p.Notifying?
  }

  lemma SmallestUncounted(s: State, k: nat) returns (m: nat)
    requires k !in s.counted
    ensures m <= k && m !in s.counted && forall j: nat :: j < m ==> j in s.counted
  {
    m := 0;
    while m in s.counted
      invariant m <= k
      invariant forall j: nat :: j < m ==> j in s.counted
      decreases k - m
    {
      m := m + 1;
    }
  }

  lemma MoverEnabled(ready: Layers, s: State, w: nat) returns (step: Step)
    requires Inv(ready, s) && w < |s.threads| && Moves(s.threads[w])
    ensures Enabled(ready, s, step)
  {
    match s.threads[w]
    case Starting => step := SetUp(w, false);
    case Ready => step := Claim(w);
    case Testing(i) =>
      assert HeldBy(s, i, w);
      step := Test(w);
    case Parking(_) => step := Wait(w);
    case Counting(_, _) => step := Count(w);
    case Running(_) => step := Return(w, false);
    case Notifying(_) => step := Notify(w);
  }

  /** Not every thread can be asleep: the smallest uncounted item's thread has nothing to wait for. */
  lemma NotAllAsleep(ready: Layers, s: State, w: nat)
    requires Inv(ready, s) && WithinIndex(ready)
    requires w < |s.threads| && s.threads[w].Waiting?
    ensures exists v: nat :: v < |s.threads| &&
              (s.threads[v].Notifying? || (Holds(s.threads[v]) && !s.threads[v].Waiting?))
  {
    assert HeldBy(s, s.threads[w].item, w);
    var m := SmallestUncounted(s, s.threads[w].item);
    assert Held(s, m);
    var v: nat :| HeldBy(s, m, v);
    CoversBelow(s.counted, m);
  }

  /** Whatever has happened so far, unless the calling thread is done some step is possible. */
  lemma SomeStep(ready: Layers, s: State) returns (step: Step)
    requires Inv(ready, s) && WithinIndex(ready) && !Final(s)
    ensures Enabled(ready, s, step)
  {
    if s.lock.Some? {
      step := MoverEnabled(ready, s, s.lock.value);
    } else if w: nat :| w < |s.threads| && Moves(s.threads[w]) {
      step := MoverEnabled(ready, s, w);
    } else if w: nat :| w < |s.threads| && (s.threads[w].Claimed? || s.threads[w].Woken? || s.threads[w].Finishing?) {
      step := Acquire(w);
    } else {
      if w: nat :| w < |s.threads| && s.threads[w].Waiting? {
        NotAllAsleep(ready, s, w);
        assert false;
      }
      step := Join;
    }
  }

  // ── Termination ───────────────────────────────────────────────────────

  /** What a thread in phase `p` may still do, with `n` threads to wake per notification. */
  function Weight(p: Phase, n: nat): nat {
    match p
    case Refused => 0
    case Exited => 0
    case Dead => 0
    case Ready => 1
    case Starting => 2
    case Parked => 3
    case Notifying(_) => 3 * n + 2
    case Counting(_, _) => 3 * n + 3
    case Finishing(_, _) => 3 * n + 4
    case Running(_) => 3 * n + 5
    case Waiting(_) => 3 * n + 6
    case Parking(_) => 3 * n + 7
    case Testing(_) => 3 * n + 8
    case Woken(_) => 3 * n + 9
    case Claimed(_) => 3 * n + 9
  }

  function Weights(threads: seq<Phase>, n: nat): nat {
    if threads == [] then 0 else Weight(threads[0], n) + Weights(threads[1..], n)
  }

  lemma {:induction false} WeightsUpdate(threads: seq<Phase>, n: nat, w: nat, p: Phase)
    requires w < |threads|
    ensures Weights(threads[w := p], n) == Weights(threads, n) - Weight(threads[w], n) + Weight(p, n)
  {
    if w == 0 {
      assert threads[w := p][1..] == threads[1..];
    } else {
      WeightsUpdate(threads[1..], n, w - 1, p);
      assert threads[w := p][1..] == threads[1..][w - 1 := p];
    }
  }

  lemma {:induction false} WeightsWake(threads: seq<Phase>, n: nat)
    ensures Weights(WakeAll(threads), n) <= Weights(threads, n) + 3 * |threads|
  {
    if threads != [] {
      WeightsWake(threads[1..], n);
      assert WakeAll(threads)[1..] == WakeAll(threads[1..]);
    }
  }

  /** An upper bound on the steps that are left. */
  function Measure(ready: Layers, s: State): nat {
    var n := |s.threads|;
    (if s.next < |ready| then |ready| - s.next else 0) * (3 * n + 9) + Weights(s.threads, n)
  }

  lemma PhaseDown(ready: Layers, s: State, t: State, w: nat, p: Phase)
    requires w < |s.threads| && t.next == s.next && t.threads == s.threads[w := p]
    requires Weight(p, |s.threads|) < Weight(s.threads[w], |s.threads|)
    ensures Measure(ready, t) < Measure(ready, s)
  {
    WeightsUpdate(s.threads, |s.threads|, w, p);
  }

  lemma ClaimDown(ready: Layers, s: State, w: nat)
    requires Enabled(ready, s, Claim(w))
    ensures Measure(ready, Apply(ready, s, Claim(w))) < Measure(ready, s)
  {
    var n, t := |s.threads|, Apply(ready, s, Claim(w));
    WeightsUpdate(s.threads, n, w, t.threads[w]);
    if s.next < |ready| {
      var left := |ready| - s.next;
      assert (left - 1) * (3 * n + 9) == left * (3 * n + 9) - (3 * n + 9);
    }
  }

  lemma NotifyDown(ready: Layers, s: State, w: nat)
    requires Enabled(ready, s, Notify(w))
    ensures Measure(ready, Apply(ready, s, Notify(w))) < Measure(ready, s)
  {
    var n := |s.threads|;
    WeightsUpdate(WakeAll(s.threads), n, w, Apply(ready, s, Notify(w)).threads[w]);
    WeightsWake(s.threads, n);
  }

  lemma MeasureStep(ready: Layers, s: State, step: Step)
    requires Enabled(ready, s, step)
    ensures Measure(ready, Apply(ready, s, step)) < Measure(ready, s)
  {
    var t := Apply(ready, s, step);
    match step
    case Claim(w) => ClaimDown(ready, s, w);
    case Notify(w) => NotifyDown(ready, s, w);
    case Join => PhaseDown(ready, s, t, Caller(s), t.threads[Caller(s)]);
    case SetUp(w, _) => PhaseDown(ready, s, t, w, t.threads[w]);
    case Acquire(w) => PhaseDown(ready, s, t, w, t.threads[w]);
    case Test(w) => PhaseDown(ready, s, t, w, t.threads[w]);
    case Wait(w) => PhaseDown(ready, s, t, w, t.threads[w]);
    case Return(w, _) => PhaseDown(ready, s, t, w, t.threads[w]);
    case Count(w) => PhaseDown(ready, s, t, w, t.threads[w]);
  }

  /** Every run is finite, and this long at most: no schedule keeps the pool busy for ever. */
  lemma {:induction false} RunLength(ready: Layers, s: State, steps: seq<Step>)
    requires IsRun(ready, s, steps)
    ensures |steps| + Measure(ready, After(ready, s, steps)) <= Measure(ready, s)
    decreases |steps|
  {
    if steps != [] {
      MeasureStep(ready, s, steps[0]);
      RunLength(ready, Apply(ready, s, steps[0]), steps[1..]);
    }
  }

  // ── Completion ────────────────────────────────────────────────────────

  /** Each item was started once and counted once. */
  ghost predicate AllDone(ready: Layers, s: State) {
    && |s.counted| == |s.started| == |ready|
    && Distinct(s.counted) && Distinct(s.started)
    && (forall i: nat :: i in s.counted <==> i < |ready|)
    && (forall i: nat :: i in s.started <==> i < |ready|)
  }

  lemma FinalIsAllDone(ready: Layers, s: State)
    requires Inv(ready, s) && Final(s)
    ensures AllDone(ready, s)
  {
    forall i: nat, w: nat ensures !HeldBy(s, i, w) && !StartedBy(s, i, w) {
      if w < |s.threads| {
        assert w < Caller(s) ==> Gone(s.threads[w]);
      }
    }
    forall i: nat | i < |ready| ensures i in s.counted {
      assert s.next >= |ready|;
      assert !Held(s, i);
    }
    Pigeonhole(s.counted, |ready|);
    CoversBelow(s.counted, |ready|);
    Pigeonhole(s.started, |ready|);
    CoversBelow(s.started, |ready|);
  }

  /** No run gets stuck: one that can go no further has finished every item exactly once. */
  ghost predicate AlwaysCompletes(ready: Layers, s: State) {
    forall steps :: IsRun(ready, s, steps) ==>
      var t := After(ready, s, steps);
      (forall step :: !Enabled(ready, t, step)) ==> Final(t) && AllDone(ready, t)
  }

  lemma Completes(ready: Layers, s: State)
    requires WithinIndex(ready) && Init(s)
    ensures AlwaysCompletes(ready, s)
  {
    forall steps | IsRun(ready, s, steps)
      ensures var t := After(ready, s, steps);
              (forall step :: !Enabled(ready, t, step)) ==> Final(t) && AllDone(ready, t)
    {
      var t := After(ready, s, steps);
      InitInv(ready, s);
      RunInv(ready, s, steps);
      if Final(t) {
        FinalIsAllDone(ready, t);
      } else {
        var step := SomeStep(ready, t);
      }
    }
  }

  /** An item that waits for more than its index is never started, nor any item behind it. */
  ghost predicate NoneFrom(s: State, i: nat) {
    forall k :: k in s.started ==> k < i
  }

  lemma NoneFromStep(ready: Layers, s: State, step: Step, i: nat)
    requires Inv(ready, s) && NoneFrom(s, i) && Enabled(ready, s, step)
    requires NonDecreasing(ready) && i < |ready| && ready[i] > i
    ensures NoneFrom(Apply(ready, s, step), i)
  {
    Pigeonhole(s.counted, i);
    if step.Test? && s.threads[step.w].item > i {
      assert ready[i] <= ready[s.threads[step.w].item];
    }
  }

  lemma {:induction false} RunNoneFrom(ready: Layers, s: State, steps: seq<Step>, i: nat)
    requires Inv(ready, s) && NoneFrom(s, i) && IsRun(ready, s, steps)
    requires NonDecreasing(ready) && i < |ready| && ready[i] > i
    ensures NoneFrom(After(ready, s, steps), i)
    decreases |steps|
  {
    if steps != [] {
      InvStep(ready, s, steps[0]);
      NoneFromStep(ready, s, steps[0], i);
      RunNoneFrom(ready, Apply(ready, s, steps[0]), steps[1..], i);
    }
  }

  /** Every run can be carried on until nothing is enabled. */
  lemma {:induction false} MaximalRun(ready: Layers, s: State) returns (steps: seq<Step>)
    ensures IsRun(ready, s, steps)
    ensures forall step :: !Enabled(ready, After(ready, s, steps), step)
    decreases Measure(ready, s)
  {
    if step :| Enabled(ready, s, step) {
      MeasureStep(ready, s, step);
      var rest := MaximalRun(ready, Apply(ready, s, step));
      steps := [step] + rest;
      assert steps[1..] == rest;
    } else {
      steps := [];
    }
  }

  /**
   * Exactly which `ready_after` the pool completes on, for any number of workers
   * of which any number start: those where no item waits for more than its index.
   */
  lemma CompletesIff(ready: Layers, s: State)
    requires NonDecreasing(ready) && Init(s)
    ensures AlwaysCompletes(ready, s) <==> WithinIndex(ready)
  {
    if WithinIndex(ready) {
      Completes(ready, s);
    } else {
      var i :| 0 <= i < |ready| && ready[i] > i;
      InitInv(ready, s);
      var steps := MaximalRun(ready, s);
      RunNoneFrom(ready, s, steps, i);
      assert i !in After(ready, s, steps).started;
    }
  }
}
