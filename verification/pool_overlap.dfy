/** Exactly which thresholds keep the layers of the pool apart. */
module PoolOverlap {
  import opened LayeredPool
  import opened Wrappers

  ghost predicate NeverOverlaps(ready: Layers, s: State) {
    forall steps, i: nat, j: nat ::
      IsRun(ready, s, steps) && i in After(ready, s, steps).started
      && i < |ready| && j < |ready| && ready[j] < ready[i] ==>
        j in After(ready, s, steps).counted
  }

  lemma {:induction false} Extend(ready: Layers, s: State, steps: seq<Step>, step: Step)
    requires IsRun(ready, s, steps) && Enabled(ready, After(ready, s, steps), step)
    ensures IsRun(ready, s, steps + [step])
    ensures After(ready, s, steps + [step]) == Apply(ready, After(ready, s, steps), step)
    decreases |steps|
  {
    if steps == [] {
      assert [step][1..] == [];
    } else {
      Extend(ready, Apply(ready, s, steps[0]), steps[1..], step);
      assert (steps + [step])[1..] == steps[1..] + [step];
    }
  }

  /** `a` and `b` are two workers the OS did start. */
  ghost predicate BothStarted(s: State, a: nat, b: nat) {
    && |s.threads| > 0 && a < Caller(s) && b < Caller(s) && a != b
    && s.threads[a].Starting? && s.threads[b].Starting?
  }

  /** Thread `a` has done the first `k` items alone while thread `b` has claimed nothing. */
  ghost predicate Solo(s: State, a: nat, b: nat, k: nat) {
    && a < |s.threads| && b < |s.threads| && a != b
    && s.threads[a].Ready? && s.threads[b].Ready?
    && s.lock == None && s.next == s.done == k
    && forall i :: i in s.counted ==> i < k
  }

  /** Thread `a` claims the next item, takes the lock and finds it may start. */
  lemma StartNext(ready: Layers, s: State, before: seq<Step>, a: nat) returns (steps: seq<Step>)
    requires IsRun(ready, s, before)
    requires var u := After(ready, s, before);
             a < |u.threads| && u.threads[a].Ready? && u.lock == None && u.next < |ready| && ready[u.next] <= u.done
    ensures IsRun(ready, s, steps)
    ensures var u := After(ready, s, before);
            After(ready, s, steps) == u.(next := u.next + 1, started := u.started + [u.next],
                                         threads := u.threads[a := Running(u.next)])
  {
    var u := After(ready, s, before);
    hide IsRun, After;
    Extend(ready, s, before, Claim(a));
    Extend(ready, s, before + [Claim(a)], Acquire(a));
    Extend(ready, s, before + [Claim(a)] + [Acquire(a)], Test(a));
    steps := before + [Claim(a)] + [Acquire(a)] + [Test(a)];
    assert u.threads[a := Claimed(u.next)][a := Testing(u.next)][a := Running(u.next)]
        == u.threads[a := Running(u.next)];
  }

  /** Thread `a` comes back from its item and counts it. */
  lemma FinishItem(ready: Layers, s: State, before: seq<Step>, a: nat) returns (steps: seq<Step>)
    requires IsRun(ready, s, before)
    requires var u := After(ready, s, before);
             a < |u.threads| && u.threads[a].Running? && u.lock == None
    ensures IsRun(ready, s, steps)
    ensures var u, t := After(ready, s, before), After(ready, s, steps);
            && t.threads == WakeAll(u.threads)[a := Ready] && t.lock == None && t.next == u.next
            && t.done == u.done + 1 && t.counted == u.counted + [u.threads[a].item]
  {
    var u := After(ready, s, before);
    hide IsRun, After;
    Extend(ready, s, before, Return(a, false));
    Extend(ready, s, before + [Return(a, false)], Acquire(a));
    Extend(ready, s, before + [Return(a, false)] + [Acquire(a)], Count(a));
    Extend(ready, s, before + [Return(a, false)] + [Acquire(a)] + [Count(a)], Notify(a));
    steps := before + [Return(a, false)] + [Acquire(a)] + [Count(a)] + [Notify(a)];
    var t := After(ready, s, steps);
    forall w | 0 <= w < |u.threads| ensures t.threads[w] == WakeAll(u.threads)[a := Ready][w] {
    }
  }

  lemma SoloItem(ready: Layers, s: State, before: seq<Step>, a: nat, b: nat, k: nat) returns (steps: seq<Step>)
    requires IsRun(ready, s, before) && Solo(After(ready, s, before), a, b, k)
    requires k < |ready| && ready[k] <= k
    ensures IsRun(ready, s, steps) && Solo(After(ready, s, steps), a, b, k + 1)
  {
    hide IsRun, After;
    var started := StartNext(ready, s, before, a);
    steps := FinishItem(ready, s, started, a);
  }

  lemma {:induction false} SoloRun(ready: Layers, s: State, a: nat, b: nat, k: nat) returns (steps: seq<Step>)
    requires Init(s) && WithinIndex(ready) && k <= |ready|
    requires BothStarted(s, a, b)
    ensures IsRun(ready, s, steps) && Solo(After(ready, s, steps), a, b, k)
  {
    if k == 0 {
      steps := [];
      Extend(ready, s, steps, SetUp(a, false));
      steps := steps + [SetUp(a, false)];
      Extend(ready, s, steps, SetUp(b, false));
      steps := steps + [SetUp(b, false)];
    } else {
      var before := SoloRun(ready, s, a, b, k - 1);
      steps := SoloItem(ready, s, before, a, b, k - 1);
    }
  }

  /** A layer whose threshold is below its first index can start beside the item in front of it. */
  lemma Overlap(ready: Layers, s: State, a: nat, b: nat, f: nat) returns (steps: seq<Step>)
    requires Init(s) && WithinIndex(ready)
    requires BothStarted(s, a, b)
    requires 0 < f < |ready| && ready[f] < f
    ensures IsRun(ready, s, steps)
    ensures f in After(ready, s, steps).started && f - 1 !in After(ready, s, steps).counted
  {
    var solo := SoloRun(ready, s, a, b, f - 1);
    hide IsRun, After;
    Extend(ready, s, solo, Claim(b));
    steps := StartNext(ready, s, solo + [Claim(b)], a);
  }

  lemma FirstWithThreshold(ready: Layers, i: nat) returns (f: nat)
    requires i < |ready| && NonDecreasing(ready)
    ensures f <= i && ready[f] == ready[i]
    ensures f > 0 ==> ready[f - 1] < ready[f]
  {
    f := i;
    while f > 0 && ready[f - 1] == ready[i]
      invariant f <= i && ready[f] == ready[i]
    {
      f := f - 1;
    }
  }

  /**
   * With two workers started, layers are kept apart in every run exactly when each
   * threshold is the first index of its layer: the count alone promises no more.
   */
  lemma NeverOverlapsIff(ready: Layers, s: State, a: nat, b: nat)
    requires NonDecreasing(ready) && WithinIndex(ready) && Init(s)
    requires BothStarted(s, a, b)
    ensures NeverOverlaps(ready, s) <==> FirstOfLayer(ready)
  {
    if FirstOfLayer(ready) {
      forall steps, i: nat, j: nat | IsRun(ready, s, steps)
        && i < |ready| && j < |ready| && ready[j] < ready[i]
        ensures i in After(ready, s, steps).started ==> j in After(ready, s, steps).counted
      {
        LayersDoNotOverlap(ready, s, steps, i, j);
      }
    } else {
      var i :| 0 <= i < |ready| && ready[ready[i]] != ready[i];
      var f := FirstWithThreshold(ready, i);
      var steps := Overlap(ready, s, a, b, f);
      assert !(f - 1 in After(ready, s, steps).counted);
    }
  }
}
