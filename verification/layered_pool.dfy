/**
 * The layered worker pool of `for_each_layered`, as a transition system.
 *
 * Threads `0 .. |threads| - 1` are the spawned workers and the last one is the
 * calling thread, which drains what is left once every worker has been joined.
 * One step is one atomic action of one thread: the counter's `fetch_add`, taking
 * or releasing the mutex, one test of the wait loop, entering the condition
 * variable, the item's work returning or unwinding, and `notify_all`.
 */
module LayeredPool {
  import opened Wrappers

  /** Where a thread stands in the drain loop. */
  datatype Phase =
    | Refused                               // the OS would not spawn it
    | Parked                                // the calling thread, joining the workers
    | Starting                              // about to run `setup`
    | Ready                                 // about to claim an index
    | Claimed(item: nat)                    // about to lock the counter
    | Testing(item: nat)                    // holds the lock, about to test `done`
    | Parking(item: nat)                    // holds the lock, the test has failed
    | Waiting(item: nat)                    // asleep on the condition variable
    | Woken(item: nat)                      // notified, about to take the lock again
    | Running(item: nat)                    // inside `work`
    | Finishing(item: nat, panicked: bool)  // dropping `Finish`, about to lock
    | Counting(item: nat, panicked: bool)   // holds the lock, about to increment
    | Notifying(panicked: bool)             // has released the lock, about to notify
    | Exited                                // saw an index past the end
    | Dead                                  // unwound by a panic

  /** `started` and `counted` are histories: the items in the order they began and were counted. */
  datatype State = State(
    next: nat,
    done: nat,
    lock: Option<nat>,
    threads: seq<Phase>,
    started: seq<nat>,
    counted: seq<nat>)

  datatype Step =
    | Join
    | SetUp(w: nat, panics: bool)
    | Claim(w: nat)
    | Acquire(w: nat)
    | Test(w: nat)
    | Wait(w: nat)
    | Return(w: nat, panics: bool)
    | Count(w: nat)
    | Notify(w: nat)

  type Layers = seq<nat>

  ghost predicate NonDecreasing(ready: Layers) {
    forall i, j :: 0 <= i < j < |ready| ==> ready[i] <= ready[j]
  }

  /** No item waits for more items than come before it. */
  ghost predicate WithinIndex(ready: Layers) {
    forall i :: 0 <= i < |ready| ==> ready[i] <= i
  }

  /** Every item waits for exactly the items in front of its own layer. */
  ghost predicate FirstOfLayer(ready: Layers) {
    && WithinIndex(ready)
    && forall i :: 0 <= i < |ready| ==> ready[ready[i]] == ready[i]
  }

  predicate Gone(p: Phase) {
    p.Refused? || p.Exited? || p.Dead?
  }

  function Caller(s: State): (c: nat)
    requires |s.threads| > 0
  {
    |s.threads| - 1
  }

  /** Any subset of the workers started; nothing is claimed. */
  ghost predicate Init(s: State) {
    && s.next == s.done == 0 && s.lock == None
    && s.started == s.counted == []
    && |s.threads| > 0
    && s.threads[Caller(s)] == Parked
    && forall w :: 0 <= w < Caller(s) ==> s.threads[w].Refused? || s.threads[w].Starting?
  }

  /** The calling thread's own drain is assumed not to panic: such a panic leaves the function. */
  predicate Enabled(ready: Layers, s: State, step: Step) {
    && |s.threads| > 0
    && match step
       case Join =>
         && s.threads[Caller(s)] == Parked
         && forall w :: 0 <= w < Caller(s) ==> Gone(s.threads[w])
       case SetUp(w, panics) =>
         w < |s.threads| && s.threads[w].Starting? && (panics ==> w < Caller(s))
       case Claim(w) => w < |s.threads| && s.threads[w].Ready?
       case Acquire(w) =>
         && w < |s.threads| && s.lock == None
         && (s.threads[w].Claimed? || s.threads[w].Woken? || s.threads[w].Finishing?)
       case Test(w) => w < |s.threads| && s.threads[w].Testing? && s.threads[w].item < |ready|
       case Wait(w) => w < |s.threads| && s.threads[w].Parking?
       case Return(w, panics) =>
         w < |s.threads| && s.threads[w].Running? && (panics ==> w < Caller(s))
       case Count(w) => w < |s.threads| && s.threads[w].Counting?
       case Notify(w) => w < |s.threads| && s.threads[w].Notifying?
  }

  function Wake(p: Phase): Phase {
    if p.Waiting? then Woken(p.item) else p
  }

  function WakeAll(threads: seq<Phase>): (r: seq<Phase>)
    ensures |r| == |threads|
    ensures forall w :: 0 <= w < |r| ==> r[w] == Wake(threads[w])
  {
    seq(|threads|, w requires 0 <= w < |threads| => Wake(threads[w]))
  }

  function Apply(ready: Layers, s: State, step: Step): State
    requires Enabled(ready, s, step)
  {
    match step
    case Join => s.(threads := s.threads[Caller(s) := Starting])
    case SetUp(w, panics) => s.(threads := s.threads[w := if panics then Dead else Ready])
    case Claim(w) =>
      var p := if s.next < |ready| then Claimed(s.next) else Exited;
      s.(next := s.next + 1, threads := s.threads[w := p])
    case Acquire(w) =>
      var p := s.threads[w];
      var q := if p.Finishing? then Counting(p.item, p.panicked) else Testing(p.item);
      s.(lock := Some(w), threads := s.threads[w := q])
    case Test(w) =>
      var i := s.threads[w].item;
      if s.done >= ready[i] then
        s.(lock := None, threads := s.threads[w := Running(i)], started := s.started + [i])
      else
        s.(threads := s.threads[w := Parking(i)])
    case Wait(w) =>
      s.(lock := None, threads := s.threads[w := Waiting(s.threads[w].item)])
    case Return(w, panics) =>
      s.(threads := s.threads[w := Finishing(s.threads[w].item, panics)])
    case Count(w) =>
      var p := s.threads[w];
      s.(lock := None, done := s.done + 1, counted := s.counted + [p.item],
         threads := s.threads[w := Notifying(p.panicked)])
    case Notify(w) =>
      var p := if s.threads[w].panicked then Dead else Ready;
      s.(threads := WakeAll(s.threads)[w := p])
  }

  // ── Runs ──────────────────────────────────────────────────────────────

  ghost predicate IsRun(ready: Layers, s: State, steps: seq<Step>)
    decreases |steps|
  {
    steps != [] ==>
      && Enabled(ready, s, steps[0])
      && IsRun(ready, Apply(ready, s, steps[0]), steps[1..])
  }

  ghost function After(ready: Layers, s: State, steps: seq<Step>): State
    requires IsRun(ready, s, steps)
    decreases |steps|
  {
    if steps == [] then s else After(ready, Apply(ready, s, steps[0]), steps[1..])
  }

  // ── The invariant ─────────────────────────────────────────────────────

  predicate Starts(p: Phase) {
    p.Running? || p.Finishing? || p.Counting?
  }

  /** `p` has claimed an item that is not counted yet. */
  predicate Holds(p: Phase) {
    p.Claimed? || p.Testing? || p.Parking? || p.Waiting? || p.Woken? || Starts(p)
  }

  predicate Locks(p: Phase) {
    p.Testing? || p.Parking? || p.Counting?
  }

  ghost predicate HeldBy(s: State, i: nat, w: nat) {
    w < |s.threads| && Holds(s.threads[w]) && s.threads[w].item == i
  }

  ghost predicate Held(s: State, i: nat) {
    exists w: nat :: HeldBy(s, i, w)
  }

  ghost predicate StartedBy(s: State, i: nat, w: nat) {
    w < |s.threads| && Starts(s.threads[w]) && s.threads[w].item == i
  }

  /** Claimed items are exactly the counted and the held ones, each in one place only. */
  ghost predicate Accounted(ready: Layers, s: State) {
    && s.done == |s.counted|
    && Distinct(s.counted)
    && (forall i :: i in s.counted ==> i < s.next && i < |ready|)
    && (forall i: nat, w: nat :: HeldBy(s, i, w) ==> i < s.next && i < |ready| && i !in s.counted)
    && (forall i: nat, v: nat, w: nat :: HeldBy(s, i, v) && HeldBy(s, i, w) ==> v == w)
    && (forall i: nat :: i < s.next && i < |ready| ==> i in s.counted || Held(s, i))
  }

  /** An item has started iff it is counted or some thread is past the test with it. */
  ghost predicate StartsOnce(s: State) {
    && Distinct(s.started)
    && (forall i :: i in s.counted ==> i in s.started)
    && (forall i: nat, w: nat :: StartedBy(s, i, w) ==> i in s.started)
    && (forall i :: i in s.started ==> i in s.counted || exists w: nat :: StartedBy(s, i, w))
  }

  ghost predicate Mutual(s: State) {
    && (forall w: nat :: w < |s.threads| && Locks(s.threads[w]) ==> s.lock == Some(w))
    && (s.lock.Some? ==> s.lock.value < |s.threads| && Locks(s.threads[s.lock.value]))
  }

  /** A sleeping thread still has to wait, or a notification is on its way. */
  ghost predicate NoLostWakeup(ready: Layers, s: State) {
    && (forall w :: 0 <= w < |s.threads| && s.threads[w].Parking? ==>
          s.threads[w].item < |ready| && s.done < ready[s.threads[w].item])
    && (forall w :: 0 <= w < |s.threads| && s.threads[w].Waiting? ==>
          && s.threads[w].item < |ready|
          && (s.done < ready[s.threads[w].item]
              || exists v :: 0 <= v < |s.threads| && s.threads[v].Notifying?))
  }

  ghost predicate CallerLast(ready: Layers, s: State) {
    && |s.threads| > 0
    && (forall w :: 0 <= w < Caller(s) ==> !s.threads[w].Parked?)
    && (!s.threads[Caller(s)].Parked? ==> forall w :: 0 <= w < Caller(s) ==> Gone(s.threads[w]))
    && !s.threads[Caller(s)].Refused? && !s.threads[Caller(s)].Dead?
    && !(s.threads[Caller(s)].Finishing? && s.threads[Caller(s)].panicked)
    && !(s.threads[Caller(s)].Counting? && s.threads[Caller(s)].panicked)
    && !(s.threads[Caller(s)].Notifying? && s.threads[Caller(s)].panicked)
    && (forall w :: 0 <= w < |s.threads| && s.threads[w].Exited? ==> s.next >= |ready|)
  }

  ghost predicate Inv(ready: Layers, s: State) {
    && Accounted(ready, s)
    && StartsOnce(s)
    && Mutual(s)
    && NoLostWakeup(ready, s)
    && CallerLast(ready, s)
  }

  lemma InitInv(ready: Layers, s: State)
    requires Init(s)
    ensures Inv(ready, s)
  {
  }

  /** All but claiming and counting leaves the items with the threads that hold them. */
  lemma HeldSame(ready: Layers, s: State, step: Step, i: nat, w: nat)
    requires Enabled(ready, s, step) && !step.Claim? && !step.Count?
    ensures HeldBy(Apply(ready, s, step), i, w) <==> HeldBy(s, i, w)
  {
  }

  lemma AccountedSame(ready: Layers, s: State, t: State)
    requires Accounted(ready, s) && t.next == s.next && t.done == s.done && t.counted == s.counted
    requires forall i: nat, w: nat :: HeldBy(t, i, w) <==> HeldBy(s, i, w)
    ensures Accounted(ready, t)
  {
    hide HeldBy;
    forall i: nat | i < t.next && i < |ready| && i !in t.counted ensures Held(t, i) {
      var w: nat :| HeldBy(s, i, w);
      assert HeldBy(t, i, w);
    }
  }

  lemma ClaimAccounted(ready: Layers, s: State, w: nat)
    requires Accounted(ready, s) && Enabled(ready, s, Claim(w))
    ensures Accounted(ready, Apply(ready, s, Claim(w)))
  {
    var t := Apply(ready, s, Claim(w));
    forall i: nat, v: nat ensures HeldBy(t, i, v) <==> HeldBy(s, i, v) || (v == w && i == s.next < |ready|) {
    }
    hide HeldBy;
    forall i: nat | i < t.next && i < |ready| && i !in t.counted ensures Held(t, i) {
      if i < s.next {
        var v: nat :| HeldBy(s, i, v);
        assert HeldBy(t, i, v);
      } else {
        assert HeldBy(t, i, w);
      }
    }
  }

  lemma CountAccounted(ready: Layers, s: State, w: nat)
    requires Accounted(ready, s) && Enabled(ready, s, Count(w))
    ensures Accounted(ready, Apply(ready, s, Count(w)))
  {
    var t, item := Apply(ready, s, Count(w)), s.threads[w].item;
    assert HeldBy(s, item, w);
    forall i: nat, v: nat ensures HeldBy(t, i, v) <==> HeldBy(s, i, v) && v != w {
    }
    hide HeldBy;
    forall i: nat | i < t.next && i < |ready| && i !in t.counted ensures Held(t, i) {
      var v: nat :| HeldBy(s, i, v);
      assert HeldBy(t, i, v);
    }
  }

  lemma AccountedStep(ready: Layers, s: State, step: Step)
    requires Inv(ready, s) && Enabled(ready, s, step)
    ensures Accounted(ready, Apply(ready, s, step))
  {
    if step.Claim? {
      ClaimAccounted(ready, s, step.w);
    } else if step.Count? {
      CountAccounted(ready, s, step.w);
    } else {
      var t := Apply(ready, s, step);
      assert t.next == s.next && t.done == s.done && t.counted == s.counted;
      hide HeldBy, Accounted, Apply;
      forall i: nat, w: nat ensures HeldBy(t, i, w) <==> HeldBy(s, i, w) {
        HeldSame(ready, s, step, i, w);
      }
      AccountedSame(ready, s, t);
    }
  }

  lemma StartedSame(ready: Layers, s: State, step: Step, i: nat, w: nat)
    requires Enabled(ready, s, step) && !step.Test? && !step.Count?
    ensures StartedBy(Apply(ready, s, step), i, w) <==> StartedBy(s, i, w)
  {
  }

  lemma StartsOnceSame(s: State, t: State)
    requires StartsOnce(s) && t.started == s.started && t.counted == s.counted
    requires forall i: nat, w: nat :: StartedBy(t, i, w) <==> StartedBy(s, i, w)
    ensures StartsOnce(t)
  {
    hide StartedBy;
    forall i | i in t.started && i !in t.counted ensures exists w: nat :: StartedBy(t, i, w) {
      var w: nat :| StartedBy(s, i, w);
      assert StartedBy(t, i, w);
    }
  }

  lemma TestStartsOnce(ready: Layers, s: State, w: nat)
    requires Accounted(ready, s) && StartsOnce(s) && Enabled(ready, s, Test(w))
    ensures StartsOnce(Apply(ready, s, Test(w)))
  {
    var t, item := Apply(ready, s, Test(w)), s.threads[w].item;
    assert HeldBy(s, item, w);
    forall i: nat, v: nat
      ensures StartedBy(t, i, v) <==> StartedBy(s, i, v) || (v == w && i == item && s.done >= ready[i])
    {
    }
    assert forall v: nat :: StartedBy(s, item, v) ==> HeldBy(s, item, v);
    hide StartedBy, Accounted, HeldBy;
    forall i | i in t.started && i !in t.counted ensures exists v: nat :: StartedBy(t, i, v) {
      if i in s.started {
        var v: nat :| StartedBy(s, i, v);
        assert StartedBy(t, i, v);
      } else {
        assert StartedBy(t, i, w);
      }
    }
  }

  lemma CountStartsOnce(ready: Layers, s: State, w: nat)
    requires StartsOnce(s) && Enabled(ready, s, Count(w))
    ensures StartsOnce(Apply(ready, s, Count(w)))
  {
    var t, item := Apply(ready, s, Count(w)), s.threads[w].item;
    assert StartedBy(s, item, w);
    forall i: nat, v: nat ensures StartedBy(t, i, v) <==> StartedBy(s, i, v) && v != w {
    }
    assert forall i: nat :: StartedBy(s, i, w) ==> i == item;
    hide StartedBy;
    forall i | i in t.started && i !in t.counted ensures exists v: nat :: StartedBy(t, i, v) {
      var v: nat :| StartedBy(s, i, v);
      assert StartedBy(t, i, v);
    }
  }

  lemma StartsOnceStep(ready: Layers, s: State, step: Step)
    requires Inv(ready, s) && Enabled(ready, s, step)
    ensures StartsOnce(Apply(ready, s, step))
  {
    if step.Test? {
      TestStartsOnce(ready, s, step.w);
    } else if step.Count? {
      CountStartsOnce(ready, s, step.w);
    } else {
      var t := Apply(ready, s, step);
      assert t.started == s.started && t.counted == s.counted;
      hide StartedBy, StartsOnce, Apply;
      forall i: nat, w: nat ensures StartedBy(t, i, w) <==> StartedBy(s, i, w) {
        StartedSame(ready, s, step, i, w);
      }
      StartsOnceSame(s, t);
    }
  }

  lemma MutualStep(ready: Layers, s: State, step: Step)
    requires Inv(ready, s) && Enabled(ready, s, step)
    ensures Mutual(Apply(ready, s, step))
  {
  }

  predicate Panicking(p: Phase) {
    (p.Finishing? || p.Counting? || p.Notifying?) && p.panicked
  }

  /** A thread that is not done yet moves on: below the calling thread, that one is still parked. */
  lemma CallerMoves(ready: Layers, s: State, w: nat, q: Phase, t: State)
    requires CallerLast(ready, s) && w < |s.threads| && !Gone(s.threads[w]) && !s.threads[w].Parked?
    requires t.threads == s.threads[w := q] && t.next >= s.next
    requires !q.Parked? && !q.Refused? && (q.Exited? ==> t.next >= |ready|)
    requires w == Caller(s) ==> !q.Dead? && !Panicking(q)
    ensures CallerLast(ready, t)
  {
  }

  lemma CallerWakes(ready: Layers, s: State)
    requires CallerLast(ready, s)
    ensures CallerLast(ready, s.(threads := WakeAll(s.threads)))
  {
  }

  lemma CallerJoins(ready: Layers, s: State)
    requires CallerLast(ready, s) && Enabled(ready, s, Join)
    ensures CallerLast(ready, Apply(ready, s, Join))
  {
  }

  lemma CallerStep(ready: Layers, s: State, step: Step)
    requires Inv(ready, s) && Enabled(ready, s, step)
    ensures CallerLast(ready, Apply(ready, s, step))
  {
    var t := Apply(ready, s, step);
    if step.Join? {
      CallerJoins(ready, s);
    } else {
      var w := step.w;
      assert w == Caller(s) ==> !Panicking(s.threads[w]);
      var u := if step.Notify? then s.(threads := WakeAll(s.threads)) else s;
      CallerWakes(ready, s);
      hide CallerLast, Accounted, StartsOnce, Mutual, NoLostWakeup;
      CallerMoves(ready, u, w, t.threads[w], t);
    }
  }

  lemma WakeupStep(ready: Layers, s: State, step: Step)
    requires Inv(ready, s) && Enabled(ready, s, step)
    ensures NoLostWakeup(ready, Apply(ready, s, step))
  {
    var t := Apply(ready, s, step);
    forall w | 0 <= w < |t.threads| && t.threads[w].Waiting?
      ensures t.threads[w].item < |ready|
      ensures t.done < ready[t.threads[w].item]
              || exists v :: 0 <= v < |t.threads| && t.threads[v].Notifying?
    {
      if s.threads[w].Waiting? {
        if step.Count? {
          assert t.threads[step.w].Notifying?;
        } else if s.done >= ready[s.threads[w].item] {
          var v :| 0 <= v < |s.threads| && s.threads[v].Notifying?;
          assert t.threads[v].Notifying?;
        }
      }
    }
  }

  lemma InvStep(ready: Layers, s: State, step: Step)
    requires Inv(ready, s) && Enabled(ready, s, step)
    ensures Inv(ready, Apply(ready, s, step))
  {
    AccountedStep(ready, s, step);
    StartsOnceStep(ready, s, step);
    MutualStep(ready, s, step);
    WakeupStep(ready, s, step);
    CallerStep(ready, s, step);
  }

  lemma SameThreads(ready: Layers, s: State, step: Step)
    requires Enabled(ready, s, step)
    ensures |Apply(ready, s, step).threads| == |s.threads|
  {
  }

  lemma {:induction false} RunInv(ready: Layers, s: State, steps: seq<Step>)
    requires Inv(ready, s) && IsRun(ready, s, steps)
    ensures Inv(ready, After(ready, s, steps))
    ensures |After(ready, s, steps).threads| == |s.threads|
    decreases |steps|
  {
    if steps != [] {
      InvStep(ready, s, steps[0]);
      SameThreads(ready, s, steps[0]);
      hide Inv, Apply, Enabled;
      RunInv(ready, Apply(ready, s, steps[0]), steps[1..]);
    }
  }

  // ── The barrier between layers ────────────────────────────────────────

  /** Every item that has started comes after all items in front of its layer. */
  ghost predicate Barrier(ready: Layers, s: State) {
    forall i, j: nat :: i in s.started && i < |ready| && j < ready[i] ==> j in s.counted
  }

  /**
   * The test reads a count only, and still finds a set: were any item behind the
   * layer's first index already counted, the barrier it passed itself covers the
   * items in front; otherwise the counted items are `ready[i]` distinct indices below it.
   */
  lemma CountIsPrefix(ready: Layers, s: State, i: nat, j: nat)
    requires Inv(ready, s) && Barrier(ready, s)
    requires NonDecreasing(ready) && FirstOfLayer(ready)
    requires i < |ready| && s.done >= ready[i] && j < ready[i]
    ensures j in s.counted
  {
    if k :| k in s.counted && k >= ready[i] {
      assert ready[k] >= ready[ready[i]] by {
        if k > ready[i] {
          assert ready[ready[i]] <= ready[k];
        }
      }
      assert k in s.started;
    } else {
      Pigeonhole(s.counted, ready[i]);
    }
  }

  lemma BarrierStep(ready: Layers, s: State, step: Step)
    requires Inv(ready, s) && Barrier(ready, s) && Enabled(ready, s, step)
    requires NonDecreasing(ready) && FirstOfLayer(ready)
    ensures Barrier(ready, Apply(ready, s, step))
  {
    if step.Test? {
      var i := s.threads[step.w].item;
      if s.done >= ready[i] {
        forall j: nat | j < ready[i] ensures j in s.counted {
          CountIsPrefix(ready, s, i, j);
        }
      }
    }
  }

  lemma {:induction false} RunBarrier(ready: Layers, s: State, steps: seq<Step>)
    requires Inv(ready, s) && Barrier(ready, s) && IsRun(ready, s, steps)
    requires NonDecreasing(ready) && FirstOfLayer(ready)
    ensures Barrier(ready, After(ready, s, steps))
    decreases |steps|
  {
    if steps != [] {
      InvStep(ready, s, steps[0]);
      BarrierStep(ready, s, steps[0]);
      RunBarrier(ready, Apply(ready, s, steps[0]), steps[1..]);
    }
  }

  /** However the threads interleave, panic or fail to start, layers do not overlap. */
  lemma LayersDoNotOverlap(ready: Layers, s: State, steps: seq<Step>, i: nat, j: nat)
    requires NonDecreasing(ready) && FirstOfLayer(ready)
    requires Init(s) && IsRun(ready, s, steps)
    requires i < |ready| && j < |ready| && ready[j] < ready[i]
    ensures i in After(ready, s, steps).started ==> j in After(ready, s, steps).counted
  {
    InitInv(ready, s);
    RunBarrier(ready, s, steps);
    if j > ready[i] {
      assert ready[ready[i]] <= ready[j];
    }
  }
}
