/**
 * Which contents a class lookup can answer for: the history of a run of `ClassLoaderMemo`,
 * world by world.
 */
module MemoHistory {
  import opened ClassLoaderMemo
  import opened IndexOwners
  import opened MemoSlots
  import opened Wrappers

  /** The worlds a run goes through, its start first. */
  ghost function Trace<I(!new), V(!new)>(load: Loader<I, V>, w: World<I, V>, steps: seq<Step<I>>)
    : (tr: seq<World<I, V>>)
    requires IsRun(load, w, steps)
    ensures |tr| == |steps| + 1 && tr[0] == w
    decreases |steps|
  {
    if steps == [] then [w] else [w] + Trace(load, Apply(load, w, steps[0]), steps[1..])
  }

  ghost predicate StepAt<I(!new), V(!new)>(load: Loader<I, V>, tr: seq<World<I, V>>, steps: seq<Step<I>>, n: nat)
    requires n < |steps| == |tr| - 1
  {
    |tr[n].table| == |tr[n].filled| == SLOTS && Enabled(tr[n], steps[n]) && tr[n + 1] == Apply(load, tr[n], steps[n])
  }

  /** Each world comes from the one in front by the step between them, and the last is the run's end. */
  lemma {:induction false} TraceSteps<I(!new), V(!new)>(load: Loader<I, V>, w: World<I, V>, steps: seq<Step<I>>)
    requires IsRun(load, w, steps)
    ensures var tr := Trace(load, w, steps);
            && tr[|steps|] == After(load, w, steps)
            && forall n :: 0 <= n < |steps| ==> StepAt(load, tr, steps, n)
    decreases |steps|
  {
    if steps != [] {
      var tr, rest := Trace(load, w, steps), Trace(load, Apply(load, w, steps[0]), steps[1..]);
      assert tr == [w] + rest;
      TraceSteps(load, Apply(load, w, steps[0]), steps[1..]);
      hide Trace, Apply, Enabled, After, IsRun;
      forall n | 0 <= n < |steps| ensures StepAt(load, tr, steps, n) {
        if n > 0 {
          assert StepAt(load, rest, steps[1..], n - 1);
        }
      }
    }
  }

  /** Index `i` holds `content` in world `j`. */
  ghost predicate Held<I, V>(tr: seq<World<I, V>>, i: IndexId, j: nat, content: I) {
    j < |tr| && i in tr[j].indexes && tr[j].indexes[i].content == content
  }

  /** Index `i` has the same generation in worlds `j` and `n`. */
  ghost predicate SameGeneration<I, V>(tr: seq<World<I, V>>, i: IndexId, j: nat, n: nat) {
    && j < |tr| && n < |tr| && i in tr[j].indexes && i in tr[n].indexes
    && tr[j].indexes[i].generation == tr[n].indexes[i].generation
  }

  ghost predicate HeldInWindow<I, V>(tr: seq<World<I, V>>, i: IndexId, n: nat, content: I) {
    exists j: nat :: j <= n && Held(tr, i, j, content) && SameGeneration(tr, i, j, n)
  }

  /** What the window of an index's generation holds, the index has held under that generation. */
  ghost predicate WindowHeld<I(!new), V(!new)>(tr: seq<World<I, V>>, n: nat, i: IndexId) {
    n < |tr| && i in tr[n].indexes ==>
      var x := tr[n].indexes[i];
      forall c :: x.generation < |x.windows| && c in x.windows[x.generation] ==> HeldInWindow(tr, i, n, c)
  }

  lemma WindowHeldStep<I(!new), V(!new)>(load: Loader<I, V>, tr: seq<World<I, V>>, steps: seq<Step<I>>, n: nat,
                                         i: IndexId)
    requires |tr| == |steps| + 1 && n < |steps| && StepAt(load, tr, steps, n)
    requires Inv(load, tr[n]) && WindowHeld(tr, n, i)
    ensures WindowHeld(tr, n + 1, i)
  {
    if i in tr[n + 1].indexes {
      var x, x' := tr[n].indexes[i], tr[n + 1].indexes[i];
      assert IndexOk(x);
      forall c | x'.generation < |x'.windows| && c in x'.windows[x'.generation]
        ensures HeldInWindow(tr, i, n + 1, c)
      {
        if x'.content == c {
          assert Held(tr, i, n + 1, c) && SameGeneration(tr, i, n + 1, n + 1);
        } else {
          assert x'.generation == x.generation && c in x.windows[x.generation];
          var j: nat :| j <= n && Held(tr, i, j, c) && SameGeneration(tr, i, j, n);
          assert Held(tr, i, j, c) && SameGeneration(tr, i, j, n + 1);
        }
      }
    }
  }

  // ── When a lookup began and what it has seen ──────────────────────────

  /** The lookup at depth `d` of world `n` began with step `a`: it has been on the stack since. */
  ghost predicate Began<I, V>(tr: seq<World<I, V>>, steps: seq<Step<I>>, n: nat, d: nat, a: nat) {
    && a < n < |tr| == |steps| + 1 && d < |tr[n].frames| && d == |tr[a].frames|
    && steps[a] == Step<I>.Begin(tr[n].frames[d].project, tr[n].frames[d].key)
    && forall m :: a < m <= n ==> |tr[m].frames| > d
  }

  /**
   * `j` is a world in which a lookup begun in world `a` may have seen index `i`: one while it
   * ran, or, with a mutation not noted yet when it began, one before it under the same
   * generation, which is one since the index's last note.
   */
  ghost predicate Seeable<I, V>(tr: seq<World<I, V>>, i: IndexId, a: nat, n: nat, j: nat) {
    && j <= n && a < |tr|
    && (j < a ==> SameGeneration(tr, i, j, a) && tr[a].indexes[i].pending > 0)
  }

  ghost predicate HeldSeeable<I, V>(tr: seq<World<I, V>>, i: IndexId, a: nat, n: nat, content: I) {
    exists j: nat :: Held(tr, i, j, content) && Seeable(tr, i, a, n, j)
  }

  /** All that the lookup has been credited with, its index held when it could be seen. */
  ghost predicate SeenHeld<I(!new), V>(tr: seq<World<I, V>>, i: IndexId, seen: set<I>, a: nat, n: nat) {
    forall c :: c in seen ==> HeldSeeable(tr, i, a, n, c)
  }

  ghost predicate FrameHistory<I(!new), V>(tr: seq<World<I, V>>, steps: seq<Step<I>>, n: nat, d: nat, a: nat) {
    Began(tr, steps, n, d, a) && SeenHeld(tr, tr[n].frames[d].project.index, tr[n].frames[d].seen, a, n)
  }

  lemma BeginHistory<I(!new), V(!new)>(load: Loader<I, V>, tr: seq<World<I, V>>, steps: seq<Step<I>>, n: nat)
    requires |tr| == |steps| + 1 && n < |steps| && StepAt(load, tr, steps, n) && steps[n].Begin?
    requires Inv(load, tr[n]) && WindowHeld(tr, n, steps[n].project.index)
    ensures FrameHistory(tr, steps, n + 1, |tr[n].frames|, n)
  {
    var i, d := steps[n].project.index, |tr[n].frames|;
    var x, f := tr[n].indexes[i], tr[n + 1].frames[d];
    assert IndexOk(x) && f.seen == x.windows[x.generation];
    assert Began(tr, steps, n + 1, d, n);
    forall c | c in f.seen ensures HeldSeeable(tr, i, n, n + 1, c) {
      if c == x.content {
        assert Held(tr, i, n, c) && Seeable(tr, i, n, n + 1, n);
      } else {
        assert HeldInWindow(tr, i, n, c);
        var j: nat :| j <= n && Held(tr, i, j, c) && SameGeneration(tr, i, j, n);
        assert Held(tr, i, j, c) && Seeable(tr, i, n, n + 1, j);
      }
    }
  }

  lemma SeenHeldLater<I(!new), V(!new)>(tr: seq<World<I, V>>, i: IndexId, seen: set<I>, seen': set<I>, a: nat, n: nat)
    requires SeenHeld(tr, i, seen, a, n) && a <= n < |tr| - 1
    requires forall c :: c in seen' && c !in seen ==> Held(tr, i, n + 1, c)
    ensures SeenHeld(tr, i, seen', a, n + 1)
  {
    forall c | c in seen' ensures HeldSeeable(tr, i, a, n + 1, c) {
      if c in seen {
        assert HeldSeeable(tr, i, a, n, c);
        var j: nat :| Held(tr, i, j, c) && Seeable(tr, i, a, n, j);
        assert Held(tr, i, j, c) && Seeable(tr, i, a, n + 1, j);
      } else {
        assert Held(tr, i, n + 1, c) && Seeable(tr, i, a, n + 1, n + 1);
      }
    }
  }

  /** A lookup that stays on the stack keeps its project and key and is credited with mutations only. */
  lemma FrameStays<I(!new), V(!new)>(load: Loader<I, V>, w: World<I, V>, step: Step<I>, d: nat)
    requires |w.table| == |w.filled| == SLOTS && Enabled(w, step) && d < |w.frames| && d < |Apply(load, w, step).frames|
    ensures var t := Apply(load, w, step);
            && t.frames[d].project == w.frames[d].project && t.frames[d].key == w.frames[d].key
            && forall c :: c in t.frames[d].seen && c !in w.frames[d].seen ==>
                 w.frames[d].project.index in t.indexes && t.indexes[w.frames[d].project.index].content == c
  {
  }

  lemma FrameHistoryStep<I(!new), V(!new)>(load: Loader<I, V>, tr: seq<World<I, V>>, steps: seq<Step<I>>, n: nat,
                                           d: nat, a: nat)
    requires |tr| == |steps| + 1 && n < |steps| && StepAt(load, tr, steps, n)
    requires d < |tr[n].frames| && d < |tr[n + 1].frames| && FrameHistory(tr, steps, n, d, a)
    ensures FrameHistory(tr, steps, n + 1, d, a)
  {
    FrameStays(load, tr[n], steps[n], d);
    var f, f' := tr[n].frames[d], tr[n + 1].frames[d];
    hide Apply, Enabled;
    forall c | c in f'.seen && c !in f.seen ensures Held(tr, f.project.index, n + 1, c) {
    }
    SeenHeldLater(tr, f.project.index, f.seen, f'.seen, a, n);
  }

  // ── Along a run ───────────────────────────────────────────────────────

  ghost predicate HasHistory<I(!new), V>(tr: seq<World<I, V>>, steps: seq<Step<I>>, n: nat, d: nat) {
    exists a: nat :: FrameHistory(tr, steps, n, d, a)
  }

  /**
   * Reply `k` was given by step `b` to the lookup that step `a` began: the stack was as high as
   * before `a` again only after `b`.
   */
  ghost predicate Spans<I, V>(tr: seq<World<I, V>>, steps: seq<Step<I>>, r: Reply<I, V>, k: nat, a: nat, b: nat) {
    && a < b < |steps| == |tr| - 1
    && steps[a] == Step<I>.Begin(r.project, r.key)
    && |tr[b].replies| == k && k < |tr[b + 1].replies| && tr[b + 1].replies[k] == r
    && |tr[b + 1].frames| == |tr[a].frames|
    && forall m :: a < m <= b ==> |tr[m].frames| > |tr[a].frames|
  }

  ghost predicate ReplyHistory<I(!new), V>(tr: seq<World<I, V>>, steps: seq<Step<I>>, r: Reply<I, V>, k: nat) {
    exists a: nat, b: nat :: Spans(tr, steps, r, k, a, b) && SeenHeld(tr, r.project.index, r.seen, a, b)
  }

  ghost predicate History<I(!new), V(!new)>(load: Loader<I, V>, tr: seq<World<I, V>>, steps: seq<Step<I>>, n: nat) {
    && n < |tr| && Inv(load, tr[n])
    && (forall i :: WindowHeld(tr, n, i))
    && (forall d :: 0 <= d < |tr[n].frames| ==> HasHistory(tr, steps, n, d))
    && (forall k :: 0 <= k < |tr[n].replies| ==> ReplyHistory(tr, steps, tr[n].replies[k], k))
  }

  /** `t` has one reply more, to the lookup on top of `w`, which is done. */
  ghost predicate RepliesToTop<I(!new), V(!new)>(w: World<I, V>, t: World<I, V>) {
    && w.frames != [] && t.frames == Rest(w)
    && |t.replies| == |w.replies| + 1 && t.replies[..|w.replies|] == w.replies
    && var r := t.replies[|w.replies|];
       r.project == Top(w).project && r.key == Top(w).key && r.seen == Top(w).seen
  }

  lemma ReplyStep<I(!new), V(!new)>(load: Loader<I, V>, w: World<I, V>, step: Step<I>)
    requires |w.table| == |w.filled| == SLOTS && Enabled(w, step)
    ensures var t := Apply(load, w, step); t.replies == w.replies || RepliesToTop(w, t)
    ensures !step.Begin? ==> |Apply(load, w, step).frames| <= |w.frames|
    ensures step.Begin? ==> |Apply(load, w, step).frames| == |w.frames| + 1
  {
  }

  lemma RepliesStep<I(!new), V(!new)>(load: Loader<I, V>, tr: seq<World<I, V>>, steps: seq<Step<I>>, n: nat, k: nat)
    requires |tr| == |steps| + 1 && n < |steps| && StepAt(load, tr, steps, n) && History(load, tr, steps, n)
    requires k < |tr[n + 1].replies|
    ensures ReplyHistory(tr, steps, tr[n + 1].replies[k], k)
  {
    ReplyStep(load, tr[n], steps[n]);
    hide Apply, Enabled, Inv, WindowHeld;
    var r := tr[n + 1].replies[k];
    if k < |tr[n].replies| {
      assert r == tr[n].replies[k];
      assert ReplyHistory(tr, steps, tr[n].replies[k], k);
    } else {
      var d := |tr[n].frames| - 1;
      assert HasHistory(tr, steps, n, d);
      var a: nat :| FrameHistory(tr, steps, n, d, a);
      assert tr[n].frames[d] == Top(tr[n]);
      assert Spans(tr, steps, r, k, a, n);
    }
  }

  lemma HistoryStep<I(!new), V(!new)>(load: Loader<I, V>, tr: seq<World<I, V>>, steps: seq<Step<I>>, n: nat)
    requires |tr| == |steps| + 1 && n < |steps| && StepAt(load, tr, steps, n) && History(load, tr, steps, n)
    ensures History(load, tr, steps, n + 1)
  {
    InvStep(load, tr[n], steps[n]);
    ReplyStep(load, tr[n], steps[n]);
    hide Apply, Enabled, Inv, WindowHeld, FrameHistory, ReplyHistory;
    var m := n + 1;
    forall i ensures WindowHeld(tr, m, i) {
      WindowHeldStep(load, tr, steps, n, i);
    }
    forall d | 0 <= d < |tr[m].frames| ensures HasHistory(tr, steps, m, d) {
      if d < |tr[n].frames| {
        assert HasHistory(tr, steps, n, d);
        var a: nat :| FrameHistory(tr, steps, n, d, a);
        FrameHistoryStep(load, tr, steps, n, d, a);
      } else {
        BeginHistory(load, tr, steps, n);
      }
    }
    forall k | 0 <= k < |tr[m].replies| ensures ReplyHistory(tr, steps, tr[m].replies[k], k) {
      RepliesStep(load, tr, steps, n, k);
    }
  }

  lemma InitHistory<I(!new), V(!new)>(load: Loader<I, V>, tr: seq<World<I, V>>, steps: seq<Step<I>>)
    requires tr != [] && Init(tr[0])
    ensures History(load, tr, steps, 0)
  {
    InitInv(load, tr[0]);
    forall i ensures WindowHeld(tr, 0, i) {
      if i in tr[0].indexes {
        var c := tr[0].indexes[i].content;
        assert Held(tr, i, 0, c) && SameGeneration(tr, i, 0, 0);
      }
    }
  }

  lemma {:induction false} HistoryAlong<I(!new), V(!new)>(load: Loader<I, V>, tr: seq<World<I, V>>,
                                                          steps: seq<Step<I>>, n: nat)
    requires |tr| == |steps| + 1 && n <= |steps| && Init(tr[0])
    requires forall m :: 0 <= m < |steps| ==> StepAt(load, tr, steps, m)
    ensures History(load, tr, steps, n)
  {
    if n == 0 {
      InitHistory(load, tr, steps);
    } else {
      HistoryAlong(load, tr, steps, n - 1);
      HistoryStep(load, tr, steps, n - 1);
    }
  }

  /** `r` is the loader's answer for what its index held in world `j`, which its lookup may have seen. */
  ghost predicate AnsweredAt<I(!new), V(!new)>(load: Loader<I, V>, tr: seq<World<I, V>>, r: Reply<I, V>,
                                               a: nat, b: nat, j: nat)
  {
    var i := r.project.index;
    && j <= b < |tr| && a < |tr| && i in tr[j].indexes && i in tr[a].indexes
    && r.value == load(tr[j].indexes[i].content, r.origin, r.key.id)
    && (tr[a].indexes[i].pending == 0 ==> a <= j)
    && (j < a ==> tr[j].indexes[i].generation == tr[a].indexes[i].generation)
  }

  lemma SeenAnswers<I(!new), V(!new)>(load: Loader<I, V>, tr: seq<World<I, V>>, r: Reply<I, V>, a: nat, b: nat)
    returns (j: nat)
    requires Loaded(load, r.seen, r.origin, r.key, r.value) && SeenHeld(tr, r.project.index, r.seen, a, b)
    requires a < b < |tr| && r.project.index in tr[a].indexes
    ensures AnsweredAt(load, tr, r, a, b, j)
  {
    var c :| c in r.seen && r.value == load(c, r.origin, r.key.id);
    assert HeldSeeable(tr, r.project.index, a, b, c);
    j :| Held(tr, r.project.index, j, c) && Seeable(tr, r.project.index, a, b, j);
  }

  /**
   * Every reply, memoised or not and whatever other threads did meanwhile, is the loader's
   * answer for a content its index held in world `j`. With every mutation noted when the
   * lookup began, `j` lies between the lookup's beginning `a` and its reply `b`; otherwise it
   * may lie before `a`, but not before the index's last note.
   */
  lemma RepliesAreRecent<I(!new), V(!new)>(load: Loader<I, V>, w: World<I, V>, steps: seq<Step<I>>, k: nat)
    returns (a: nat, b: nat, j: nat)
    requires Init(w) && IsRun(load, w, steps) && k < |After(load, w, steps).replies|
    ensures var tr, r := Trace(load, w, steps), After(load, w, steps).replies[k];
            && Spans(tr, steps, r, k, a, b) && AnsweredAt(load, tr, r, a, b, j)
            && r.origin in Begun(steps) && Owner(r.origin) == Owner(r.project)
            && (Apart(Begun(steps), r.project) ==> r.origin == r.project)
  {
    var tr, r := Trace(load, w, steps), After(load, w, steps).replies[k];
    TraceSteps(load, w, steps);
    HistoryAlong(load, tr, steps, |steps|);
    RepliesAreLoaded(load, w, steps, k);
    assert ReplyHistory(tr, steps, r, k) by {
      hide Trace, After, IsRun, Inv;
    }
    hide Trace, After, IsRun, Apply, Inv, History, Loaded, SeenHeld, Begun, Apart;
    a, b :| Spans(tr, steps, r, k, a, b) && SeenHeld(tr, r.project.index, r.seen, a, b);
    assert StepAt(load, tr, steps, a);
    j := SeenAnswers(load, tr, r, a, b);
  }
}
