/**
 * The indexed pool of `map_indexed_with_threads` and the ordered map built on it.
 *
 * A schedule is the order in which the workers reach the shared counter. The loop
 * below picks an arbitrary live worker each time round, so what a method here
 * ensures holds of every schedule.
 */
module ParallelMap {
  import opened Sorting
  import opened Wrappers

  /** What one call of the pool's `work` does; a panic unwinds the thread it is on. */
  datatype Outcome<+R> = Produced(value: R) | Nothing | Panicked

  /** One result with the index it came from. */
  datatype Entry<+R> = Entry(index: nat, value: R)

  type Produce<R> = seq<Entry<R>>

  /** `p` holds exactly what the threads in `kept` produced for the indices they claimed, once each. */
  ghost predicate Collects<R>(p: Produce<R>, claims: seq<nat>, kept: set<nat>, work: (nat, nat) -> Outcome<R>) {
    && (forall k, l :: 0 <= k < l < |p| ==> p[k].index != p[l].index)
    && (forall k :: 0 <= k < |p| ==>
          && p[k].index < |claims| && claims[p[k].index] in kept
          && work(claims[p[k].index], p[k].index) == Outcome.Produced(p[k].value))
    && (forall i :: 0 <= i < |claims| && claims[i] in kept && work(claims[i], i).Produced? ==>
          exists k :: 0 <= k < |p| && p[k].index == i)
  }

  /** Every entry of `p` is what `work` produced for its index on some thread, no index twice. */
  ghost predicate MadeByWork<R>(count: nat, p: Produce<R>, work: (nat, nat) -> Outcome<R>) {
    && (forall k, l :: 0 <= k < l < |p| ==> p[k].index != p[l].index)
    && (forall k :: 0 <= k < |p| ==>
          p[k].index < count && exists w: nat :: work(w, p[k].index) == Outcome.Produced(p[k].value))
  }

  ghost predicate HasPanicked<R>(claims: seq<nat>, w: nat, work: (nat, nat) -> Outcome<R>) {
    exists i :: 0 <= i < |claims| && claims[i] == w && work(w, i).Panicked?
  }

  /** Whether an index panics does not depend on the worker it falls to. */
  ghost predicate AnyWorker<R>(work: (nat, nat) -> Outcome<R>) {
    forall w: nat, i: nat :: work(w, i).Panicked? == work(0, i).Panicked?
  }

  /** How many of the first `n` indices panic. */
  function Panics<R>(work: (nat, nat) -> Outcome<R>, n: nat): (r: nat)
    ensures r <= n
  {
    if n == 0 then 0 else Panics(work, n - 1) + if work(0, n - 1).Panicked? then 1 else 0
  }

  lemma {:induction false} PanicsGrow<R>(work: (nat, nat) -> Outcome<R>, m: nat, n: nat)
    requires m <= n
    ensures Panics(work, m) <= Panics(work, n)
  {
    if m < n {
      PanicsGrow(work, m, n - 1);
    }
  }

  /** Every panic so far has cost one worker, and before the last claim one was left. */
  ghost predicate OneWorkerEach<R>(started: set<nat>, panicked: set<nat>, claims: nat, work: (nat, nat) -> Outcome<R>) {
    AnyWorker(work) ==>
      && |panicked| == Panics(work, claims)
      && (claims > 0 ==> Panics(work, claims - 1) < |started|)
  }

  lemma OneWorkerMore<R>(started: set<nat>, panicked: set<nat>, claims: nat, w: nat, work: (nat, nat) -> Outcome<R>)
    requires OneWorkerEach(started, panicked, claims, work) && panicked <= started && w in started - panicked
    ensures OneWorkerEach(started, if work(w, claims).Panicked? then panicked + {w} else panicked, claims + 1, work)
  {
    SubsetSize(panicked + {w}, started);
  }

  lemma NoPanicsYet<R>(started: set<nat>, work: (nat, nat) -> Outcome<R>)
    ensures OneWorkerEach(started, {}, 0, work)
  {
  }

  lemma CollectsClaim<R>(p: Produce<R>, w: nat, claims: seq<nat>, v: nat, work: (nat, nat) -> Outcome<R>)
    requires Collects(p, claims, {w}, work)
    ensures v != w || !work(w, |claims|).Produced? ==> Collects(p, claims + [v], {w}, work)
    ensures v == w && work(w, |claims|).Produced? ==>
              Collects(p + [Entry(|claims|, work(w, |claims|).value)], claims + [v], {w}, work)
  {
    if v == w && work(w, |claims|).Produced? {
      var q := p + [Entry(|claims|, work(w, |claims|).value)];
      assert q[|p|].index == |claims|;
      forall i | 0 <= i < |claims| && claims[i] == w && work(w, i).Produced?
        ensures exists k :: 0 <= k < |q| && q[k].index == i
      {
        var k :| 0 <= k < |p| && p[k].index == i;
        assert q[k].index == i;
      }
    }
  }

  lemma CollectsJoin<R>(p: Produce<R>, q: Produce<R>, claims: seq<nat>, kept: set<nat>, w: nat,
                        work: (nat, nat) -> Outcome<R>)
    requires Collects(p, claims, kept, work) && Collects(q, claims, {w}, work) && w !in kept
    ensures Collects(p + q, claims, kept + {w}, work)
  {
    var r := p + q;
    forall i | 0 <= i < |claims| && claims[i] in kept + {w} && work(claims[i], i).Produced?
      ensures exists k :: 0 <= k < |r| && r[k].index == i
    {
      if claims[i] in kept {
        var k :| 0 <= k < |p| && p[k].index == i;
        assert r[k].index == i;
      } else {
        var k :| 0 <= k < |q| && q[k].index == i;
        assert r[|p| + k].index == i;
      }
    }
  }

  /** How many workers a pool over `count` items runs. */
  function PoolSize(count: nat, requested: Option<nat>, cores: nat): nat {
    var n := if requested.Some? && requested.value > 0 then requested.value else cores;
    if n < count then n else count
  }

  /** What holds of the workers in `started` while they drain: each one's own vector, and who is gone. */
  ghost predicate Drained<R>(count: nat, started: set<nat>, produced: seq<Produce<R>>, claims: seq<nat>,
                             panicked: set<nat>, work: (nat, nat) -> Outcome<R>) {
    && panicked <= started && |claims| <= count
    && (forall w :: w in started ==> w < |produced|)
    && (forall i :: 0 <= i < |claims| ==> claims[i] in started)
    && (forall w :: w in started - panicked ==> Collects(produced[w], claims, {w}, work))
    && (forall w :: w in panicked ==> HasPanicked(claims, w, work))
  }

  lemma DrainedClaim<R>(count: nat, started: set<nat>, produced: seq<Produce<R>>, claims: seq<nat>,
                        panicked: set<nat>, w: nat, work: (nat, nat) -> Outcome<R>)
    requires Drained(count, started, produced, claims, panicked, work)
    requires w in started - panicked && |claims| < count
    ensures var i := |claims|;
            match work(w, i)
            case Produced(value) =>
              Drained(count, started, produced[w := produced[w] + [Entry(i, value)]], claims + [w], panicked, work)
            case Nothing => Drained(count, started, produced, claims + [w], panicked, work)
            case Panicked => Drained(count, started, produced, claims + [w], panicked + {w}, work)
  {
    forall v | v in started - panicked
      ensures v != w || !work(w, |claims|).Produced? ==> Collects(produced[v], claims + [w], {v}, work)
      ensures v == w && work(w, |claims|).Produced? ==>
                Collects(produced[w] + [Entry(|claims|, work(w, |claims|).value)], claims + [w], {w}, work)
    {
      CollectsClaim(produced[v], v, claims, w, work);
    }
    forall v | v in panicked ensures HasPanicked(claims + [w], v, work) {
      PanickedMore(claims, claims + [w], v, work);
    }
    assert (claims + [w])[|claims|] == w;
  }

  /** Worker `w` runs the next index, which it has just claimed; `survives` is false when that panics. */
  method RunClaimed<R>(count: nat, ghost started: set<nat>, before: seq<Produce<R>>, ghost was: seq<nat>,
                       panicked: set<nat>, w: nat, i: nat, work: (nat, nat) -> Outcome<R>)
    returns (produced: seq<Produce<R>>, survives: bool)
    requires Drained(count, started, before, was, panicked, work)
    requires w in started - panicked && i == |was| < count
    ensures |produced| == |before| && (survives <==> !work(w, i).Panicked?)
    ensures Drained(count, started, produced, was + [w], if survives then panicked else panicked + {w}, work)
  {
    DrainedClaim(count, started, before, was, panicked, w, work);
    produced, survives := before, true;
    match work(w, i)
    case Produced(value) => produced := before[w := before[w] + [Entry(i, value)]];
    case Nothing =>
    case Panicked => survives := false;
  }

  /** The spawned workers, each draining the shared counter until it is past the end or panics. */
  method RunWorkers<R>(count: nat, threads: nat, started: set<nat>, work: (nat, nat) -> Outcome<R>)
    returns (produced: seq<Produce<R>>, panicked: set<nat>, next: nat, ghost claims: seq<nat>)
    requires forall w :: w in started ==> w < threads
    ensures |produced| == threads && |claims| == if next < count then next else count
    ensures Drained(count, started, produced, claims, panicked, work)
    ensures panicked != started ==> next >= count
    ensures OneWorkerEach(started, panicked, |claims|, work)
  {
    produced, claims, next := seq(threads, _ => []), [], 0;
    assert Drained(count, started, produced, claims, {}, work);
    hide Collects, HasPanicked, OneWorkerEach, AnyWorker, Panics;
    var live := started;
    panicked := {};
    NoPanicsYet(started, work);
    while live != {}
      invariant |produced| == threads && |claims| == if next < count then next else count
      invariant live <= started && live !! panicked
      invariant next >= count || started <= live + panicked
      invariant Drained(count, started, produced, claims, panicked, work)
      invariant OneWorkerEach(started, panicked, |claims|, work)
      decreases live, if next < count then count - next else 0
    {
      var w :| w in live;
      var i := next;
      next := next + 1;
      var stays := i < count;
      if i < count {
        produced, stays := RunClaimed(count, started, produced, claims, panicked, w, i, work);
        OneWorkerMore(started, panicked, i, w, work);
        claims := claims + [w];
        panicked := if stays then panicked else panicked + {w};
      }
      live := if stays then live else live - {w};
    }
  }

  /**
   * Some spawn was refused, so that the calling thread helps, or the panics in front of the
   * last index leave a worker to claim it.
   */
  ghost predicate AllClaimed<R>(count: nat, threads: nat, refused: set<nat>, work: (nat, nat) -> Outcome<R>) {
    count == 0 || (exists w: nat :: w < threads && w in refused) || Panics(work, count - 1) < threads
  }

  lemma UnclaimedIff<R>(count: nat, threads: nat, panicked: set<nat>, claims: nat, work: (nat, nat) -> Outcome<R>)
    requires count > 0 && claims <= count && AnyWorker(work)
    requires OneWorkerEach(Below(threads), panicked, claims, work)
    requires claims < count ==> panicked == Below(threads)
    ensures claims == count <==> Panics(work, count - 1) < threads
  {
    BelowSize(threads);
    if claims < count {
      PanicsGrow(work, claims, count - 1);
    }
  }

  lemma NothingCollected<R>(claims: seq<nat>, kept: set<nat>, work: (nat, nat) -> Outcome<R>)
    requires claims == []
    ensures Collects([], claims, kept, work)
  {
  }

  lemma Made<R>(count: nat, p: Produce<R>, claims: seq<nat>, kept: set<nat>, work: (nat, nat) -> Outcome<R>)
    requires Collects(p, claims, kept, work) && |claims| <= count
    ensures MadeByWork(count, p, work)
  {
  }

  lemma DrainedMeans<R>(count: nat, started: set<nat>, produced: seq<Produce<R>>, claims: seq<nat>,
                        panicked: set<nat>, work: (nat, nat) -> Outcome<R>)
    requires Drained(count, started, produced, claims, panicked, work)
    ensures panicked <= started && |claims| <= count
    ensures forall i :: 0 <= i < |claims| ==> claims[i] in started
    ensures forall w :: w in started - panicked ==> w < |produced| && Collects(produced[w], claims, {w}, work)
    ensures forall w :: w in panicked ==> HasPanicked(claims, w, work)
  {
    hide Collects, HasPanicked;
  }

  lemma CollectsMore<R>(p: Produce<R>, kept: set<nat>, claims: seq<nat>, v: nat, work: (nat, nat) -> Outcome<R>)
    requires Collects(p, claims, kept, work) && v !in kept
    ensures Collects(p, claims + [v], kept, work)
  {
  }

  lemma PanickedMore<R>(claims: seq<nat>, claims': seq<nat>, w: nat, work: (nat, nat) -> Outcome<R>)
    requires HasPanicked(claims, w, work) && claims <= claims'
    ensures HasPanicked(claims', w, work)
  {
    var i :| 0 <= i < |claims| && claims[i] == w && work(w, i).Panicked?;
    assert claims'[i] == w;
  }

  /** The produce of the workers that neither were refused nor panicked, in spawn order. */
  method Join<R>(threads: nat, without: set<nat>, produced: seq<Produce<R>>, ghost claims: seq<nat>,
                 work: (nat, nat) -> Outcome<R>)
    returns (all: Produce<R>)
    requires |produced| == threads
    requires forall w: nat :: w < threads && w !in without ==> Collects(produced[w], claims, {w}, work)
    ensures Collects(all, claims, Below(threads) - without, work)
  {
    all := [];
    for w := 0 to threads
      invariant Collects(all, claims, Below(w) - without, work)
    {
      if w !in without {
        CollectsJoin(all, produced[w], claims, Below(w) - without, w, work);
        all := all + produced[w];
        assert Below(w + 1) - without == Below(w) - without + {w};
      } else {
        assert Below(w + 1) - without == Below(w) - without;
      }
    }
  }

  /** The calling thread's own drain, as thread number `threads`, appended to `all`. */
  method DrainRest<R>(count: nat, threads: nat, start: nat, all: Produce<R>, ghost claims: seq<nat>,
                      ghost kept: set<nat>, work: (nat, nat) -> Outcome<R>)
    returns (merged: Option<Produce<R>>, ghost claims': seq<nat>)
    requires |claims| == if start < count then start else count
    requires threads !in kept && forall i :: 0 <= i < |claims| ==> claims[i] < threads
    requires Collects(all, claims, kept, work)
    ensures claims <= claims' && |claims'| <= count
    ensures forall i :: |claims| <= i < |claims'| ==> claims'[i] == threads
    ensures merged.Some? ==> |claims'| == count && Collects(merged.value, claims', kept + {threads}, work)
    ensures merged.None? ==> HasPanicked(claims', threads, work)
  {
    var own: Produce<R> := [];
    var next := start;
    claims' := claims;
    while next < count
      invariant next >= start && |claims'| == if next < count then next else count
      invariant claims <= claims' && forall i :: |claims| <= i < |claims'| ==> claims'[i] == threads
      invariant Collects(all, claims', kept, work) && Collects(own, claims', {threads}, work)
    {
      var i := next;
      next := next + 1;
      CollectsClaim(own, threads, claims', threads, work);
      CollectsMore(all, kept, claims', threads, work);
      claims' := claims' + [threads];
      match work(threads, i)
      case Produced(value) => own := own + [Entry(i, value)];
      case Nothing =>
      case Panicked =>
        assert claims'[i] == threads;
        return None, claims';
    }
    CollectsJoin(all, own, claims', kept, threads, work);
    merged := Some(all + own);
  }

  /** The calling thread finishes what the workers in `kept` and `panicked` have left. */
  method FinishAlone<R>(count: nat, threads: nat, start: nat, all: Produce<R>, ghost claims: seq<nat>,
                        ghost kept: set<nat>, ghost panicked: set<nat>, work: (nat, nat) -> Outcome<R>)
    returns (merged: Option<Produce<R>>, ghost claims': seq<nat>, ghost kept': set<nat>)
    requires |claims| == if start < count then start else count
    requires forall i :: 0 <= i < |claims| ==> claims[i] < threads && claims[i] in kept + panicked
    requires threads !in kept && Collects(all, claims, kept, work)
    requires forall w :: w in panicked ==> HasPanicked(claims, w, work)
    ensures |claims'| <= count && (merged.Some? ==> |claims'| == count && MadeByWork(count, merged.value, work))
    ensures merged.Some? ==> Collects(merged.value, claims', kept', work)
    ensures forall i :: 0 <= i < |claims'| && claims'[i] !in kept' ==> HasPanicked(claims', claims'[i], work)
    ensures merged.None? ==> HasPanicked(claims', threads, work)
  {
    hide MadeByWork, Collects, HasPanicked;
    merged, claims' := DrainRest(count, threads, start, all, claims, kept, work);
    forall v | v in panicked ensures HasPanicked(claims', v, work) {
      PanickedMore(claims, claims', v, work);
    }
    kept' := if merged.Some? then kept + {threads} else kept;
    if merged.Some? {
      Made(count, merged.value, claims', kept', work);
    }
  }

  /**
   * Drains `0 .. count` with the workers the OS did not refuse, then joins them in spawn
   * order. A worker that panics loses what it had produced; a panic of the calling thread,
   * which drains only after a refused spawn, leaves the function (`None`). `claims[i]` is
   * the thread that claimed index `i` and `kept` the threads that did not panic.
   */
  method MapIndexedWithThreads<R>(count: nat, requested: Option<nat>, cores: nat, refused: set<nat>,
                                  work: (nat, nat) -> Outcome<R>)
    returns (merged: Option<Produce<R>>, ghost claims: seq<nat>, ghost kept: set<nat>)
    requires cores > 0
    ensures |claims| <= count
    ensures merged.Some? ==> MadeByWork(count, merged.value, work)
    ensures merged.Some? ==> Collects(merged.value, claims, kept, work)
    ensures forall i :: 0 <= i < |claims| && claims[i] !in kept ==> HasPanicked(claims, claims[i], work)
    // An index stays unclaimed only when no spawn was refused and every worker panicked.
    ensures merged.Some? && |claims| < count ==>
              forall w: nat :: w < PoolSize(count, requested, cores) ==>
                w !in refused && HasPanicked(claims, w, work)
    ensures merged.None? ==>
              && HasPanicked(claims, PoolSize(count, requested, cores), work)
              && exists w: nat :: w < PoolSize(count, requested, cores) && w in refused
    // When panics do not depend on the worker, the schedule does not matter to what is left undone.
    ensures merged.Some? && AnyWorker(work) ==>
              (|claims| == count <==> AllClaimed(count, PoolSize(count, requested, cores), refused, work))
  {
    hide OneWorkerEach, AnyWorker, Panics, MadeByWork, Collects, HasPanicked, Drained, Below;
    claims, kept := [], {};
    var threads := PoolSize(count, requested, cores);
    assert count > 0 ==> threads > 0;
    hide PoolSize;
    if count == 0 {
      NothingCollected(claims, kept, work);
      Made(count, [], claims, kept, work);
      return Some([]), claims, kept;
    }
    var started := Below(threads) - refused;
    var produced, panicked, next;
    produced, panicked, next, claims := RunWorkers(count, threads, started, work);
    kept := started - panicked;
    DrainedMeans(count, started, produced, claims, panicked, work);
    var all := Join(threads, refused + panicked, produced, claims, work);
    assert Below(threads) - (refused + panicked) == kept;
    if started == Below(threads) {
      Made(count, all, claims, kept, work);
      if AnyWorker(work) {
        assert forall w :: 0 <= w < threads ==> w in started && w !in refused;
        UnclaimedIff(count, threads, panicked, |claims|, work);
      }
      return Some(all), claims, kept;
    }
    ghost var gone := Below(threads) - started;
    assert gone + started == Below(threads);
    ghost var w :| w in gone;
    merged, claims, kept := FinishAlone(count, threads, next, all, claims, kept, panicked, work);
  }

  lemma {:induction false} PanicsBelow<R>(work: (nat, nat) -> Outcome<R>, n: nat)
    ensures Panics(work, n) <= n
  {
    if n > 0 {
      PanicsBelow(work, n - 1);
    }
  }

  /**
   * As many workers are started as are asked for, or one for each core, never more than there
   * are items: without a refusal all items are claimed exactly when fewer panic in front of
   * the last one.
   */
  lemma AllClaimedAsAsked<R>(count: nat, requested: Option<nat>, cores: nat, work: (nat, nat) -> Outcome<R>)
    requires cores > 0
    ensures PoolSize(count, requested, cores) <= count
    ensures requested.None? || requested == Some(0) ==>
              (AllClaimed(count, PoolSize(count, requested, cores), {}, work) <==>
                 count == 0 || Panics(work, count - 1) < cores)
    ensures requested.Some? && requested.value > 0 ==>
              (AllClaimed(count, PoolSize(count, requested, cores), {}, work) <==>
                 count == 0 || Panics(work, count - 1) < requested.value)
  {
    if count > 0 {
      PanicsBelow(work, count - 1);
    }
  }

  lemma FirstEntry<R>(p: Produce<R>, claims: seq<nat>, kept: set<nat>, work: (nat, nat) -> Outcome<R>)
    requires Collects(p, claims, kept, work) && |p| > 0
    ensures p[0].index < |claims| && work(claims[p[0].index], p[0].index).Produced?
  {
  }

  /** Where the first index panics and a worker has panicked before the second, the first is all there is. */
  lemma OnlyFirstClaimed<R>(p: Produce<R>, claims: seq<nat>, kept: set<nat>, work: (nat, nat) -> Outcome<R>)
    requires Collects(p, claims, kept, work) && |claims| < 2
    requires AnyWorker(work) && work(0, 0).Panicked? && HasPanicked(claims, 0, work)
    ensures p == [] && |claims| == 1
  {
    if |p| > 0 {
      FirstEntry(p, claims, kept, work);
    }
  }

  /**
   * One worker, two items, and the first panics: the second is never run, although its work
   * would have produced something.
   */
  method LosesTheRest<R>(cores: nat, work: (nat, nat) -> Outcome<R>)
    returns (merged: Option<Produce<R>>, ghost claims: seq<nat>)
    requires cores > 0 && AnyWorker(work) && work(0, 0).Panicked? && work(0, 1).Produced?
    ensures merged == Some([]) && |claims| == 1
  {
    ghost var kept;
    merged, claims, kept := MapIndexedWithThreads(2, Some(1), cores, {}, work);
    assert Panics(work, 1) == 1 && PoolSize(2, Some(1), cores) == 1;
    OnlyFirstClaimed(merged.value, claims, kept, work);
  }

  // ── Ordered maps ──────────────────────────────────────────────────────

  function FilterMap<T, R>(items: seq<T>, work: T -> Option<R>): seq<R> {
    if items == [] then []
    else (if work(items[0]).Some? then [work(items[0]).value] else []) + FilterMap(items[1..], work)
  }

  /** `r` holds what the work gives for exactly those items from `start` on for which it gives something, in order. */
  ghost predicate Gives<T, R>(r: seq<R>, items: seq<T>, work: T -> Option<R>, start: nat, at: seq<nat>) {
    && |at| == |r|
    && (forall k :: 0 <= k < |at| ==> start <= at[k] < |items| && work(items[at[k]]) == Some(r[k]))
    && (forall j, k :: 0 <= j < k < |at| ==> at[j] < at[k])
    && (forall i :: start <= i < |items| && work(items[i]).Some? ==> i in at)
  }

  lemma GivesOne<T, R>(r: seq<R>, items: seq<T>, work: T -> Option<R>, start: nat, at: seq<nat>)
    requires start < |items| && Gives(r, items, work, start + 1, at)
    ensures work(items[start]).Some? ==> Gives([work(items[start]).value] + r, items, work, start, [start] + at)
    ensures work(items[start]).None? ==> Gives(r, items, work, start, at)
  {
  }

  lemma {:induction false} FilterMapIs<T, R>(items: seq<T>, work: T -> Option<R>, start: nat) returns (at: seq<nat>)
    requires start <= |items|
    ensures Gives(FilterMap(items[start..], work), items, work, start, at)
    decreases |items| - start
  {
    if start == |items| {
      at := [];
    } else {
      at := FilterMapIs(items, work, start + 1);
      GivesOne(FilterMap(items[start + 1..], work), items, work, start, at);
      hide Gives;
      assert items[start..][1..] == items[start + 1..];
      if work(items[start]).Some? {
        at := [start] + at;
      } else {
        assert FilterMap(items[start..], work) == FilterMap(items[start + 1..], work);
      }
    }
  }

  lemma {:induction false} FilterMapConcat<T, R>(a: seq<T>, b: seq<T>, work: T -> Option<R>)
    ensures FilterMap(a + b, work) == FilterMap(a, work) + FilterMap(b, work)
  {
    if a == [] {
      assert a + b == b;
    } else {
      assert (a + b)[1..] == a[1..] + b && (a + b)[0] == a[0];
      var first := if work(a[0]).Some? then [work(a[0]).value] else [];
      assert FilterMap(a, work) == first + FilterMap(a[1..], work);
      assert FilterMap(a + b, work) == first + FilterMap(a[1..] + b, work);
      hide FilterMap;
      FilterMapConcat(a[1..], b, work);
    }
  }

  function Flatten<T>(parts: seq<seq<T>>): seq<T> {
    if parts == [] then [] else parts[0] + Flatten(parts[1..])
  }

  lemma {:induction false} FlattenLast<T>(parts: seq<seq<T>>, last: seq<T>)
    ensures Flatten(parts + [last]) == Flatten(parts) + last
  {
    if parts == [] {
      assert [last][1..] == [];
    } else {
      FlattenLast(parts[1..], last);
      assert (parts + [last])[1..] == parts[1..] + [last];
    }
  }

  /** `items` cut into runs of `block`, the last one as long as what is left. */
  function Chunks<T>(items: seq<T>, block: nat): (r: seq<seq<T>>)
    requires block > 0
    ensures Flatten(r) == items
  {
    if |items| <= block then
      if items == [] then [] else
        assert Flatten([items]) == items + Flatten([items][1..]);
        [items]
    else
      assert items == items[..block] + items[block..];
      [items[..block]] + Chunks(items[block..], block)
  }

  function Outs<T, R>(blocks: seq<seq<T>>, work: T -> Option<R>): (r: seq<seq<R>>)
    ensures |r| == |blocks|
    ensures forall k :: 0 <= k < |r| ==> r[k] == FilterMap(blocks[k], work)
  {
    if blocks == [] then [] else [FilterMap(blocks[0], work)] + Outs(blocks[1..], work)
  }

  lemma {:induction false} FlattenOuts<T, R>(blocks: seq<seq<T>>, work: T -> Option<R>)
    ensures Flatten(Outs(blocks, work)) == FilterMap(Flatten(blocks), work)
  {
    if blocks != [] {
      FlattenOuts(blocks[1..], work);
      FilterMapConcat(blocks[0], Flatten(blocks[1..]), work);
    }
  }

  predicate IndexAtMost<R>(a: Entry<R>, b: Entry<R>) {
    a.index <= b.index
  }

  /** The effect of sorting by index; which of two equal indices comes first is not relied on. */
  function SortByIndex<R>(p: Produce<R>): Produce<R> {
    SortBy(IndexAtMost<R>, p)
  }

  ghost predicate Increasing<R>(p: Produce<R>) {
    forall k, l :: 0 <= k < l < |p| ==> p[k].index < p[l].index
  }

  ghost predicate IndicesApart<R>(p: Produce<R>) {
    forall k, l :: 0 <= k < l < |p| ==> p[k].index != p[l].index
  }

  lemma Without<T>(s: seq<T>, m: nat)
    requires m < |s|
    ensures multiset(s[..m] + s[m + 1..]) == multiset(s) - multiset{s[m]}
  {
    assert s == s[..m] + [s[m]] + s[m + 1..];
  }

  lemma OthersApart<R>(q: Produce<R>, m: nat)
    requires m < |q| && IndicesApart(q)
    ensures IndicesApart(q[..m] + q[m + 1..])
    ensures forall x :: x in q[..m] + q[m + 1..] ==> x.index != q[m].index
  {
  }

  lemma AllAvoid<R>(p: Produce<R>, q: Produce<R>, i: nat)
    requires multiset(p) == multiset(q) && forall x :: x in q ==> x.index != i
    ensures forall l :: 0 <= l < |p| ==> p[l].index != i
  {
    forall l | 0 <= l < |p| ensures p[l].index != i {
      assert p[l] in multiset(q);
    }
  }

  /** In any order. */
  lemma {:induction false} StillApart<R>(p: Produce<R>, q: Produce<R>)
    requires multiset(p) == multiset(q) && IndicesApart(q)
    ensures IndicesApart(p)
  {
    if p != [] {
      assert p[0] in multiset(q);
      var m :| 0 <= m < |q| && q[m] == p[0];
      var rest := q[..m] + q[m + 1..];
      Without(p, 0);
      assert p[..0] + p[0 + 1..] == p[1..];
      Without(q, m);
      OthersApart(q, m);
      hide IndicesApart;
      StillApart(p[1..], rest);
      AllAvoid(p[1..], rest, p[0].index);
      FirstApart(p);
    }
  }

  lemma FirstApart<R>(p: Produce<R>)
    requires p != [] && IndicesApart(p[1..]) && forall l :: 0 <= l < |p| - 1 ==> p[1..][l].index != p[0].index
    ensures IndicesApart(p)
  {
    forall k, l | 0 <= k < l < |p| ensures p[k].index != p[l].index {
      assert p[l] == p[1..][l - 1] && (k > 0 ==> p[k] == p[1..][k - 1]);
    }
  }

  lemma SortKeeps<R>(p: Produce<R>)
    requires IndicesApart(p)
    ensures Increasing(SortByIndex(p))
    ensures multiset(SortByIndex(p)) == multiset(p)
  {
    var sorted := SortByIndex(p);
    assert Orders(IndexAtMost<R>, p);
    SortByKeeps(IndexAtMost<R>, p);
    hide SortBy;
    assert forall k, l :: 0 <= k < l < |sorted| ==> IndexAtMost(sorted[k], sorted[l]);
    StillApart(sorted, p);
  }

  function Values<R>(p: Produce<seq<R>>): seq<R> {
    if p == [] then [] else p[0].value + Values(p[1..])
  }

  lemma {:induction false} ValuesLast<R>(p: Produce<seq<R>>, e: Entry<seq<R>>)
    ensures Values(p + [e]) == Values(p) + e.value
  {
    if p == [] {
      assert [e][1..] == [];
    } else {
      ValuesLast(p[1..], e);
      assert (p + [e])[1..] == p[1..] + [e];
    }
  }

  /** `p` holds the outputs of the indices it has, and every non-empty output. */
  ghost predicate HoldsOuts<R>(p: Produce<seq<R>>, outs: seq<seq<R>>) {
    && (forall k :: 0 <= k < |p| ==> p[k].index < |outs| && p[k].value == outs[p[k].index])
    && (forall i :: 0 <= i < |outs| && outs[i] != [] ==> HasIndex(p, i))
  }

  ghost predicate HasIndex<R>(p: Produce<R>, i: nat) {
    exists k :: 0 <= k < |p| && p[k].index == i
  }

  lemma HasIndexInit<R>(p: Produce<R>, i: nat)
    requires p != [] && HasIndex(p, i) && p[|p| - 1].index != i
    ensures HasIndex(p[..|p| - 1], i)
  {
    var k :| 0 <= k < |p| && p[k].index == i;
    assert p[..|p| - 1][k].index == i;
  }

  /** Without the last output, whose entry is the last one if it has one. */
  lemma HoldsOutsInit<R>(p: Produce<seq<R>>, outs: seq<seq<R>>)
    requires outs != [] && Increasing(p) && HoldsOuts(p, outs)
    ensures var has := p != [] && p[|p| - 1].index == |outs| - 1;
            && (!has ==> outs[|outs| - 1] == [] && HoldsOuts(p, outs[..|outs| - 1]))
            && (has ==> Increasing(p[..|p| - 1]) && HoldsOuts(p[..|p| - 1], outs[..|outs| - 1]))
  {
    var last := |outs| - 1;
    if p != [] && p[|p| - 1].index == last {
      forall i | 0 <= i < last && outs[i] != [] ensures HasIndex(p[..|p| - 1], i) {
        HasIndexInit(p, i);
      }
    }
  }

  /** Sorted by index, the non-empty parts are the parts in order. */
  lemma {:induction false} ValuesInOrder<R>(p: Produce<seq<R>>, outs: seq<seq<R>>)
    requires Increasing(p) && HoldsOuts(p, outs)
    ensures Values(p) == Flatten(outs)
  {
    if outs == [] {
      assert p == [];
    } else {
      var last := |outs| - 1;
      var has := p != [] && p[|p| - 1].index == last;
      HoldsOutsInit(p, outs);
      assert has ==> p[|p| - 1].value == outs[last];
      hide Flatten, Values, HoldsOuts, Increasing;
      assert outs == outs[..last] + [outs[last]];
      FlattenLast(outs[..last], outs[last]);
      if has {
        assert p == p[..|p| - 1] + [p[|p| - 1]];
        ValuesInOrder(p[..|p| - 1], outs[..last]);
        ValuesLast(p[..|p| - 1], p[|p| - 1]);
      } else {
        ValuesInOrder(p, outs[..last]);
      }
    }
  }

  lemma InOrder<R>(merged: Produce<seq<R>>, claims: seq<nat>, kept: set<nat>, outs: seq<seq<R>>,
                   one: (nat, nat) -> Outcome<seq<R>>)
    requires Collects(merged, claims, kept, one) && |claims| == |outs|
    requires forall i :: 0 <= i < |claims| ==> claims[i] in kept
    requires forall w: nat, i: nat :: i < |outs| ==>
               one(w, i) == if outs[i] != [] then Outcome.Produced(outs[i]) else Nothing
    ensures Values(SortByIndex(merged)) == Flatten(outs)
  {
    SortKeeps(merged);
    var p := SortByIndex(merged);
    forall k | 0 <= k < |p| ensures p[k].index < |outs| && p[k].value == outs[p[k].index] {
      var x := p[k];
      assert x in multiset(p);
      assert x in merged;
    }
    forall i | 0 <= i < |outs| && outs[i] != [] ensures HasIndex(p, i) {
      assert claims[i] in kept && one(claims[i], i).Produced?;
      var k :| 0 <= k < |merged| && merged[k].index == i;
      var x := merged[k];
      assert x in multiset(merged);
      assert x in p;
    }
    assert HoldsOuts(p, outs);
    ValuesInOrder(p, outs);
  }

  /**
   * Maps `items` a block at a time on the pool. Whatever the schedule, the number of
   * workers and the spawns the OS refused, the result is the sequential one.
   */
  method MapInBlocks<T, R>(items: seq<T>, block: nat, cores: nat, refused: set<nat>, work: T -> Option<R>)
    returns (result: seq<R>)
    requires block > 0 && cores > 0
    ensures result == FilterMap(items, work)
  {
    if |items| <= block {
      return FilterMap(items, work);
    }
    var blocks := Chunks(items, block);
    var outs := Outs(blocks, work);
    var one := (_: nat, index: nat) =>
      if index < |outs| && outs[index] != [] then Outcome.Produced(outs[index]) else Nothing;
    var merged, claims, kept := MapIndexedWithThreads(|blocks|, None, cores, refused, one);
    assert forall w :: !HasPanicked(claims, w, one);
    assert !HasPanicked(claims, 0, one);
    var produced := SortByIndex(merged.value);
    SortKeeps(merged.value);
    InOrder(merged.value, claims, kept, outs, one);
    FlattenOuts(blocks, work);
    result := Values(produced);
  }
}
