/**
 * The generation-stamped memo in front of the class loader, at work.
 *
 * `World` is everything around one thread's table: an allocator that reuses addresses,
 * the class indexes with their generation counters, mutated by any thread, and a stack
 * of lookups, since a loader that is running may start lookups of its own.
 */
module ClassLoaderMemo {
  import opened IndexOwners
  import opened MemoSlots
  import opened Wrappers

  // ── One thread's world ────────────────────────────────────────────────

  /**
   * A class index. A mutation changes `content` and is noted afterwards; `pending`
   * counts the ones not noted yet. `windows[g]`, a history, holds every content the
   * index had while its generation was `g`.
   */
  datatype Index<I> = Index(content: I, generation: nat, pending: nat, windows: seq<set<I>>)

  /** `Probing`: the generation has been read. `Searching`: the loader runs. `Found`: it has returned. */
  datatype Phase<+V> = Probing | Searching | Found(value: V)

  /** A lookup under way; `seen`, a history: its index's window when it began and every mutation since. */
  datatype Frame<I, V> = Frame(project: Project, key: Handle, generation: nat, phase: Phase<V>, seen: set<I>)

  /** An answer to a lookup of `project`; `origin`, a history, is the project whose lookup ran the loader. */
  datatype Reply<I, V> = Reply(project: Project, origin: Project, key: Handle, value: V, seen: set<I>)

  /** `filled` and `used` are histories: whose answer each slot holds, and the projects that looked something up. */

  datatype World<I, V> = World(
    table: seq<Slot<V>>,
    filled: seq<Project>,
    used: set<Project>,
    handles: set<Handle>,
    indexes: map<IndexId, Index<I>>,
    frames: seq<Frame<I, V>>,
    replies: seq<Reply<I, V>>)

  datatype Step<I> =
    | Alloc(h: Handle)
    | Drop(h: Handle)
    | Mutate(index: IndexId, content: I)
    | Note(index: IndexId)
    | Begin(project: Project, key: Handle)
    | Probe
    | Search
    | Store

  /** What the uncached loader answers, given an index content, the project it is seen from and a key. */
  type Loader<!I, +V> = (I, Project, nat) -> V

  /** A node lives while the program, a lookup or a slot of the table holds a handle to it. */
  ghost predicate Live<I, V>(w: World<I, V>, h: Handle) {
    || h in w.handles
    || (exists k :: 0 <= k < |w.frames| && w.frames[k].key == h)
    || (exists k :: 0 <= k < |w.table| && w.table[k].entry.Some? && w.table[k].entry.value.key == h)
  }

  function Top<I, V>(w: World<I, V>): Frame<I, V>
    requires w.frames != []
  {
    w.frames[|w.frames| - 1]
  }

  function Rest<I, V>(w: World<I, V>): seq<Frame<I, V>>
    requires w.frames != []
  {
    w.frames[..|w.frames| - 1]
  }

  ghost predicate Enabled<I(!new), V(!new)>(w: World<I, V>, step: Step<I>) {
    match step
    case Alloc(h) => forall g :: Live(w, g) ==> g.addr != h.addr
    case Drop(h) => h in w.handles
    case Mutate(index, _) => index in w.indexes
    case Note(index) => index in w.indexes
    case Begin(project, key) =>
      && project.index in w.indexes && Live(w, key)
      && (w.frames != [] ==> Top(w).phase.Searching?)
    case Probe => w.frames != [] && Top(w).phase.Probing?
    case Search => w.frames != [] && Top(w).phase.Searching? && Top(w).project.index in w.indexes
    case Store => w.frames != [] && Top(w).phase.Found? && |w.table| == SLOTS
  }

  function See<I, V>(f: Frame<I, V>, index: IndexId, content: I): Frame<I, V> {
    if f.project.index == index then f.(seen := f.seen + {content}) else f
  }

  function SeeAll<I, V>(frames: seq<Frame<I, V>>, index: IndexId, content: I): (r: seq<Frame<I, V>>)
    ensures |r| == |frames|
    ensures forall k :: 0 <= k < |r| ==> r[k] == See(frames[k], index, content)
  {
    seq(|frames|, k requires 0 <= k < |frames| => See(frames[k], index, content))
  }

  function Apply<I(!new), V(!new)>(load: Loader<I, V>, w: World<I, V>, step: Step<I>): World<I, V>
    requires |w.table| == |w.filled| == SLOTS && Enabled(w, step)
  {
    match step
    case Alloc(h) => w.(handles := w.handles + {h})
    case Drop(h) => w.(handles := w.handles - {h})
    case Mutate(index, content) =>
      var x := w.indexes[index];
      var windows := if x.generation < |x.windows|
        then x.windows[x.generation := x.windows[x.generation] + {content}] else x.windows;
      w.(indexes := w.indexes[index := Index(content, x.generation, x.pending + 1, windows)],
         frames := SeeAll(w.frames, index, content))
    case Note(index) =>
      var x := w.indexes[index];
      var pending := if x.pending > 0 then x.pending - 1 else 0;
      w.(indexes := w.indexes[index := Index(x.content, x.generation + 1, pending, x.windows + [{x.content}])])
    case Begin(project, key) =>
      var x := w.indexes[project.index];
      var seen := if x.generation < |x.windows| then x.windows[x.generation] else {};
      w.(frames := w.frames + [Frame(project, key, x.generation, Probing, seen)], used := w.used + {project})
    case Probe =>
      var f := Top(w);
      var k := SlotOf(f.key);
      (match Answer(w.table[k], Owner(f.project), f.generation, f.key)
       case Some(v) =>
         w.(frames := Rest(w), replies := w.replies + [Reply(f.project, w.filled[k], f.key, v, f.seen)])
       case None => w.(frames := Rest(w) + [f.(phase := Searching)]))
    case Search =>
      var f := Top(w);
      var v := load(w.indexes[f.project.index].content, f.project, f.key.id);
      w.(frames := Rest(w) + [f.(phase := Found(v))])
    case Store =>
      var f := Top(w);
      w.(table := Stored(w.table, Owner(f.project), f.generation, f.key, f.phase.value),
         filled := w.filled[SlotOf(f.key) := f.project],
         frames := Rest(w),
         replies := w.replies + [Reply(f.project, f.project, f.key, f.phase.value, f.seen)])
  }

  ghost predicate IsRun<I(!new), V(!new)>(load: Loader<I, V>, w: World<I, V>, steps: seq<Step<I>>)
    decreases |steps|
  {
    && |w.table| == |w.filled| == SLOTS
    && (steps != [] ==> Enabled(w, steps[0]) && IsRun(load, Apply(load, w, steps[0]), steps[1..]))
  }

  ghost function After<I(!new), V(!new)>(load: Loader<I, V>, w: World<I, V>, steps: seq<Step<I>>): World<I, V>
    requires IsRun(load, w, steps)
    decreases |steps|
  {
    if steps == [] then w else After(load, Apply(load, w, steps[0]), steps[1..])
  }

  /** Nothing memoised, no lookup under way, every index unmutated. */
  ghost predicate Init<I(!new), V>(w: World<I, V>) {
    && w.table == Empty() && |w.filled| == SLOTS
    && w.used == {} && w.handles == {} && w.frames == [] && w.replies == []
    && forall i :: i in w.indexes ==>
         w.indexes[i].generation == w.indexes[i].pending == 0 && w.indexes[i].windows == [{w.indexes[i].content}]
  }

  // ── The invariant ─────────────────────────────────────────────────────

  /** `value` is what the loader answers for some content in `seen`. */
  ghost predicate Loaded<I, V>(load: Loader<I, V>, seen: set<I>, origin: Project, key: Handle, value: V) {
    exists c :: c in seen && value == load(c, origin, key.id)
  }

  ghost predicate OneNodePerAddress<I(!new), V(!new)>(w: World<I, V>) {
    forall g, h :: Live(w, g) && Live(w, h) && g.addr == h.addr ==> g == h
  }

  ghost predicate IndexOk<I(!new)>(x: Index<I>) {
    && |x.windows| == x.generation + 1
    && x.content in x.windows[x.generation]
    && (x.pending == 0 ==> x.windows[x.generation] == {x.content})
  }

  /** A slot with its index's current stamp holds what was loaded since the last note. */
  ghost predicate SlotOk<I(!new), V>(load: Loader<I, V>, x: Index<I>, origin: Project, s: Slot<V>) {
    s.entry.Some? ==>
      && s.generation <= x.generation < |x.windows|
      && (s.generation == x.generation ==>
            Loaded(load, x.windows[s.generation], origin, s.entry.value.key, s.entry.value.value))
  }

  ghost predicate FrameOk<I(!new), V>(load: Loader<I, V>, x: Index<I>, f: Frame<I, V>) {
    && f.generation <= x.generation < |x.windows|
    && x.content in f.seen
    && (f.phase.Found? ==>
          && Loaded(load, f.seen, f.project, f.key, f.phase.value)
          && (f.generation == x.generation ==>
                Loaded(load, x.windows[x.generation], f.project, f.key, f.phase.value)))
  }

  /** What a lookup about to probe could take from slot `s` was loaded from a content it may have seen. */
  ghost predicate ProbeOk<I(!new), V>(load: Loader<I, V>, f: Frame<I, V>, origin: Project, s: Slot<V>) {
    f.phase.Probing? && s.entry.Some? && s.owner == Owner(f.project) && s.generation == f.generation ==>
      Loaded(load, f.seen, origin, s.entry.value.key, s.entry.value.value)
  }

  ghost predicate SlotIn<I(!new), V>(load: Loader<I, V>, w: World<I, V>, origin: Project, s: Slot<V>) {
    s.entry.Some? ==>
      && origin in w.used && s.owner == Owner(origin)
      && origin.index in w.indexes && SlotOk(load, w.indexes[origin.index], origin, s)
  }

  ghost predicate FrameIn<I(!new), V>(load: Loader<I, V>, w: World<I, V>, f: Frame<I, V>) {
    f.project in w.used && f.project.index in w.indexes && FrameOk(load, w.indexes[f.project.index], f)
  }

  /** A reply holds an answer of its own project or of one that shares its owner word. */
  ghost predicate ReplyOk<I(!new), V>(load: Loader<I, V>, w: World<I, V>, r: Reply<I, V>) {
    r.origin in w.used && Owner(r.origin) == Owner(r.project) && Loaded(load, r.seen, r.origin, r.key, r.value)
  }

  ghost predicate Inv<I(!new), V(!new)>(load: Loader<I, V>, w: World<I, V>) {
    && |w.table| == |w.filled| == SLOTS
    && OneNodePerAddress(w)
    && (forall i :: i in w.indexes ==> IndexOk(w.indexes[i]))
    && (forall k :: 0 <= k < |w.table| ==> SlotIn(load, w, w.filled[k], w.table[k]))
    && (forall k :: 0 <= k < |w.frames| ==> FrameIn(load, w, w.frames[k]))
    && (forall j, k :: 0 <= j < |w.frames| && 0 <= k < |w.table| ==>
          ProbeOk(load, w.frames[j], w.filled[k], w.table[k]))
    && (forall k :: 0 <= k < |w.frames| - 1 ==> w.frames[k].phase.Searching?)
    && (forall k :: 0 <= k < |w.replies| ==> ReplyOk(load, w, w.replies[k]))
  }

  lemma InitInv<I(!new), V(!new)>(load: Loader<I, V>, w: World<I, V>)
    requires Init(w)
    ensures Inv(load, w)
  {
  }

  /** A pointer-equal key is the same node, since the slot and the lookup both keep theirs alive. */
  lemma HitIsSameNode<I(!new), V(!new)>(w: World<I, V>, k: nat, h: Handle)
    requires OneNodePerAddress(w) && Live(w, h)
    requires k < |w.table| && w.table[k].entry.Some? && w.table[k].entry.value.key.addr == h.addr
    ensures w.table[k].entry.value.key == h
  {
    assert Live(w, w.table[k].entry.value.key);
  }

  lemma MemoryStep<I(!new), V(!new)>(load: Loader<I, V>, w: World<I, V>, step: Step<I>)
    requires Inv(load, w) && Enabled(w, step)
    ensures OneNodePerAddress(Apply(load, w, step))
  {
    var t := Apply(load, w, step);
    forall h | Live(t, h) ensures Live(w, h) || step == Alloc(h) {
      if k :| 0 <= k < |t.frames| && t.frames[k].key == h {
        assert (step.Begin? && k == |w.frames|) || w.frames[k].key == h;
      } else if k :| 0 <= k < |t.table| && t.table[k].entry.Some? && t.table[k].entry.value.key == h {
        if step.Store? && k == SlotOf(Top(w).key) {
          assert Top(w).key == h;
        } else {
          assert w.table[k].entry.Some?;
        }
      }
    }
  }

  lemma MutateKeeps<I(!new), V(!new)>(load: Loader<I, V>, w: World<I, V>, i: IndexId, c: I)
    requires Inv(load, w) && Enabled(w, Step<I>.Mutate(i, c))
    ensures Inv(load, Apply(load, w, Mutate(i, c)))
  {
    MemoryStep(load, w, Mutate(i, c));
    var t := Apply(load, w, Mutate(i, c));
    assert c in t.indexes[i].windows[t.indexes[i].generation];
    forall k | 0 <= k < |t.table| ensures SlotIn(load, t, t.filled[k], t.table[k]) {
      var s := t.table[k];
      assert SlotIn(load, w, w.filled[k], s);
      if s.entry.Some? && w.filled[k].index == i && s.generation == w.indexes[i].generation {
        assert t.indexes[i].windows[s.generation] == w.indexes[i].windows[s.generation] + {c};
      }
    }
    forall k | 0 <= k < |t.frames| ensures FrameIn(load, t, t.frames[k]) {
      var f := w.frames[k];
      assert FrameIn(load, w, f);
    }
    forall j, k | 0 <= j < |t.frames| && 0 <= k < |t.table| ensures ProbeOk(load, t.frames[j], t.filled[k], t.table[k]) {
      assert ProbeOk(load, w.frames[j], w.filled[k], w.table[k]);
    }
  }

  lemma NoteKeeps<I(!new), V(!new)>(load: Loader<I, V>, w: World<I, V>, i: IndexId)
    requires Inv(load, w) && Enabled(w, Step<I>.Note(i))
    ensures Inv(load, Apply(load, w, Note(i)))
  {
    MemoryStep(load, w, Note(i));
    var t := Apply(load, w, Note(i));
    forall k | 0 <= k < |t.table| ensures SlotIn(load, t, t.filled[k], t.table[k]) {
      assert SlotIn(load, w, w.filled[k], w.table[k]);
    }
    forall k | 0 <= k < |t.frames| ensures FrameIn(load, t, t.frames[k]) {
      assert FrameIn(load, w, w.frames[k]);
    }
  }

  lemma BeginKeeps<I(!new), V(!new)>(load: Loader<I, V>, w: World<I, V>, project: Project, key: Handle)
    requires Inv(load, w) && Enabled(w, Step<I>.Begin(project, key))
    ensures Inv(load, Apply(load, w, Begin(project, key)))
  {
    MemoryStep(load, w, Begin(project, key));
    var t := Apply(load, w, Begin(project, key));
    forall j, k | 0 <= j < |t.frames| && 0 <= k < |t.table| ensures ProbeOk(load, t.frames[j], t.filled[k], t.table[k]) {
      assert SlotIn(load, w, w.filled[k], w.table[k]);
      if j < |w.frames| {
        assert ProbeOk(load, w.frames[j], w.filled[k], w.table[k]);
      } else {
        SameOwnerIff(project, w.filled[k]);
      }
    }
  }

  lemma ProbeKeeps<I(!new), V(!new)>(load: Loader<I, V>, w: World<I, V>)
    requires Inv(load, w) && Enabled(w, Step<I>.Probe)
    ensures Inv(load, Apply(load, w, Step<I>.Probe))
  {
    MemoryStep(load, w, Step<I>.Probe);
    var f := Top(w);
    var k := SlotOf(f.key);
    assert ProbeOk(load, f, w.filled[k], w.table[k]);
    if Answer(w.table[k], Owner(f.project), f.generation, f.key).Some? {
      assert SlotIn(load, w, w.filled[k], w.table[k]);
      assert Live(w, f.key) by { assert w.frames[|w.frames| - 1].key == f.key; }
      HitIsSameNode(w, k, f.key);
    }
  }

  lemma StoreKeeps<I(!new), V(!new)>(load: Loader<I, V>, w: World<I, V>)
    requires Inv(load, w) && Enabled(w, Step<I>.Store)
    ensures Inv(load, Apply(load, w, Step<I>.Store))
  {
    MemoryStep(load, w, Step<I>.Store);
    assert FrameIn(load, w, Top(w));
  }

  lemma InvStep<I(!new), V(!new)>(load: Loader<I, V>, w: World<I, V>, step: Step<I>)
    requires Inv(load, w) && Enabled(w, step)
    ensures Inv(load, Apply(load, w, step))
  {
    match step
    case Alloc(_) => MemoryStep(load, w, step);
    case Drop(_) => MemoryStep(load, w, step);
    case Mutate(i, c) => MutateKeeps(load, w, i, c);
    case Note(i) => NoteKeeps(load, w, i);
    case Begin(project, key) => BeginKeeps(load, w, project, key);
    case Probe => ProbeKeeps(load, w);
    case Search => MemoryStep(load, w, step);
    case Store => StoreKeeps(load, w);
  }

  lemma {:induction false} RunInv<I(!new), V(!new)>(load: Loader<I, V>, w: World<I, V>, steps: seq<Step<I>>)
    requires Inv(load, w) && IsRun(load, w, steps)
    ensures Inv(load, After(load, w, steps))
    decreases |steps|
  {
    if steps != [] {
      InvStep(load, w, steps[0]);
      RunInv(load, Apply(load, w, steps[0]), steps[1..]);
    }
  }

  // ── What the memo promises ────────────────────────────────────────────

  /** The projects that look something up in a run. */
  function Begun<I>(steps: seq<Step<I>>): set<Project> {
    set k | 0 <= k < |steps| && steps[k].Begin? :: steps[k].project
  }

  lemma {:induction false} UsedIsBegun<I(!new), V(!new)>(load: Loader<I, V>, w: World<I, V>, steps: seq<Step<I>>)
    requires IsRun(load, w, steps)
    ensures After(load, w, steps).used == w.used + Begun(steps)
    decreases |steps|
  {
    if steps != [] {
      UsedIsBegun(load, Apply(load, w, steps[0]), steps[1..]);
      UsedStep(load, w, steps[0]);
      hide Apply, Enabled, IsRun;
      BegunNext(steps);
    }
  }

  lemma UsedStep<I(!new), V(!new)>(load: Loader<I, V>, w: World<I, V>, step: Step<I>)
    requires |w.table| == |w.filled| == SLOTS && Enabled(w, step)
    ensures Apply(load, w, step).used == w.used + if step.Begin? then {step.project} else {}
  {
  }

  lemma BegunNext<I>(steps: seq<Step<I>>)
    requires steps != []
    ensures Begun(steps) == (if steps[0].Begin? then {steps[0].project} else {}) + Begun(steps[1..])
  {
    forall p | p in Begun(steps) ensures p in (if steps[0].Begin? then {steps[0].project} else {}) + Begun(steps[1..]) {
      var k :| 0 <= k < |steps| && steps[k].Begin? && steps[k].project == p;
      assert k > 0 ==> steps[1..][k - 1] == steps[k];
    }
    forall p | p in Begun(steps[1..]) ensures p in Begun(steps) {
      var k :| 0 <= k < |steps[1..]| && steps[1..][k].Begin? && steps[1..][k].project == p;
      assert steps[k + 1] == steps[1..][k];
    }
  }

  /**
   * While every mutation of an index has been noted, whatever a probe under its current
   * generation finds is what the uncached loader would answer now, to the project that asks or
   * to one that shares its owner word: after any run of mutations, evictions, re-entrant
   * lookups of several projects and reused addresses.
   */
  lemma ServedByOwner<I(!new), V(!new)>(load: Loader<I, V>, w: World<I, V>, steps: seq<Step<I>>,
                                        project: Project, key: Handle)
    requires Init(w) && IsRun(load, w, steps)
    requires project.index in After(load, w, steps).indexes
    requires After(load, w, steps).indexes[project.index].pending == 0
    requires Live(After(load, w, steps), key)
    ensures var t := After(load, w, steps);
            var x := t.indexes[project.index];
            |t.table| == SLOTS &&
            match Answer(t.table[SlotOf(key)], Owner(project), x.generation, key)
            case Some(v) =>
              exists q :: q in Begun(steps) && Owner(q) == Owner(project) && v == load(x.content, q, key.id)
            case None => true
  {
    InitInv(load, w);
    RunInv(load, w, steps);
    var t := After(load, w, steps);
    var x, k := t.indexes[project.index], SlotOf(key);
    if Answer(t.table[k], Owner(project), x.generation, key).Some? {
      HitIsSameNode(t, k, key);
      assert SlotIn(load, t, t.filled[k], t.table[k]);
      SameOwnerIff(project, t.filled[k]);
      UsedIsBegun(load, w, steps);
    }
  }

  /** Of the projects that see the same index, none has another scope with the same low 16 bits. */
  predicate Apart(projects: set<Project>, project: Project) {
    forall q :: q in projects && q.index == project.index && q.scope != project.scope ==>
      q.scope % TWO_TO_THE_16 != project.scope % TWO_TO_THE_16
  }

  /** When no other project shares the owner word, what a probe finds is the asking project's own answer. */
  lemma MemoIsTransparent<I(!new), V(!new)>(load: Loader<I, V>, w: World<I, V>, steps: seq<Step<I>>,
                                            project: Project, key: Handle)
    requires Init(w) && IsRun(load, w, steps) && Apart(Begun(steps), project)
    requires project.index in After(load, w, steps).indexes
    requires After(load, w, steps).indexes[project.index].pending == 0
    requires Live(After(load, w, steps), key)
    ensures var t := After(load, w, steps);
            var x := t.indexes[project.index];
            |t.table| == SLOTS &&
            match Answer(t.table[SlotOf(key)], Owner(project), x.generation, key)
            case Some(v) => v == load(x.content, project, key.id)
            case None => true
  {
    ServedByOwner(load, w, steps, project, key);
    hide IsRun, After, Live, Begun;
    var t := After(load, w, steps);
    var x := t.indexes[project.index];
    var answer := Answer(t.table[SlotOf(key)], Owner(project), x.generation, key);
    if answer.Some? {
      var q :| q in Begun(steps) && Owner(q) == Owner(project) && answer.value == load(x.content, q, key.id);
      SameOwnerIff(q, project);
      assert q == project;
    }
  }

  /**
   * Every reply, memoised or not and whatever other threads did meanwhile, is the loader's
   * answer for a content its lookup has been credited with, to its own project or to one that
   * shares its owner word. `MemoHistory` says when the index held what a lookup is credited
   * with.
   */
  lemma RepliesAreLoaded<I(!new), V(!new)>(load: Loader<I, V>, w: World<I, V>, steps: seq<Step<I>>, k: nat)
    requires Init(w) && IsRun(load, w, steps) && k < |After(load, w, steps).replies|
    ensures var r := After(load, w, steps).replies[k];
            && Loaded(load, r.seen, r.origin, r.key, r.value)
            && r.origin in Begun(steps) && Owner(r.origin) == Owner(r.project)
            && (Apart(Begun(steps), r.project) ==> r.origin == r.project)
  {
    InitInv(load, w);
    RunInv(load, w, steps);
    UsedIsBegun(load, w, steps);
    var t := After(load, w, steps);
    hide IsRun, After, Begun;
    assert ReplyOk(load, t, t.replies[k]);
    SameOwnerIff(t.replies[k].origin, t.replies[k].project);
  }

  // ── The conditions are needed ─────────────────────────────────────────

  lemma {:induction false} Extend<I(!new), V(!new)>(load: Loader<I, V>, w: World<I, V>, steps: seq<Step<I>>,
                                                        step: Step<I>)
    requires IsRun(load, w, steps) && Enabled(After(load, w, steps), step)
    ensures |After(load, w, steps).table| == |After(load, w, steps).filled| == SLOTS && IsRun(load, w, steps + [step])
    ensures After(load, w, steps + [step]) == Apply(load, After(load, w, steps), step)
    decreases |steps|
  {
    if steps == [] {
      assert [step][1..] == [] && |Apply(load, w, step).table| == |Apply(load, w, step).filled| == SLOTS;
    } else {
      Extend(load, Apply(load, w, steps[0]), steps[1..], step);
      assert (steps + [step])[1..] == steps[1..] + [step];
    }
  }

  lemma ExtendTwice<I(!new), V(!new)>(load: Loader<I, V>, w: World<I, V>, steps: seq<Step<I>>, x: Step<I>, y: Step<I>)
    requires IsRun(load, w, steps) && |After(load, w, steps).table| == |After(load, w, steps).filled| == SLOTS
    requires Enabled(After(load, w, steps), x)
    requires var u := Apply(load, After(load, w, steps), x); |u.table| == |u.filled| == SLOTS && Enabled(u, y)
    ensures IsRun(load, w, steps + [x, y])
    ensures After(load, w, steps + [x, y]) == Apply(load, Apply(load, After(load, w, steps), x), y)
  {
    hide IsRun, After, Enabled, Apply;
    Extend(load, w, steps, x);
    Extend(load, w, steps + [x], y);
    assert steps + [x] + [y] == steps + [x, y];
  }

  /** A lookup that misses goes through probe, loader and store. */
  lemma LookUp<I(!new), V(!new)>(load: Loader<I, V>, w: World<I, V>, project: Project, key: Handle)
    returns (a: World<I, V>, b: World<I, V>, c: World<I, V>, t: World<I, V>)
    requires |w.table| == |w.filled| == SLOTS && w.frames == [] && project.index in w.indexes && Live(w, key)
    requires Answer(w.table[SlotOf(key)], Owner(project), w.indexes[project.index].generation, key) == None
    ensures Enabled(w, Step<I>.Begin(project, key)) && a == Apply(load, w, Begin(project, key))
    ensures |a.table| == |a.filled| == SLOTS && Enabled(a, Step<I>.Probe) && b == Apply(load, a, Step<I>.Probe)
    ensures |b.table| == |b.filled| == SLOTS && Enabled(b, Step<I>.Search) && c == Apply(load, b, Step<I>.Search)
    ensures |c.table| == |c.filled| == SLOTS && Enabled(c, Step<I>.Store) && t == Apply(load, c, Step<I>.Store)
    ensures t.indexes == w.indexes && |t.table| == |t.filled| == SLOTS
    ensures var x := w.indexes[project.index];
            t.table == Stored(w.table, Owner(project), x.generation, key, load(x.content, project, key.id))
  {
    a := Apply(load, w, Begin(project, key));
    var f, u := a.frames[0], w.(used := w.used + {project});
    assert a == u.(frames := [f]);
    hide SlotOf, Owner, Live, Apply, Enabled, Answer, Stored;
    b := u.(frames := [f.(phase := Searching)]);
    c := u.(frames := [f.(phase := Found(load(w.indexes[project.index].content, project, key.id)))]);
    OneFrame(load, a, f);
    OneFrame(load, b, b.frames[0]);
    OneFrame(load, c, c.frames[0]);
    t := Apply(load, c, Step<I>.Store);
  }

  /** What the steps of the only lookup under way do. */
  lemma OneFrame<I(!new), V(!new)>(load: Loader<I, V>, w: World<I, V>, f: Frame<I, V>)
    requires |w.table| == |w.filled| == SLOTS && w.frames == [f] && f.project.index in w.indexes
    ensures f.phase.Probing? && Answer(w.table[SlotOf(f.key)], Owner(f.project), f.generation, f.key) == None ==>
              && Enabled(w, Step<I>.Probe)
              && Apply(load, w, Step<I>.Probe) == w.(frames := [f.(phase := Searching)])
    ensures f.phase.Searching? ==>
              && Enabled(w, Step<I>.Search)
              && Apply(load, w, Step<I>.Search)
                 == w.(frames := [f.(phase := Found(load(w.indexes[f.project.index].content, f.project, f.key.id)))])
    ensures f.phase.Found? ==>
              && Enabled(w, Step<I>.Store)
              && Apply(load, w, Step<I>.Store).indexes == w.indexes
              && Apply(load, w, Step<I>.Store).table
                 == Stored(w.table, Owner(f.project), f.generation, f.key, f.phase.value)
  {
    hide SlotOf, Owner, Live, Answer, Stored;
    assert Top(w) == f && Rest(w) == [];
  }

  /** The first lookup of all, run to its end. */
  lemma FirstLookUp<I(!new), V(!new)>(load: Loader<I, V>, w: World<I, V>, project: Project, key: Handle)
    returns (steps: seq<Step<I>>)
    requires Init(w) && project.index in w.indexes
    ensures IsRun(load, w, steps)
    ensures var t, x := After(load, w, steps), w.indexes[project.index];
            && |t.table| == |t.filled| == SLOTS && t.indexes == w.indexes
            && t.table[SlotOf(key)]
               == Slot(Some(Entry(key, load(x.content, project, key.id))), Owner(project), x.generation)
  {
    assert IsRun(load, w, []) && After(load, w, []) == w;
    hide IsRun, After, Enabled, Apply, Live, Init, SlotOf, Owner, Answer, Stored, Empty;
    var first := AllocFirst(load, w, project, key);
    Extend(load, w, [], Alloc(key));
    var a, b, c, d := LookUp(load, first, project, key);
    var start := [] + [Alloc(key)];
    ExtendTwice(load, w, start, Begin(project, key), Step<I>.Probe);
    ExtendTwice(load, w, start + [Begin(project, key), Step<I>.Probe], Step<I>.Search, Step<I>.Store);
    steps := start + [Begin(project, key), Step<I>.Probe] + [Step<I>.Search, Step<I>.Store];
    StoredAt(first.table, Owner(project), w.indexes[project.index].generation, key,
             load(w.indexes[project.index].content, project, key.id));
  }

  lemma AllocFirst<I(!new), V(!new)>(load: Loader<I, V>, w: World<I, V>, project: Project, key: Handle)
    returns (first: World<I, V>)
    requires Init(w) && project.index in w.indexes
    ensures |w.table| == |w.filled| == SLOTS
    ensures Enabled(w, Step<I>.Alloc(key)) && first == Apply(load, w, Step<I>.Alloc(key)) && Live(first, key)
    ensures first.frames == [] && first.indexes == w.indexes && |first.table| == |first.filled| == SLOTS
    ensures Answer(first.table[SlotOf(key)], Owner(project), w.indexes[project.index].generation, key) == None
  {
    hide SlotOf, Owner;
    first := Apply(load, w, Step<I>.Alloc(key));
    assert first == w.(handles := w.handles + {key});
  }

  lemma StoredAt<V>(table: seq<Slot<V>>, owner: nat, generation: nat, key: Handle, value: V)
    requires |table| == SLOTS
    ensures |Stored(table, owner, generation, key, value)| == SLOTS
    ensures Stored(table, owner, generation, key, value)[SlotOf(key)] == Slot(Some(Entry(key, value)), owner, generation)
  {
    hide SlotOf;
  }

  /** A key in a slot is live, whoever put it there. */
  lemma SlotKeepsAlive<I(!new), V(!new)>(w: World<I, V>, key: Handle)
    requires |w.table| == SLOTS && w.table[SlotOf(key)].entry.Some? && w.table[SlotOf(key)].entry.value.key == key
    ensures Live(w, key)
  {
    hide SlotOf;
  }

  /**
   * The condition on notes is needed: between a mutation and its note, a probe still finds
   * what the loader answered before.
   */
  lemma StaleUntilNoted<I(!new), V(!new)>(load: Loader<I, V>, w: World<I, V>, project: Project, key: Handle, content: I)
    returns (steps: seq<Step<I>>)
    requires Init(w) && project.index in w.indexes
    requires load(content, project, key.id) != load(w.indexes[project.index].content, project, key.id)
    ensures IsRun(load, w, steps)
    ensures var t := After(load, w, steps);
            project.index in t.indexes && |t.table| == SLOTS && Live(t, key) &&
            var x := t.indexes[project.index];
            && x.pending == 1 && x.content == content
            && Answer(t.table[SlotOf(key)], Owner(project), x.generation, key).Some?
            && Answer(t.table[SlotOf(key)], Owner(project), x.generation, key).value
               != load(x.content, project, key.id)
  {
    var looked := FirstLookUp(load, w, project, key);
    var d := After(load, w, looked);
    hide IsRun, After, Enabled, Apply, Live, SlotOf, Owner;
    Mutates(load, d, project.index, content);
    Extend(load, w, looked, Mutate(project.index, content));
    steps := looked + [Mutate(project.index, content)];
    SlotKeepsAlive(After(load, w, steps), key);
  }

  lemma Mutates<I(!new), V(!new)>(load: Loader<I, V>, w: World<I, V>, i: IndexId, content: I)
    requires |w.table| == |w.filled| == SLOTS && i in w.indexes
    ensures Enabled(w, Step<I>.Mutate(i, content))
    ensures var t := Apply(load, w, Mutate(i, content));
            && t.table == w.table && i in t.indexes
            && t.indexes[i].content == content && t.indexes[i].generation == w.indexes[i].generation
            && t.indexes[i].pending == w.indexes[i].pending + 1
  {
  }

  /**
   * The condition on scopes is needed: with all mutations noted, a probe for project `q` finds
   * what the loader answers to `p`, whenever their ids agree modulo 2^16 and the answers differ.
   */
  lemma OtherProjectServed<I(!new), V(!new)>(load: Loader<I, V>, w: World<I, V>, p: Project, q: Project, key: Handle)
    returns (steps: seq<Step<I>>)
    requires Init(w) && p.index in w.indexes && q.index == p.index
    requires p.scope % TWO_TO_THE_16 == q.scope % TWO_TO_THE_16
    requires load(w.indexes[p.index].content, p, key.id) != load(w.indexes[p.index].content, q, key.id)
    ensures IsRun(load, w, steps)
    ensures var t := After(load, w, steps);
            q.index in t.indexes && |t.table| == SLOTS && Live(t, key) &&
            var x := t.indexes[q.index];
            && x.pending == 0
            && Answer(t.table[SlotOf(key)], Owner(q), x.generation, key).Some?
            && Answer(t.table[SlotOf(key)], Owner(q), x.generation, key).value != load(x.content, q, key.id)
  {
    steps := FirstLookUp(load, w, p, key);
    hide IsRun, After, Live, SlotOf, Owner;
    SameOwnerIff(p, q);
    SlotKeepsAlive(After(load, w, steps), key);
  }
}
