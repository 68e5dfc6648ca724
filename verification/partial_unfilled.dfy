/**
 * Calls of a partial application that leave placeholders unfilled: the combined call is that of
 * a shorter application, without what goes unfilled and the positional values behind it.
 */
module PartialUnfilled {
  import opened CallArgs
  import opened PartialApplication
  import opened PartialCommutes
  import opened Wrappers

  /** No `?` among the first `k` entries goes unfilled by `v` values. */
  predicate Known<V>(entries: seq<PartialArg<V>>, k: nat, v: nat)
    requires k <= |entries|
  {
    k == 0 || (Known(entries, k - 1, v) && (entries[k - 1] == Placeholder(None) ==> Holes(entries, k - 1) < v))
  }

  /** Entry `k` still contributes: it is filled, and if it is positional, its position is known. */
  predicate Stays<V>(entries: seq<PartialArg<V>>, k: nat, v: nat)
    requires k < |entries|
  {
    && (entries[k].Placeholder? ==> Holes(entries, k) < v)
    && (Name(entries[k]).None? ==> Known(entries, k, v))
  }

  /** Those of the first `k` entries that stay. */
  function Kept<V>(entries: seq<PartialArg<V>>, k: nat, v: nat): (r: seq<PartialArg<V>>)
    requires k <= |entries|
    ensures |r| <= k
  {
    if k == 0 then [] else Kept(entries, k - 1, v) + if Stays(entries, k - 1, v) then [entries[k - 1]] else []
  }

  function AllKept<V>(entries: seq<PartialArg<V>>, v: nat): seq<PartialArg<V>> {
    Kept(entries, |entries|, v)
  }

  function Min(a: nat, b: nat): nat {
    if a < b then a else b
  }

  // ── Where a kept entry stands ─────────────────────────────────────────

  lemma {:induction false} KeptPrefix<V>(entries: seq<PartialArg<V>>, j: nat, k: nat, v: nat)
    requires j <= k <= |entries|
    ensures Kept(entries, j, v) <= Kept(entries, k, v)
    ensures j < k && Stays(entries, j, v) ==>
              |Kept(entries, j, v)| < |Kept(entries, k, v)| && Kept(entries, k, v)[|Kept(entries, j, v)|] == entries[j]
  {
    if j < k {
      KeptPrefix(entries, j, k - 1, v);
    }
  }

  lemma {:induction false} KeptFrom<V>(entries: seq<PartialArg<V>>, k: nat, v: nat, q: nat) returns (j: nat)
    requires k <= |entries| && q < |Kept(entries, k, v)|
    ensures j < k && Stays(entries, j, v) && |Kept(entries, j, v)| == q && Kept(entries, k, v)[q] == entries[j]
  {
    if q < |Kept(entries, k - 1, v)| {
      j := KeptFrom(entries, k - 1, v, q);
    } else {
      j := k - 1;
    }
  }

  lemma CountLast<V>(s: seq<PartialArg<V>>, e: PartialArg<V>)
    ensures Holes(s + [e], |s| + 1) == Holes(s, |s|) + if e.Placeholder? then 1 else 0
    ensures Positions(s + [e], |s| + 1) == Positions(s, |s|) + if Name(e).None? then 1 else 0
  {
    CountsOfPrefix(s + [e], |s|);
    assert (s + [e])[..|s|] == s;
  }

  lemma {:induction false} KeptCounts<V>(entries: seq<PartialArg<V>>, k: nat, v: nat)
    requires k <= |entries|
    ensures var kept := Kept(entries, k, v);
            && Holes(kept, |kept|) == Min(Holes(entries, k), v)
            && (Known(entries, k, v) ==> Positions(kept, |kept|) == Positions(entries, k))
  {
    if k > 0 {
      var before := Kept(entries, k - 1, v);
      KeptCounts(entries, k - 1, v);
      FilledIsKnown(entries, k - 1, v);
      CountLast(before, entries[k - 1]);
      if Stays(entries, k - 1, v) {
        assert Kept(entries, k, v) == before + [entries[k - 1]];
      } else {
        assert Kept(entries, k, v) == before;
      }
    }
  }

  /** A hole that is filled has only filled ones in front. */
  lemma {:induction false} FilledIsKnown<V>(entries: seq<PartialArg<V>>, k: nat, v: nat)
    requires k <= |entries|
    ensures Holes(entries, k) < v ==> Known(entries, k, v)
  {
    if k > 0 {
      FilledIsKnown(entries, k - 1, v);
    }
  }

  /** A kept entry is written for the same parameter, and draws the same value. */
  lemma KeptAt<V>(params: seq<Param>, entries: seq<PartialArg<V>>, k: nat, v: nat)
    requires k < |entries| && Stays(entries, k, v)
    ensures var kept, q := AllKept(entries, v), |Kept(entries, k, v)|;
            && q < |kept| && kept[q] == entries[k]
            && At(params, kept, q) == At(params, entries, k)
            && (entries[k].Placeholder? ==> Holes(kept, q) == Holes(entries, k))
  {
    var kept, before := AllKept(entries, v), Kept(entries, k, v);
    KeptPrefix(entries, k, |entries|, v);
    KeptCounts(entries, k, v);
    CountsOfPrefix(kept, |before|);
    assert kept[..|before|] == before;
  }

  lemma KeptWellFormed<V>(params: seq<Param>, bound: seq<PartialArg<V>>, v: nat)
    requires WellFormed(params, bound)
    ensures var kept := AllKept(Entries(bound), v);
            && !TakesRest(kept) && Entries(kept) == kept && WellFormed(params, kept)
  {
    hide At, Kept, Stays, Holes;
    var entries, kept := Entries(bound), AllKept(Entries(bound), v);
    forall q | 0 <= q < |kept|
      ensures !kept[q].Variadic? && (kept[q].Placeholder? ==> At(params, kept, q).Some?)
    {
      var k := KeptFrom(entries, |entries|, v, q);
      KeptAt(params, entries, k, v);
    }
    forall p, q | 0 <= p < q < |kept| && At(params, kept, p).Some?
      ensures At(params, kept, p) != At(params, kept, q)
    {
      var j := KeptFrom(entries, |entries|, v, p);
      var k := KeptFrom(entries, |entries|, v, q);
      KeptAt(params, entries, j, v);
      KeptAt(params, entries, k, v);
      EntriesApart(params, bound, j, k);
    }
  }

  // ── The combined call ─────────────────────────────────────────────────

  lemma StaysOne<V>(bound: seq<PartialArg<V>>, rest: seq<V>, known: bool, k: nat)
    requires k < |bound| && !bound[k].Variadic?
    requires (bound[k].Placeholder? ==> rest != []) && (Name(bound[k]).None? ==> known)
    ensures Combined(bound[k..], rest, [], known)
         == [MakeArg(bound[k].name, if bound[k].Given? then bound[k].value else rest[0])]
            + Combined(bound[k + 1..], if bound[k].Given? then rest else rest[1..], [], known)
  {
    assert bound[k..][0] == bound[k] && bound[k..][1..] == bound[k + 1..];
  }

  lemma DropsOne<V>(bound: seq<PartialArg<V>>, rest: seq<V>, known: bool, k: nat)
    requires k < |bound| && !bound[k].Variadic?
    requires bound[k].Placeholder? ==> rest == []
    requires bound[k].Given? ==> Name(bound[k]).None? && !known
    ensures Combined(bound[k..], rest, [], known)
         == Combined(bound[k + 1..], rest, [], known && bound[k] != Placeholder(None))
  {
    assert bound[k..][0] == bound[k] && bound[k..][1..] == bound[k + 1..];
  }

  lemma NothingLeft<V>(bound: seq<PartialArg<V>>, known: bool)
    ensures Combined<V>([], [], [], known) == []
    ensures bound == [Variadic] ==> Combined(bound, [], [], known) == []
  {
    if bound == [Variadic] {
      assert bound[1..] == [];
    }
  }

  /** With too few values, the combined call is that of what is kept. */
  lemma {:induction false} CombinedIsKept<V>(bound: seq<PartialArg<V>>, values: seq<V>, k: nat)
    requires forall j :: 0 <= j < |Entries(bound)| ==> !Entries(bound)[j].Variadic?
    requires k <= |Entries(bound)| && !Filled(bound, values)
    ensures |Kept(Entries(bound), k, |values|)| <= |AllKept(Entries(bound), |values|)|
    ensures var entries, v := Entries(bound), |values|;
            Combined(bound[k..], values[Min(Holes(entries, k), v)..], [], Known(entries, k, v))
            == Combined(AllKept(entries, v)[|Kept(entries, k, v)|..], values[Min(Holes(entries, k), v)..], [], true)
    decreases |bound| - k
  {
    hide Combined, Kept, Stays, Known, Holes;
    var entries, v := Entries(bound), |values|;
    var kept, q, rest := AllKept(entries, v), |Kept(entries, k, v)|, values[Min(Holes(entries, k), v)..];
    KeptPrefix(entries, k, |entries|, v);
    if k == |entries| {
      assert rest == [] && kept[q..] == [];
      assert bound[k..] == if TakesRest(bound) then [Variadic] else [];
      NothingLeft(bound[k..], Known(entries, k, v));
      NothingLeft(kept[q..], true);
    } else {
      KeptNext(entries, k, v);
      CombinedIsKept(bound, values, k + 1);
      if Stays(entries, k, v) {
        StaysOne(bound, rest, Known(entries, k, v), k);
        StaysOne(kept, rest, true, q);
        assert entries[k].Placeholder? ==> rest[1..] == values[Min(Holes(entries, k + 1), v)..];
      } else {
        DropsOne(bound, rest, Known(entries, k, v), k);
      }
    }
  }

  /** What one more entry changes. */
  lemma KeptNext<V>(entries: seq<PartialArg<V>>, k: nat, v: nat)
    requires k < |entries| && !entries[k].Variadic?
    ensures Holes(entries, k + 1) == Holes(entries, k) + if entries[k].Placeholder? then 1 else 0
    ensures Stays(entries, k, v) ==>
              && (entries[k].Placeholder? ==> Holes(entries, k) < v)
              && (Name(entries[k]).None? ==> Known(entries, k, v))
              && Known(entries, k + 1, v) == Known(entries, k, v)
              && |Kept(entries, k + 1, v)| == |Kept(entries, k, v)| + 1
    ensures !Stays(entries, k, v) ==>
              && (entries[k].Placeholder? ==> Holes(entries, k) >= v)
              && (entries[k].Given? ==> Name(entries[k]).None? && !Known(entries, k, v))
              && Known(entries, k + 1, v) == (Known(entries, k, v) && entries[k] != Placeholder(None))
              && Kept(entries, k + 1, v) == Kept(entries, k, v)
  {
    FilledIsKnown(entries, k, v);
  }

  lemma ReceivedIsKept<V>(params: seq<Param>, bound: seq<PartialArg<V>>, values: seq<V>)
    requires WellFormed(params, bound) && !Filled(bound, values)
    ensures WellFormed(params, AllKept(Entries(bound), |values|)) && Filled(AllKept(Entries(bound), |values|), values)
    ensures Received(bound, values) == Whole(AllKept(Entries(bound), |values|), values)
  {
    var entries, kept := Entries(bound), AllKept(Entries(bound), |values|);
    KeptCounts(entries, |entries|, |values|);
    KeptWellFormed(params, bound, |values|);
    hide WellFormed, Combined, Whole, Holes;
    ReceivedIsWhole(params, kept, values);
    PositionalsOfAsPositional(values);
    CombinedIsKept(bound, values, 0);
    StartOfAll(bound, values);
  }

  lemma StartOfAll<V>(bound: seq<PartialArg<V>>, values: seq<V>)
    ensures var entries, v := Entries(bound), |values|;
            && bound[0..] == bound && Known(entries, 0, v) && Kept(entries, 0, v) == []
            && values[Min(Holes(entries, 0), v)..] == values && AllKept(entries, v)[0..] == AllKept(entries, v)
  {
  }

  // ── What the parameters hold ──────────────────────────────────────────

  lemma KeptValue<V>(params: seq<Param>, bound: seq<PartialArg<V>>, values: seq<V>, k: nat)
    requires WellFormed(params, bound) && !Filled(bound, values)
    requires k < |Entries(bound)| && Stays(Entries(bound), k, |values|) && At(params, Entries(bound), k).Some?
    ensures var e, i := Entries(bound)[k], At(params, Entries(bound), k).value;
            && (e.Placeholder? ==>
                  Holes(Entries(bound), k) < |values|
                  && Bound(params, Received(bound, values), i) == Some(values[Holes(Entries(bound), k)]))
            && (e.Given? ==> Bound(params, Received(bound, values), i) == Some(e.value))
  {
    var entries, v := Entries(bound), |values|;
    ReceivedIsKept(params, bound, values);
    KeptWellFormed(params, bound, v);
    KeptAt(params, entries, k, v);
    hide Kept, Stays, Whole, Received, WellFormed, Bound, At, Holes;
    EntryAgrees(params, AllKept(entries, v), values, |Kept(entries, k, v)|);
  }

  /** No entry that stays is written for parameter `i`. */
  ghost predicate NoneStaysFor<V>(params: seq<Param>, entries: seq<PartialArg<V>>, v: nat, i: nat) {
    forall k :: 0 <= k < |entries| && Stays(entries, k, v) ==> At(params, entries, k) != Some(i)
  }

  lemma NoneKept<V>(params: seq<Param>, bound: seq<PartialArg<V>>, values: seq<V>, i: nat)
    requires WellFormed(params, bound) && !Filled(bound, values)
    requires NoneStaysFor(params, Entries(bound), |values|, i)
    ensures Bound(params, Received(bound, values), i) == None
  {
    var entries, v := Entries(bound), |values|;
    var kept := AllKept(entries, v);
    ReceivedIsKept(params, bound, values);
    KeptWellFormed(params, bound, v);
    hide Kept, Stays, Whole, Received, WellFormed, Bound, At, Holes;
    forall q | 0 <= q < |kept| ensures At(params, kept, q) != Some(i) {
      var k := KeptFrom(entries, |entries|, v, q);
      KeptAt(params, entries, k, v);
    }
    NothingBinds(params, kept, values, i);
  }

  /** What is written for the parameter of an entry that does not stay is that entry alone. */
  lemma GoneAlone<V>(params: seq<Param>, bound: seq<PartialArg<V>>, k: nat, v: nat)
    requires WellFormed(params, bound) && k < |Entries(bound)| && !Stays(Entries(bound), k, v)
    requires At(params, Entries(bound), k).Some?
    ensures NoneStaysFor(params, Entries(bound), v, At(params, Entries(bound), k).value)
  {
    hide At, Stays;
    forall j | 0 <= j < |Entries(bound)| && Stays(Entries(bound), j, v)
      ensures At(params, Entries(bound), j) != Some(At(params, Entries(bound), k).value)
    {
      EntriesApart(params, bound, k, j);
    }
  }

  lemma OpenUnfilled<V>(params: seq<Param>, bound: seq<PartialArg<V>>, values: seq<V>, j: nat)
    requires WellFormed(params, bound) && !Filled(bound, values) && j < |Open(params, bound, {}, 0)|
    ensures Bound(params, Received(bound, values), Open(params, bound, {}, 0)[j])
         == if j < |values| then Some(values[j]) else None
  {
    var entries := Entries(bound);
    OpenIs(params, bound);
    hide Open, WellFormed, HoleTargets, Bound, Received, At, Untaken, Taken, Known;
    var holes := HoleTargets(params, entries, 0);
    if j < |holes| {
      var k := HoleOfTarget(params, entries, 0, j);
      assert Holes(entries, k) == j;
      FilledIsKnown(entries, k, |values|);
      hide Holes;
      if j < |values| {
        KeptValue(params, bound, values, k);
      } else {
        GoneAlone(params, bound, k, |values|);
        NoneKept(params, bound, values, At(params, entries, k).value);
      }
    } else {
      RestUnwritten(params, bound, j - |holes|);
      hide Holes;
      NoneKept(params, bound, values, OpenRest(params, bound)[j - |holes|]);
    }
  }

  lemma RestUnwritten<V>(params: seq<Param>, bound: seq<PartialArg<V>>, t: nat)
    requires t < |OpenRest(params, bound)|
    ensures forall k :: 0 <= k < |Entries(bound)| ==> At(params, Entries(bound), k) != Some(OpenRest(params, bound)[t])
  {
    var entries := Entries(bound);
    var taken := Taken(params, entries, |entries|);
    UntakenIs(|params|, taken, t);
    TakenIff(params, entries, |entries|, Untaken(|params|, taken)[t]);
  }

  /** No positional value that has a parameter stands behind a `?` that `v` values leave unfilled. */
  ghost predicate NoneDropped<V>(params: seq<Param>, entries: seq<PartialArg<V>>, v: nat) {
    forall k :: 0 <= k < |entries| && entries[k].Given? && entries[k].name.None? && At(params, entries, k).Some? ==>
      Known(entries, k, v)
  }

  /**
   * With too few values for the holes, the two ways round agree exactly when no positional value
   * is dropped behind an unfilled `?`.
   */
  lemma UnfilledCommutesIff<V>(params: seq<Param>, bound: seq<PartialArg<V>>, values: seq<V>)
    requires WellFormed(params, bound) && !Filled(bound, values)
    ensures Commutes(params, bound, values) <==> NoneDropped(params, Entries(bound), |values|)
  {
    var entries := Entries(bound);
    hide Open, WellFormed, Filled, Bound, Received, At, Holes, Known;
    forall j: nat ensures OpenSame(params, bound, values, j) {
      if j < |Open(params, bound, {}, 0)| {
        OpenUnfilled(params, bound, values, j);
        PositionalBound(Pick(params, Open(params, bound, {}, 0)), values, j);
      }
    }
    forall i: nat ensures UntouchedSame(params, bound, values, i) {
      UntouchedUnfilled(params, bound, values, i);
    }
    forall k: nat
      ensures GivenSame(params, bound, values, k)
         <==> (k < |entries| && entries[k].Given? && entries[k].name.None? && At(params, entries, k).Some? ==>
                 Known(entries, k, |values|))
    {
      if k < |entries| && entries[k].Given? && At(params, entries, k).Some? {
        if Stays(entries, k, |values|) {
          KeptValue(params, bound, values, k);
        } else {
          GoneAlone(params, bound, k, |values|);
          NoneKept(params, bound, values, At(params, entries, k).value);
        }
      }
    }
  }

  lemma UntouchedUnfilled<V>(params: seq<Param>, bound: seq<PartialArg<V>>, values: seq<V>, i: nat)
    requires WellFormed(params, bound) && !Filled(bound, values)
    ensures UntouchedSame(params, bound, values, i)
  {
    var entries := Entries(bound);
    OpenIs(params, bound);
    hide Open, Bound, Received, HoleTargets, Untaken, Taken, At, Holes;
    if i !in Open(params, bound, {}, 0)
       && forall k :: 0 <= k < |entries| && entries[k].Given? ==> At(params, entries, k) != Some(i) {
      forall k | 0 <= k < |entries| ensures At(params, entries, k) != Some(i) {
        if entries[k].Placeholder? {
          HoleTargetAt(params, entries, 0, k);
          assert At(params, entries, k).value in HoleTargets(params, entries, 0);
        }
      }
      NoneKept(params, bound, values, i);
    }
  }

  /** `f(?, ?)(x)` is `f(x)`, and `f(?, v)()` is `f()`, which loses the value given. */
  lemma UnfilledCalls<V>(v: V, x: V)
    ensures Received([Placeholder(None), Placeholder(None)], [x]) == [Positional(x)]
    ensures Received([Placeholder(None), Given(None, v)], []) == []
  {
    PositionalsOfAsPositional([x]);
    PositionalsOfAsPositional<V>([]);
    var holes: seq<PartialArg<V>> := [Placeholder(None), Placeholder(None)];
    assert holes[1..] == [Placeholder(None)] && holes[1..][1..] == [] && [x][1..] == [];
    assert Combined(holes[1..], [], [], true) == [];
    var given := [Placeholder(None), Given(None, v)];
    assert given[1..] == [Given(None, v)] && given[1..][1..] == [];
    assert Combined(given[1..], [], [], false) == [];
  }
}
