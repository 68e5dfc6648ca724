/**
 * The two ways round from a partial application to the wrapped call's parameters: binding the
 * combined call, or binding the call to the open parameters. They agree on every positional
 * call that fills the holes exactly when `...` hands its values to the parameters left open.
 */
module PartialCommutes {
  import opened CallArgs
  import opened PartialApplication
  import opened Wrappers

  /** Entries before `k` that are placeholders, and that are positional. */
  function Holes<V>(bound: seq<PartialArg<V>>, k: nat): (r: nat)
    requires k <= |bound|
    ensures r <= k
  {
    if k == 0 then 0 else Holes(bound, k - 1) + if bound[k - 1].Placeholder? then 1 else 0
  }

  function Positions<V>(bound: seq<PartialArg<V>>, k: nat): (r: nat)
    requires k <= |bound|
    ensures r <= k
  {
    if k == 0 then 0 else Positions(bound, k - 1) + if Name(bound[k - 1]).None? then 1 else 0
  }

  function At<V>(params: seq<Param>, bound: seq<PartialArg<V>>, k: nat): (r: Option<nat>)
    requires k < |bound|
    ensures r.Some? ==> r.value < |params|
  {
    EntryAt(params, bound[k], Positions(bound, k))
  }

  predicate TakesRest<V>(bound: seq<PartialArg<V>>) {
    bound != [] && bound[|bound| - 1].Variadic?
  }

  /** The entries in front of a trailing `...`, if any. */
  function Entries<V>(bound: seq<PartialArg<V>>): (r: seq<PartialArg<V>>) {
    if TakesRest(bound) then bound[..|bound| - 1] else bound
  }

  ghost predicate HolesHaveTargets<V>(params: seq<Param>, entries: seq<PartialArg<V>>) {
    forall k :: 0 <= k < |entries| && entries[k].Placeholder? ==> At(params, entries, k).Some?
  }

  /** `...` only at the end, every placeholder written for some parameter, no parameter written for twice. */
  ghost predicate WellFormed<V>(params: seq<Param>, bound: seq<PartialArg<V>>) {
    var entries := Entries(bound);
    && (forall k :: 0 <= k < |entries| ==> !entries[k].Variadic?)
    && HolesHaveTargets(params, entries)
    && (forall j, k :: 0 <= j < k < |entries| && At(params, entries, j).Some? ==>
          At(params, entries, j) != At(params, entries, k))
  }

  /** Some entry is written for parameter `i`. */
  ghost predicate Written<V>(params: seq<Param>, entries: seq<PartialArg<V>>, i: nat) {
    exists k :: 0 <= k < |entries| && At(params, entries, k) == Some(i)
  }

  /** Entry `k` is named and written for a parameter in front of parameter `i`. */
  ghost predicate NamedBefore<V>(params: seq<Param>, bound: seq<PartialArg<V>>, k: nat, i: nat) {
    && k < |Entries(bound)| && Name(Entries(bound)[k]).Some?
    && At(params, Entries(bound), k).Some? && At(params, Entries(bound), k).value < i < |params|
  }

  /** With `...`, no named entry is written for a parameter in front of one that no entry is written for. */
  ghost predicate NoneDisplaced<V>(params: seq<Param>, bound: seq<PartialArg<V>>) {
    TakesRest(bound) ==>
      forall k: nat, i: nat :: NamedBefore(params, bound, k, i) ==> Written(params, Entries(bound), i)
  }

  /** Every hole has a value, and the values behind them are the rest. */
  predicate Filled<V>(bound: seq<PartialArg<V>>, values: seq<V>) {
    Holes(Entries(bound), |Entries(bound)|) <= |values|
  }

  /** The entries as arguments, the holes filled with the call's values in order. */
  function Fill<V>(entries: seq<PartialArg<V>>, values: seq<V>): (r: seq<Arg<V>>)
    requires forall k :: 0 <= k < |entries| ==> !entries[k].Variadic?
    requires Holes(entries, |entries|) <= |values|
    ensures |r| == |entries|
    ensures forall k :: 0 <= k < |r| ==>
              (entries[k].Placeholder? ==> Holes(entries, k) < |values|) &&
              r[k] == MakeArg(entries[k].name,
                              if entries[k].Given? then entries[k].value else values[Holes(entries, k)])
  {
    if entries == [] then []
    else
      var last := |entries| - 1;
      CountsOfPrefix(entries, last);
      Fill(entries[..last], values)
      + [MakeArg(entries[last].name,
                 if entries[last].Given? then entries[last].value else values[Holes(entries, last)])]
  }

  lemma {:induction false} CountsOfPrefix<V>(bound: seq<PartialArg<V>>, n: nat)
    requires n <= |bound|
    ensures forall k :: 0 <= k <= n ==>
              Holes(bound[..n], k) == Holes(bound, k) && Positions(bound[..n], k) == Positions(bound, k)
  {
    forall k: nat | k <= n
      ensures Holes(bound[..n], k) == Holes(bound, k) && Positions(bound[..n], k) == Positions(bound, k)
    {
      CountOfPrefix(bound, n, k);
    }
  }

  lemma {:induction false} CountOfPrefix<V>(bound: seq<PartialArg<V>>, n: nat, k: nat)
    requires k <= n <= |bound|
    ensures Holes(bound[..n], k) == Holes(bound, k) && Positions(bound[..n], k) == Positions(bound, k)
  {
    if k > 0 {
      CountOfPrefix(bound, n, k - 1);
    }
  }

  lemma {:induction false} HolesGrow<V>(bound: seq<PartialArg<V>>, j: nat, k: nat)
    requires j <= k <= |bound|
    ensures Holes(bound, j) <= Holes(bound, k)
    ensures j < k && bound[j].Placeholder? ==> Holes(bound, j) < Holes(bound, k)
    ensures k == j + 1 ==> Holes(bound, k) == Holes(bound, j) + if bound[j].Placeholder? then 1 else 0
  {
    if j < k {
      HolesGrow(bound, j, k - 1);
    }
  }

  /** What the combined call is when the call is positional and fills every hole. */
  function Whole<V>(bound: seq<PartialArg<V>>, values: seq<V>): seq<Arg<V>>
    requires forall k :: 0 <= k < |Entries(bound)| ==> !Entries(bound)[k].Variadic?
    requires Holes(Entries(bound), |Entries(bound)|) <= |values|
  {
    var entries := Entries(bound);
    Fill(entries, values) + if TakesRest(bound) then AsPositional(values[Holes(entries, |entries|)..]) else []
  }

  lemma {:induction false} CombinedFrom<V>(bound: seq<PartialArg<V>>, values: seq<V>, k: nat)
    requires k <= |Entries(bound)|
    requires forall j :: 0 <= j < |Entries(bound)| ==> !Entries(bound)[j].Variadic?
    requires Holes(Entries(bound), |Entries(bound)|) <= |values|
    requires Holes(Entries(bound), k) <= |values|
    ensures Combined(bound[k..], values[Holes(Entries(bound), k)..], [], true) == Whole(bound, values)[k..]
    decreases |bound| - k
  {
    hide Combined, Whole, Fill, Holes;
    var entries := Entries(bound);
    if k < |entries| {
      CombinedNext(bound, values, k);
      var whole := Whole(bound, values);
      HolesGrow(entries, k + 1, |entries|);
      CombinedFrom(bound, values, k + 1);
      assert whole[k..] == [whole[k]] + whole[k + 1..];
    } else {
      CombinedEnd(bound, values);
    }
  }

  lemma CombinedEnd<V>(bound: seq<PartialArg<V>>, values: seq<V>)
    requires forall j :: 0 <= j < |Entries(bound)| ==> !Entries(bound)[j].Variadic?
    requires Holes(Entries(bound), |Entries(bound)|) <= |values|
    ensures Combined(bound[|Entries(bound)|..], values[Holes(Entries(bound), |Entries(bound)|)..], [], true)
         == Whole(bound, values)[|Entries(bound)|..]
  {
    var k := |Entries(bound)|;
    if TakesRest(bound) {
      assert bound[k..] == [Variadic];
      assert bound[k..][1..] == [];
    } else {
      assert bound[k..] == [];
    }
  }

  lemma WholeEntry<V>(bound: seq<PartialArg<V>>, values: seq<V>, k: nat)
    requires k < |Entries(bound)|
    requires forall j :: 0 <= j < |Entries(bound)| ==> !Entries(bound)[j].Variadic?
    requires Holes(Entries(bound), |Entries(bound)|) <= |values|
    ensures |Whole(bound, values)| > k && bound[k] == Entries(bound)[k]
    ensures bound[k].Placeholder? ==> Holes(Entries(bound), k) < |values|
    ensures Whole(bound, values)[k]
         == MakeArg(bound[k].name, if bound[k].Given? then bound[k].value else values[Holes(Entries(bound), k)])
  {
    assert Whole(bound, values)[k] == Fill(Entries(bound), values)[k];
  }

  lemma CombinedOne<V>(bound: seq<PartialArg<V>>, rest: seq<V>, k: nat)
    requires k < |bound| && !bound[k].Variadic? && (bound[k].Placeholder? ==> rest != [])
    ensures Combined(bound[k..], rest, [], true)
         == [MakeArg(bound[k].name, if bound[k].Given? then bound[k].value else rest[0])]
            + Combined(bound[k + 1..], if bound[k].Given? then rest else rest[1..], [], true)
  {
    assert bound[k..][0] == bound[k] && bound[k..][1..] == bound[k + 1..];
  }

  /** Entry `k` contributes the argument that stands at `k`, and a hole takes the next value. */
  lemma CombinedNext<V>(bound: seq<PartialArg<V>>, values: seq<V>, k: nat)
    requires k < |Entries(bound)|
    requires forall j :: 0 <= j < |Entries(bound)| ==> !Entries(bound)[j].Variadic?
    requires Holes(Entries(bound), |Entries(bound)|) <= |values|
    ensures Holes(Entries(bound), k) <= Holes(Entries(bound), k + 1) <= |values|
    ensures |Whole(bound, values)| > k
    ensures Combined(bound[k..], values[Holes(Entries(bound), k)..], [], true)
         == [Whole(bound, values)[k]] + Combined(bound[k + 1..], values[Holes(Entries(bound), k + 1)..], [], true)
  {
    var entries := Entries(bound);
    HolesGrow(entries, k, k + 1);
    HolesGrow(entries, k, |entries|);
    HolesGrow(entries, k + 1, |entries|);
    WholeEntry(bound, values, k);
    hide Combined, Whole, Holes;
    var rest := values[Holes(entries, k)..];
    CombinedOne(bound, rest, k);
    if entries[k].Placeholder? {
      assert rest[1..] == values[Holes(entries, k + 1)..];
    }
  }

  // Where the arguments of the combined call go.

  lemma {:induction false} WholePositions<V>(bound: seq<PartialArg<V>>, values: seq<V>, k: nat)
    requires forall j :: 0 <= j < |Entries(bound)| ==> !Entries(bound)[j].Variadic?
    requires Holes(Entries(bound), |Entries(bound)|) <= |values|
    requires k <= |Whole(bound, values)|
    ensures PositionalCount(Whole(bound, values)[..k])
         == if k <= |Entries(bound)| then Positions(Entries(bound), k)
            else Positions(Entries(bound), |Entries(bound)|) + k - |Entries(bound)|
  {
    if k > 0 {
      var whole, entries := Whole(bound, values), Entries(bound);
      WholePositions(bound, values, k - 1);
      assert whole[..k][..k - 1] == whole[..k - 1] && whole[..k][k - 1] == whole[k - 1];
      if k <= |entries| {
        WholeEntry(bound, values, k - 1);
        hide Whole, Fill, Holes;
        assert whole[k - 1].Positional? <==> Name(entries[k - 1]).None?;
      } else {
        hide Fill, Holes;
        assert whole[k - 1].Positional?;
      }
    }
  }

  lemma {:induction false} NthEntry<V>(entries: seq<PartialArg<V>>, k: nat, p: nat) returns (j: nat)
    requires k <= |entries| && p < Positions(entries, k)
    ensures j < k && Name(entries[j]).None? && Positions(entries, j) == p
  {
    if p == Positions(entries, k - 1) {
      j := k - 1;
    } else {
      j := NthEntry(entries, k - 1, p);
    }
  }

  lemma EntriesApart<V>(params: seq<Param>, bound: seq<PartialArg<V>>, j: nat, k: nat)
    requires WellFormed(params, bound) && j < |Entries(bound)| && k < |Entries(bound)| && j != k
    requires At(params, Entries(bound), j).Some?
    ensures At(params, Entries(bound), j) != At(params, Entries(bound), k)
  {
  }

  lemma PositionDeclared<V>(params: seq<Param>, entries: seq<PartialArg<V>>, k: nat)
    requires k < |entries| && Name(entries[k]).None? && At(params, entries, k).Some?
    ensures Positions(entries, k) < |params|
         || exists j: nat :: j < k && At(params, entries, j) == At(params, entries, k)
  {
    if Positions(entries, k) >= |params| {
      var j := NthEntry(entries, k, |params| - 1);
      assert At(params, entries, j) == At(params, entries, k);
    }
  }

  lemma PositionTaken<V>(params: seq<Param>, entries: seq<PartialArg<V>>, k: nat, p: nat) returns (j: nat)
    requires k <= |entries| && p < Positions(entries, k) && p < |params|
    ensures j < k && Name(entries[j]).None? && At(params, entries, j) == Some(p)
  {
    j := NthEntry(entries, k, p);
  }

  /**
   * Entry `k` fills the parameter it is written for; one written for none is dropped, or goes
   * to a parameter that has its value already.
   */
  lemma WholeTarget<V>(params: seq<Param>, bound: seq<PartialArg<V>>, values: seq<V>, k: nat)
    requires WellFormed(params, bound) && Filled(bound, values) && k < |Entries(bound)|
    ensures var at, target := At(params, Entries(bound), k), Target(params, Whole(bound, values), k);
            && (at.Some? ==> target == at)
            && (at.None? && target.Some? ==>
                  Name(Entries(bound)[k]).None? && exists j: nat :: j < k && At(params, Entries(bound), j) == target)
  {
    WholePositions(bound, values, k);
    WholeEntry(bound, values, k);
    var entries := Entries(bound);
    hide Whole, Fill, FirstVariadic, FirstNamed, WellFormed;
    if Name(entries[k]).None? {
      var p := Positions(entries, k);
      if At(params, entries, k).Some? {
        forall j: nat | j < k ensures At(params, entries, j) != At(params, entries, k) {
          EntriesApart(params, bound, k, j);
        }
        PositionDeclared(params, entries, k);
      } else if FirstVariadic(params).Some? {
        var j := PositionTaken(params, entries, k, FirstVariadic(params).value);
      }
    }
  }

  /** What `...` takes goes to the parameters from the number of positional entries on, in order. */
  lemma RestTarget<V>(params: seq<Param>, bound: seq<PartialArg<V>>, values: seq<V>, k: nat)
    requires WellFormed(params, bound) && Filled(bound, values)
    requires |Entries(bound)| <= k < |Whole(bound, values)|
    ensures Target(params, Whole(bound, values), k)
         == PositionalTarget(params, Positions(Entries(bound), |Entries(bound)|) + k - |Entries(bound)|)
    ensures Whole(bound, values)[k].Positional?
  {
    WholePositions(bound, values, k);
    hide Fill, PositionalTarget;
  }

  lemma WholeRest<V>(bound: seq<PartialArg<V>>, values: seq<V>, k: nat)
    requires forall j :: 0 <= j < |Entries(bound)| ==> !Entries(bound)[j].Variadic?
    requires Filled(bound, values) && TakesRest(bound) && k >= |Entries(bound)|
    ensures var j := k - |Entries(bound)| + Holes(Entries(bound), |Entries(bound)|);
            (k < |Whole(bound, values)| <==> j < |values|)
            && (k < |Whole(bound, values)| ==> Whole(bound, values)[k].value == values[j])
  {
    hide Fill;
  }

  // The open parameters.

  function Taken<V>(params: seq<Param>, entries: seq<PartialArg<V>>, k: nat): set<nat>
    requires k <= |entries|
  {
    if k == 0 then {}
    else
      var at := At(params, entries, k - 1);
      Taken(params, entries, k - 1) + if at.Some? then {at.value} else {}
  }

  lemma {:induction false} TakenIff<V>(params: seq<Param>, entries: seq<PartialArg<V>>, k: nat, i: nat)
    requires k <= |entries|
    ensures i in Taken(params, entries, k) <==> exists j :: 0 <= j < k && At(params, entries, j) == Some(i)
  {
    hide At;
    if k > 0 {
      TakenIff(params, entries, k - 1, i);
      if i in Taken(params, entries, k) && i !in Taken(params, entries, k - 1) {
        assert At(params, entries, k - 1) == Some(i);
      }
    }
  }

  /** The parameters of the holes from entry `k` on. */
  function HoleTargets<V>(params: seq<Param>, entries: seq<PartialArg<V>>, k: nat): seq<nat>
    requires k <= |entries| && HolesHaveTargets(params, entries)
    decreases |entries| - k
  {
    if k == |entries| then []
    else (if entries[k].Placeholder? then [At(params, entries, k).value] else [])
         + HoleTargets(params, entries, k + 1)
  }

  lemma {:induction false} HoleTargetAt<V>(params: seq<Param>, entries: seq<PartialArg<V>>, k: nat, j: nat)
    requires k <= j < |entries| && entries[j].Placeholder?
    requires HolesHaveTargets(params, entries)
    ensures Holes(entries, k) <= Holes(entries, j)
    ensures Holes(entries, j) - Holes(entries, k) < |HoleTargets(params, entries, k)|
    ensures HoleTargets(params, entries, k)[Holes(entries, j) - Holes(entries, k)] == At(params, entries, j).value
    decreases j - k
  {
    if k < j {
      HoleTargetAt(params, entries, k + 1, j);
    }
  }

  lemma {:induction false} HoleOfTarget<V>(params: seq<Param>, entries: seq<PartialArg<V>>, k: nat, q: nat)
    returns (j: nat)
    requires k <= |entries| && HolesHaveTargets(params, entries)
    requires q < |HoleTargets(params, entries, k)|
    ensures k <= j < |entries| && entries[j].Placeholder? && Holes(entries, j) == Holes(entries, k) + q
    ensures HoleTargets(params, entries, k)[q] == At(params, entries, j).value
    decreases |entries| - k
  {
    if entries[k].Placeholder? {
      if q == 0 {
        j := k;
      } else {
        j := HoleOfTarget(params, entries, k + 1, q - 1);
      }
    } else {
      j := HoleOfTarget(params, entries, k + 1, q);
    }
  }

  lemma {:induction false} HoleCount<V>(params: seq<Param>, entries: seq<PartialArg<V>>, k: nat)
    requires k <= |entries| && HolesHaveTargets(params, entries)
    ensures |HoleTargets(params, entries, k)| == Holes(entries, |entries|) - Holes(entries, k)
    decreases |entries| - k
  {
    hide At, Holes;
    if k < |entries| {
      HolesGrow(entries, k, k + 1);
      HoleCount(params, entries, k + 1);
    }
  }

  function OpenRest<V>(params: seq<Param>, bound: seq<PartialArg<V>>): seq<nat> {
    if TakesRest(bound) then Untaken(|params|, Taken(params, Entries(bound), |Entries(bound)|)) else []
  }

  lemma OpenStep<V>(params: seq<Param>, bound: seq<PartialArg<V>>, entries: seq<PartialArg<V>>, k: nat)
    requires k < |entries| <= |bound| && bound[k] == entries[k] && !bound[k].Variadic?
    requires bound[k].Placeholder? ==> At(params, entries, k).Some?
    requires At(params, entries, k).Some? ==> At(params, entries, k).value !in Taken(params, entries, k)
    ensures Open(params, bound[k..], Taken(params, entries, k), Positions(entries, k))
         == (if bound[k].Placeholder? then [At(params, entries, k).value] else [])
            + Open(params, bound[k + 1..], Taken(params, entries, k + 1), Positions(entries, k + 1))
  {
    hide Open, EntryAt;
    OpenNext(params, bound, k, Taken(params, entries, k), Positions(entries, k));
    assert At(params, entries, k).None? ==> Taken(params, entries, k + 1) == Taken(params, entries, k);
  }

  lemma NotTakenYet<V>(params: seq<Param>, bound: seq<PartialArg<V>>, k: nat)
    requires WellFormed(params, bound) && k < |Entries(bound)| && At(params, Entries(bound), k).Some?
    ensures At(params, Entries(bound), k).value !in Taken(params, Entries(bound), k)
  {
    TakenIff(params, Entries(bound), k, At(params, Entries(bound), k).value);
    forall j: nat | j < k ensures At(params, Entries(bound), j) != At(params, Entries(bound), k) {
      EntriesApart(params, bound, k, j);
    }
  }

  lemma {:induction false} OpenFrom<V>(params: seq<Param>, bound: seq<PartialArg<V>>, k: nat)
    requires WellFormed(params, bound) && k <= |Entries(bound)|
    ensures Open(params, bound[k..], Taken(params, Entries(bound), k), Positions(Entries(bound), k))
         == HoleTargets(params, Entries(bound), k) + OpenRest(params, bound)
    decreases |bound| - k
  {
    hide Open, At, Taken, Positions;
    var entries := Entries(bound);
    if k < |entries| {
      if At(params, entries, k).Some? {
        NotTakenYet(params, bound, k);
      }
      OpenStep(params, bound, entries, k);
      OpenFrom(params, bound, k + 1);
      assert HoleTargets(params, entries, k)
          == (if entries[k].Placeholder? then [At(params, entries, k).value] else [])
             + HoleTargets(params, entries, k + 1);
    } else {
      hide HoleTargets;
      OpenEnd(params, bound, Taken(params, entries, k), Positions(entries, k));
      HoleCount(params, entries, |entries|);
    }
  }

  lemma OpenEnd<V>(params: seq<Param>, bound: seq<PartialArg<V>>, taken: set<nat>, position: nat)
    ensures Open(params, bound[|Entries(bound)|..], taken, position)
         == if TakesRest(bound) then Untaken(|params|, taken) else []
  {
    if TakesRest(bound) {
      assert bound[|Entries(bound)|..] == [Variadic];
    } else {
      assert bound[|Entries(bound)|..] == [];
    }
  }

  /** The open parameters: those of the holes, and behind `...` all that no entry is written for. */
  lemma OpenIs<V>(params: seq<Param>, bound: seq<PartialArg<V>>)
    requires WellFormed(params, bound)
    ensures Open(params, bound, {}, 0) == HoleTargets(params, Entries(bound), 0) + OpenRest(params, bound)
    ensures |HoleTargets(params, Entries(bound), 0)| == Holes(Entries(bound), |Entries(bound)|)
  {
    hide Open, At, HoleTargets, Untaken;
    assert bound[0..] == bound;
    OpenFrom(params, bound, 0);
    HoleCount(params, Entries(bound), 0);
  }

  // Where an untaken parameter stands among the untaken ones.

  lemma {:induction false} UntakenAt(n: nat, taken: set<nat>, i: nat)
    requires i < n && i !in taken
    ensures |Untaken(i, taken)| < |Untaken(n, taken)|
    ensures Untaken(n, taken)[|Untaken(i, taken)|] == i
  {
    if i < n - 1 {
      UntakenAt(n - 1, taken, i);
    }
  }

  lemma {:induction false} UntakenIs(n: nat, taken: set<nat>, t: nat)
    requires t < |Untaken(n, taken)|
    ensures var i := Untaken(n, taken)[t];
            i < n && i !in taken && |Untaken(i, taken)| == t
  {
    if t < |Untaken(n - 1, taken)| {
      UntakenIs(n - 1, taken, t);
    }
  }

  lemma {:induction false} UntakenFrom(n: nat, taken: set<nat>, m: nat)
    requires forall i :: 0 <= i < n ==> (i in taken <==> i < m)
    ensures |Untaken(n, taken)| == if n > m then n - m else 0
    ensures forall t :: 0 <= t < n - m ==> Untaken(n, taken)[t] == m + t
  {
    if n > 0 {
      UntakenFrom(n - 1, taken, m);
    }
  }

  lemma {:induction false} UntakenFewer(i: nat, taken: set<nat>, p: nat)
    requires forall x: nat :: x < p && x < i ==> x in taken
    ensures |Untaken(i, taken)| <= if i > p then i - p else 0
  {
    if i > 0 {
      UntakenFewer(i - 1, taken, p);
    }
  }

  lemma {:induction false} UntakenSkips(i: nat, taken: set<nat>, p: nat, a: nat)
    requires forall x: nat :: x < p ==> x in taken
    requires p <= a < i && a in taken
    ensures |Untaken(i, taken)| < i - p
  {
    if a == i - 1 {
      UntakenFewer(a, taken, p);
    } else {
      UntakenSkips(i - 1, taken, p, a);
    }
  }

  // The theorem, parameter by parameter.

  lemma {:induction false} AllPositionalCount<V>(values: seq<V>, k: nat)
    requires k <= |values|
    ensures PositionalCount(AsPositional(values)[..k]) == k
  {
    if k > 0 {
      AllPositionalCount(values, k - 1);
      assert AsPositional(values)[..k][..k - 1] == AsPositional(values)[..k - 1];
    }
  }

  lemma PositionalBound<V>(params: seq<Param>, values: seq<V>, i: nat)
    requires i < |params|
    ensures Bound(params, AsPositional(values), i) == if i < |values| then Some(values[i]) else None
  {
    var args := AsPositional(values);
    forall k: nat | k < |args| ensures Target(params, args, k) == PositionalTarget(params, k) {
      AllPositionalCount(values, k);
    }
    BoundNoneIff(params, args, i);
    if i < |values| {
      assert Binds(params, args, i, i);
      BoundByBinder(params, args, i, i);
    } else {
      forall k: nat | k < |args| ensures Target(params, args, k) != Some(i) {
        assert k < |params|;
      }
    }
  }

  /** The parameter of entry `k` gets what stands at `k` in the combined call. */
  lemma EntryBinds<V>(params: seq<Param>, bound: seq<PartialArg<V>>, values: seq<V>, k: nat, i: nat)
    requires WellFormed(params, bound) && Filled(bound, values)
    requires k < |Entries(bound)| && At(params, Entries(bound), k) == Some(i)
    ensures Bound(params, Whole(bound, values), i) == Some(Whole(bound, values)[k].value)
  {
    var whole := Whole(bound, values);
    WholeTarget(params, bound, values, k);
    WholeEntry(bound, values, k);
    hide Whole, Fill, WellFormed, Target;
    forall l: nat | l < |whole| && l != k && Target(params, whole, l) == Some(i)
      ensures whole[l].Positional? && (whole[k].Named? || k < l)
    {
      if l < |Entries(bound)| {
        EntryElsewhere(params, bound, values, k, l, i);
      } else {
        RestTarget(params, bound, values, l);
      }
    }
    assert Binds(params, whole, i, k);
    BoundByBinder(params, whole, i, k);
  }

  lemma EntryElsewhere<V>(params: seq<Param>, bound: seq<PartialArg<V>>, values: seq<V>, k: nat, l: nat, i: nat)
    requires WellFormed(params, bound) && Filled(bound, values)
    requires k < |Entries(bound)| && l < |Entries(bound)| && l != k
    requires At(params, Entries(bound), k) == Some(i) == Target(params, Whole(bound, values), l)
    ensures Whole(bound, values)[l].Positional? && k < l
  {
    hide Target, Fill, At, Holes;
    WholeEntry(bound, values, l);
    hide Whole;
    WholeTarget(params, bound, values, l);
    EntriesApart(params, bound, k, l);
    var j: nat :| j < l && At(params, Entries(bound), j) == Some(i);
    if j != k {
      EntriesApart(params, bound, k, j);
    }
  }

  /** No entry's argument goes to a parameter no entry is written for. */
  lemma UnwrittenTarget<V>(params: seq<Param>, bound: seq<PartialArg<V>>, values: seq<V>, k: nat, i: nat)
    requires WellFormed(params, bound) && Filled(bound, values) && k < |Entries(bound)|
    requires !Written(params, Entries(bound), i)
    ensures k < |Whole(bound, values)| && Target(params, Whole(bound, values), k) != Some(i)
  {
    WholeEntry(bound, values, k);
    WholeTarget(params, bound, values, k);
  }

  lemma PastPositions<V>(params: seq<Param>, entries: seq<PartialArg<V>>, i: nat)
    requires i < |params| && !Written(params, entries, i)
    ensures i >= Positions(entries, |entries|)
  {
    if i < Positions(entries, |entries|) {
      var j := PositionTaken(params, entries, |entries|, i);
    }
  }

  /** Behind `...`, a parameter no entry is written for gets the value in its own place, if there is one. */
  lemma RestBinds<V>(params: seq<Param>, bound: seq<PartialArg<V>>, values: seq<V>, i: nat)
    requires WellFormed(params, bound) && Filled(bound, values) && TakesRest(bound)
    requires i < |params| && !Written(params, Entries(bound), i)
    ensures i >= Positions(Entries(bound), |Entries(bound)|)
    ensures var j := Holes(Entries(bound), |Entries(bound)|) + i - Positions(Entries(bound), |Entries(bound)|);
            Bound(params, Whole(bound, values), i) == if j < |values| then Some(values[j]) else None
  {
    var whole, m := Whole(bound, values), |Entries(bound)|;
    PastPositions(params, Entries(bound), i);
    var k := m + i - Positions(Entries(bound), m);
    WholeRest(bound, values, k);
    hide Whole, Fill, WellFormed, Target, Written, At, Holes, Positions, Bound;
    forall l: nat | l < |whole| && Target(params, whole, l) == Some(i) ensures k <= l && whole[l].Positional? {
      RestReaches(params, bound, values, i, l);
    }
    if k < |whole| {
      RestReaches(params, bound, values, i, k);
    }
    FirstPositionalBinds(params, whole, i, k);
  }

  /** When only positional arguments from `k` on go to parameter `i`, and `k` itself does, it holds that one. */
  lemma FirstPositionalBinds<V>(params: seq<Param>, args: seq<Arg<V>>, i: nat, k: nat)
    requires forall l: nat :: l < |args| && Target(params, args, l) == Some(i) ==> k <= l && args[l].Positional?
    requires k < |args| ==> Target(params, args, k) == Some(i)
    ensures Bound(params, args, i) == if k < |args| then Some(args[k].value) else None
  {
    hide Target, Bound;
    BoundNoneIff(params, args, i);
    if k < |args| {
      assert Binds(params, args, i, k);
      BoundByBinder(params, args, i, k);
    }
  }

  /** Argument `l` of the combined call reaches parameter `i` from its own place on only, and there it does. */
  lemma RestReaches<V>(params: seq<Param>, bound: seq<PartialArg<V>>, values: seq<V>, i: nat, l: nat)
    requires WellFormed(params, bound) && Filled(bound, values)
    requires i < |params| && !Written(params, Entries(bound), i) && l < |Whole(bound, values)|
    requires i >= Positions(Entries(bound), |Entries(bound)|)
    ensures var k := |Entries(bound)| + i - Positions(Entries(bound), |Entries(bound)|);
            && (Target(params, Whole(bound, values), l) == Some(i) ==> k <= l && Whole(bound, values)[l].Positional?)
            && (l == k ==> Target(params, Whole(bound, values), l) == Some(i) && Whole(bound, values)[l].Positional?)
  {
    hide Whole, Fill, WellFormed, Target, Written, At, Holes, Positions;
    if l < |Entries(bound)| {
      UnwrittenTarget(params, bound, values, l, i);
    } else {
      RestTarget(params, bound, values, l);
    }
  }

  /** Without `...`, a parameter no entry is written for stays empty. */
  lemma NothingBinds<V>(params: seq<Param>, bound: seq<PartialArg<V>>, values: seq<V>, i: nat)
    requires WellFormed(params, bound) && Filled(bound, values)
    requires !TakesRest(bound) && !Written(params, Entries(bound), i)
    ensures Bound(params, Whole(bound, values), i) == None
  {
    forall k: nat | k < |Whole(bound, values)| ensures Target(params, Whole(bound, values), k) != Some(i) {
      UnwrittenTarget(params, bound, values, k, i);
    }
    BoundNoneIff(params, Whole(bound, values), i);
  }

  /** What a positional call of the partial application gives the wrapped call. */
  function Received<V>(bound: seq<PartialArg<V>>, values: seq<V>): seq<Arg<V>> {
    Combined(bound, Positionals(AsPositional(values)), Nameds(AsPositional(values)), true)
  }

  lemma {:induction false} PositionalsOfAsPositional<V>(values: seq<V>)
    ensures Positionals(AsPositional(values)) == values && Nameds(AsPositional(values)) == []
  {
    if values != [] {
      PositionalsOfAsPositional(values[1..]);
      assert AsPositional(values)[1..] == AsPositional(values[1..]);
    }
  }

  lemma ReceivedIsWhole<V>(params: seq<Param>, bound: seq<PartialArg<V>>, values: seq<V>)
    requires WellFormed(params, bound) && Filled(bound, values)
    ensures Received(bound, values) == Whole(bound, values)
  {
    PositionalsOfAsPositional(values);
    CombinedFrom(bound, values, 0);
    assert bound[0..] == bound && values[0..] == values;
    assert Whole(bound, values)[0..] == Whole(bound, values);
  }

  lemma EntryAgrees<V>(params: seq<Param>, bound: seq<PartialArg<V>>, values: seq<V>, k: nat)
    requires WellFormed(params, bound) && Filled(bound, values)
    requires k < |Entries(bound)| && At(params, Entries(bound), k).Some?
    ensures var i := At(params, Entries(bound), k).value;
            && (bound[k].Placeholder? ==>
                  Holes(Entries(bound), k) < |values| &&
                  Bound(params, Whole(bound, values), i) == Some(values[Holes(Entries(bound), k)]))
            && (bound[k].Given? ==> Bound(params, Whole(bound, values), i) == Some(bound[k].value))
  {
    WholeEntry(bound, values, k);
    hide Whole, Fill, Bound;
    EntryBinds(params, bound, values, k, At(params, Entries(bound), k).value);
  }

  lemma HoleValue<V>(params: seq<Param>, bound: seq<PartialArg<V>>, values: seq<V>, j: nat)
    requires WellFormed(params, bound) && Filled(bound, values)
    requires j < |HoleTargets(params, Entries(bound), 0)|
    ensures j < |values|
    ensures Bound(params, Whole(bound, values), HoleTargets(params, Entries(bound), 0)[j]) == Some(values[j])
  {
    var k := HoleOfTarget(params, Entries(bound), 0, j);
    hide HoleTargets, Bound, Whole;
    EntryAgrees(params, bound, values, k);
  }

  lemma PositionsTaken<V>(params: seq<Param>, entries: seq<PartialArg<V>>, x: nat)
    requires x < Positions(entries, |entries|) && x < |params|
    ensures x in Taken(params, entries, |entries|)
  {
    var j := PositionTaken(params, entries, |entries|, x);
    TakenIff(params, entries, |entries|, x);
  }

  /** A parameter past the positional entries that some entry is written for is named. */
  lemma NamedPast<V>(params: seq<Param>, bound: seq<PartialArg<V>>, x: nat, i: nat)
    requires WellFormed(params, bound) && Written(params, Entries(bound), x)
    requires Positions(Entries(bound), |Entries(bound)|) <= x < i < |params|
    ensures exists k: nat :: NamedBefore(params, bound, k, i)
  {
    var entries := Entries(bound);
    var k: nat :| k < |entries| && At(params, entries, k) == Some(x);
    if Name(entries[k]).Some? {
      assert NamedBefore(params, bound, k, i);
    } else {
      forall j: nat | j < k ensures At(params, entries, j) != At(params, entries, k) {
        EntriesApart(params, bound, k, j);
      }
      PositionDeclared(params, entries, k);
      PositionsGrow(entries, k, |entries|);
    }
  }

  lemma {:induction false} PositionsGrow<V>(bound: seq<PartialArg<V>>, j: nat, k: nat)
    requires j < k <= |bound|
    ensures Positions(bound, j) <= Positions(bound, k)
    ensures Name(bound[j]).None? ==> Positions(bound, j) < Positions(bound, k)
  {
    if j < k - 1 {
      PositionsGrow(bound, j, k - 1);
    }
  }

  /** When none is displaced, the untaken parameters follow the positional entries without a gap. */
  lemma RestInPlace<V>(params: seq<Param>, bound: seq<PartialArg<V>>, t: nat)
    requires WellFormed(params, bound) && NoneDisplaced(params, bound) && TakesRest(bound)
    requires t < |OpenRest(params, bound)|
    ensures OpenRest(params, bound)[t] < |params| && !Written(params, Entries(bound), OpenRest(params, bound)[t])
    ensures OpenRest(params, bound)[t] == Positions(Entries(bound), |Entries(bound)|) + t
  {
    hide At, Taken, Untaken, WellFormed, NoneDisplaced, Written;
    var entries := Entries(bound);
    var taken, p := Taken(params, entries, |entries|), Positions(entries, |entries|);
    UntakenIs(|params|, taken, t);
    var i := OpenRest(params, bound)[t];
    UntakenUnwritten(params, entries, i);
    PastPositions(params, entries, i);
    forall x: nat | x < i ensures x in taken <==> x < p {
      TakenBefore(params, bound, x, i);
    }
    UntakenFrom(i, taken, p);
  }

  lemma UntakenUnwritten<V>(params: seq<Param>, entries: seq<PartialArg<V>>, i: nat)
    ensures i in Taken(params, entries, |entries|) <==> Written(params, entries, i)
  {
    TakenIff(params, entries, |entries|, i);
  }

  lemma TakenBefore<V>(params: seq<Param>, bound: seq<PartialArg<V>>, x: nat, i: nat)
    requires WellFormed(params, bound) && NoneDisplaced(params, bound) && TakesRest(bound)
    requires x < i < |params| && !Written(params, Entries(bound), i)
    ensures x in Taken(params, Entries(bound), |Entries(bound)|) <==> x < Positions(Entries(bound), |Entries(bound)|)
  {
    hide At, Taken, WellFormed;
    if x < Positions(Entries(bound), |Entries(bound)|) {
      PositionsTaken(params, Entries(bound), x);
    } else {
      UntakenUnwritten(params, Entries(bound), x);
      if Written(params, Entries(bound), x) {
        NamedPast(params, bound, x, i);
        assert false;
      }
    }
  }

  /** The combined call gives open parameter `j` the call's value number `j`. */
  lemma OpenValue<V>(params: seq<Param>, bound: seq<PartialArg<V>>, values: seq<V>, j: nat)
    requires WellFormed(params, bound) && Filled(bound, values) && NoneDisplaced(params, bound)
    requires j < |Open(params, bound, {}, 0)|
    ensures Bound(params, Whole(bound, values), Open(params, bound, {}, 0)[j])
         == if j < |values| then Some(values[j]) else None
  {
    hide Open, Holes, HoleTargets, Untaken, Taken, Bound, Whole, NoneDisplaced, At, Written;
    OpenIs(params, bound);
    var holes := |HoleTargets(params, Entries(bound), 0)|;
    if j < holes {
      HoleValue(params, bound, values, j);
    } else {
      RestInPlace(params, bound, j - holes);
      RestBinds(params, bound, values, OpenRest(params, bound)[j - holes]);
    }
  }

  /** Open parameter `j` holds the same on both ways round. */
  ghost predicate OpenSame<V>(params: seq<Param>, bound: seq<PartialArg<V>>, values: seq<V>, j: nat) {
    j < |Open(params, bound, {}, 0)| ==>
      Bound(params, Received(bound, values), Open(params, bound, {}, 0)[j])
      == Bound(Pick(params, Open(params, bound, {}, 0)), AsPositional(values), j)
  }

  /** Entry `k`, if it is a value for some parameter, is what that parameter holds. */
  ghost predicate GivenSame<V>(params: seq<Param>, bound: seq<PartialArg<V>>, values: seq<V>, k: nat) {
    k < |Entries(bound)| && Entries(bound)[k].Given? && At(params, Entries(bound), k).Some? ==>
      Bound(params, Received(bound, values), At(params, Entries(bound), k).value) == Some(Entries(bound)[k].value)
  }

  /** Parameter `i`, if it is neither open nor given a value, holds nothing. */
  ghost predicate UntouchedSame<V>(params: seq<Param>, bound: seq<PartialArg<V>>, values: seq<V>, i: nat) {
    i < |params| && i !in Open(params, bound, {}, 0)
    && (forall k :: 0 <= k < |Entries(bound)| && Entries(bound)[k].Given? ==>
          At(params, Entries(bound), k) != Some(i)) ==>
      Bound(params, Received(bound, values), i) == None
  }

  /**
   * Binding the combined call gives each of the wrapped call's parameters what binding the call
   * to the open parameters gives it, or the value it was given in the application.
   */
  ghost predicate Commutes<V>(params: seq<Param>, bound: seq<PartialArg<V>>, values: seq<V>) {
    && (forall j: nat :: OpenSame(params, bound, values, j))
    && (forall k: nat :: GivenSame(params, bound, values, k))
    && (forall i: nat :: UntouchedSame(params, bound, values, i))
  }

  lemma OpenAgrees<V>(params: seq<Param>, bound: seq<PartialArg<V>>, values: seq<V>, j: nat)
    requires WellFormed(params, bound) && Filled(bound, values) && NoneDisplaced(params, bound)
    ensures OpenSame(params, bound, values, j)
  {
    hide Open, Bound, Received, WellFormed, NoneDisplaced;
    if j < |Open(params, bound, {}, 0)| {
      ReceivedIsWhole(params, bound, values);
      OpenValue(params, bound, values, j);
      PositionalBound(Pick(params, Open(params, bound, {}, 0)), values, j);
    }
  }

  lemma UntouchedAgrees<V>(params: seq<Param>, bound: seq<PartialArg<V>>, values: seq<V>, i: nat)
    requires WellFormed(params, bound) && Filled(bound, values)
    requires i < |params| && i !in Open(params, bound, {}, 0)
    requires forall k :: 0 <= k < |Entries(bound)| && Entries(bound)[k].Given? ==>
               At(params, Entries(bound), k) != Some(i)
    ensures Bound(params, Received(bound, values), i) == None
  {
    hide Open, Bound, Received, HoleTargets, Untaken, Taken;
    ReceivedIsWhole(params, bound, values);
    OpenIs(params, bound);
    forall k | 0 <= k < |Entries(bound)| ensures At(params, Entries(bound), k) != Some(i) {
      if Entries(bound)[k].Placeholder? {
        HoleTargetAt(params, Entries(bound), 0, k);
        assert At(params, Entries(bound), k).value in HoleTargets(params, Entries(bound), 0);
      }
    }
    if TakesRest(bound) {
      TakenIff(params, Entries(bound), |Entries(bound)|, i);
      UntakenAt(|params|, Taken(params, Entries(bound), |Entries(bound)|), i);
      assert false;
    }
    NothingBinds(params, bound, values, i);
  }

  /** The good side: calls commute when none is displaced. */
  lemma PartialApplicationCommutes<V>(params: seq<Param>, bound: seq<PartialArg<V>>, values: seq<V>)
    requires WellFormed(params, bound) && Filled(bound, values) && NoneDisplaced(params, bound)
    ensures Commutes(params, bound, values)
  {
    hide Open, Bound, Received, WellFormed, NoneDisplaced, Filled;
    forall j: nat ensures OpenSame(params, bound, values, j) {
      OpenAgrees(params, bound, values, j);
    }
    forall k: nat ensures GivenSame(params, bound, values, k) {
      if k < |Entries(bound)| && Entries(bound)[k].Given? && At(params, Entries(bound), k).Some? {
        ReceivedIsWhole(params, bound, values);
        EntryAgrees(params, bound, values, k);
      }
    }
    forall i: nat ensures UntouchedSame(params, bound, values, i) {
      if i < |params| && i !in Open(params, bound, {}, 0)
         && forall k :: 0 <= k < |Entries(bound)| && Entries(bound)[k].Given? ==>
              At(params, Entries(bound), k) != Some(i)
      {
        UntouchedAgrees(params, bound, values, i);
      }
    }
  }

  /** The open parameters list a displaced one in front of the place it has behind the entries. */
  lemma PlaceOfDisplaced<V>(params: seq<Param>, bound: seq<PartialArg<V>>, k: nat, i: nat) returns (j: nat)
    requires WellFormed(params, bound) && TakesRest(bound)
    requires NamedBefore(params, bound, k, i) && !Written(params, Entries(bound), i)
    ensures var entries := Entries(bound);
            Holes(entries, |entries|) <= j < Holes(entries, |entries|) + i - Positions(entries, |entries|)
    ensures j < |Open(params, bound, {}, 0)| && Open(params, bound, {}, 0)[j] == i
  {
    var entries, a := Entries(bound), At(params, Entries(bound), k).value;
    var p, taken := Positions(entries, |entries|), Taken(params, entries, |entries|);
    PastPositions(params, entries, i);
    NamedIsPast(params, bound, k);
    TakenIff(params, entries, |entries|, a);
    TakenIff(params, entries, |entries|, i);
    forall x: nat | x < p ensures x in taken {
      PositionsTaken(params, entries, x);
    }
    hide At, Taken, Untaken, Open, WellFormed;
    UntakenSkips(i, taken, p, a);
    UntakenAt(|params|, taken, i);
    j := Holes(entries, |entries|) + |Untaken(i, taken)|;
    OpenIs(params, bound);
  }

  /** Behind a displaced parameter the two ways differ on a call with just enough values. */
  lemma DisplacedDiffers<V>(params: seq<Param>, bound: seq<PartialArg<V>>, k: nat, i: nat, v: V)
    returns (values: seq<V>)
    requires WellFormed(params, bound) && TakesRest(bound)
    requires NamedBefore(params, bound, k, i) && !Written(params, Entries(bound), i)
    ensures Filled(bound, values) && !Commutes(params, bound, values)
  {
    hide At, Taken, Untaken, Open, Bound, Received, WellFormed, Whole, Written, TakesRest, Entries, Holes, Positions;
    var j := PlaceOfDisplaced(params, bound, k, i);
    values := seq(j + 1, _ => v);
    ReceivedIsWhole(params, bound, values);
    RestBinds(params, bound, values, i);
    PositionalBound(Pick(params, Open(params, bound, {}, 0)), values, j);
    assert !OpenSame(params, bound, values, j);
  }

  lemma NamedIsPast<V>(params: seq<Param>, bound: seq<PartialArg<V>>, k: nat)
    requires WellFormed(params, bound) && k < |Entries(bound)|
    requires Name(Entries(bound)[k]).Some? && At(params, Entries(bound), k).Some?
    ensures At(params, Entries(bound), k).value >= Positions(Entries(bound), |Entries(bound)|)
  {
    var entries, a := Entries(bound), At(params, Entries(bound), k).value;
    if a < Positions(entries, |entries|) {
      var j := PositionTaken(params, entries, |entries|, a);
      EntriesApart(params, bound, j, k);
    }
  }

  /**
   * Exactly which partial applications commute with binding, on every positional call that
   * fills the holes: those where `...` has no named entry in front of a parameter left to it.
   */
  lemma CommutesIff<V(!new)>(params: seq<Param>, bound: seq<PartialArg<V>>, v: V)
    requires WellFormed(params, bound)
    ensures (forall values: seq<V> :: Filled(bound, values) ==> Commutes(params, bound, values))
       <==> NoneDisplaced(params, bound)
  {
    hide WellFormed, Commutes, Filled;
    if NoneDisplaced(params, bound) {
      forall values: seq<V> | Filled(bound, values) ensures Commutes(params, bound, values) {
        PartialApplicationCommutes(params, bound, values);
      }
    } else {
      var k: nat, i: nat :| NamedBefore(params, bound, k, i) && !Written(params, Entries(bound), i);
      var values := DisplacedDiffers(params, bound, k, i, v);
      assert Filled(bound, values) && !Commutes(params, bound, values);
    }
  }

  lemma SecondTaken(params: seq<Param>, n: nat)
    requires params == [Param("a", true, false), Param("b", true, false), Param("c", true, false)]
    requires n == 3
    ensures FirstNamed(params, "b") == Some(1)
    ensures Untaken(n, {1}) == [0, 2]
  {
    assert Bare(params[0]) == "a" && Bare(params[1]) == "b";
    assert Untaken(n - 2, {1}) == [0];
    assert Untaken(n - 1, {1}) == [0];
  }

  lemma OpenBesideRest<V>(params: seq<Param>, bound: seq<PartialArg<V>>)
    requires |params| == 3 && |bound| == 2 && bound[0].Given? && bound[0].name == Some("b") && bound[1].Variadic?
    requires FirstNamed(params, "b") == Some(1) && Untaken(3, {1}) == [0, 2]
    ensures Open(params, bound, {}, 0) == [0, 2]
  {
    hide FirstNamed, Open, Untaken;
    assert {} + {1} == {1} && bound[0..] == bound;
    OpenNext(params, bound, 0, {}, 0);
    OpenLast(params, bound, 1, {1}, 0);
  }

  /**
   * The smallest displaced case: `f(b: v, ...)(x, y)` over `f($a, $b, $c)`
   * is open in `$a` and `$c`, but the combined call hands `y` to `$b`'s position and leaves
   * `$c` empty.
   */
  lemma NamedBesideRest<V>(v: V, x: V, y: V)
    ensures var params := [Param("a", true, false), Param("b", true, false), Param("c", true, false)];
            var bound := [Given(Some("b"), v), Variadic];
            && Open(params, bound, {}, 0) == [0, 2]
            && Bound(Pick(params, [0, 2]), AsPositional([x, y]), 1) == Some(y)
            && Bound(params, Received(bound, [x, y]), 2) == None
  {
    var params := [Param("a", true, false), Param("b", true, false), Param("c", true, false)];
    var bound := [Given(Some("b"), v), Variadic];
    SecondTaken(params, 3);
    OpenBesideRest(params, bound);
    hide Open, Untaken, FirstNamed;
    PositionalBound(Pick(params, [0, 2]), [x, y], 1);
    PositionalsOfAsPositional([x, y]);
    var received := Received(bound, [x, y]);
    assert Combined(bound[1..], [x, y], [], true) == AsPositional([x, y]) + [] + Combined(bound[1..][1..], [], [], true);
    assert received == [Named("b", v)] + AsPositional([x, y]);
    assert received[..1] == [received[0]] && received[..2] == [received[0], received[1]];
    assert received[..1][..0] == [] && received[..2][..1] == received[..1];
    assert PositionalCount(received[..1]) == 0;
    assert PositionalCount(received[..2]) == 1;
    BoundNoneIff(params, received, 2);
  }
}
