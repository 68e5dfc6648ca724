/**
 * The parameters any partial application leaves open, whatever it is written like: entries
 * without a parameter and several entries for one parameter included.
 */
module OpenParameters {
  import opened CallArgs
  import opened ParamNames
  import opened PartialApplication
  import opened PartialCommutes
  import opened Wrappers

  /** Entry `k` is written for parameter `i`: by its name, in its position, or as one more for a trailing variadic. */
  ghost predicate IsFor<V>(params: seq<Param>, bound: seq<PartialArg<V>>, k: nat, i: nat)
    requires k < |bound|
  {
    var name, position := Name(bound[k]), Positions(bound, k);
    i < |params|
    && if name.Some? then FirstSpelled(params, i, name.value)
       else i == position || (position >= |params| && i == |params| - 1 && params[i].variadic)
  }

  lemma AtIsFor<V>(params: seq<Param>, bound: seq<PartialArg<V>>, k: nat, i: nat)
    requires k < |bound|
    ensures At(params, bound, k) == Some(i) <==> IsFor(params, bound, k, i)
  {
    if Name(bound[k]).Some? {
      FirstNamedIff(params, Name(bound[k]).value, i);
    }
  }

  /** Entry `k` is the first one written for parameter `i`. */
  ghost predicate FirstFor<V>(params: seq<Param>, bound: seq<PartialArg<V>>, k: nat, i: nat)
    requires k < |bound|
  {
    IsFor(params, bound, k, i) && forall j :: 0 <= j < k ==> !IsFor(params, bound, j, i)
  }

  /** How many entries stand in front of the first `...`. */
  function Front<V>(bound: seq<PartialArg<V>>): (m: nat)
    ensures m <= |bound| && (m < |bound| ==> bound[m].Variadic?)
    ensures forall k :: 0 <= k < m ==> !bound[k].Variadic?
  {
    if bound == [] || bound[0].Variadic? then 0 else Front(bound[1..]) + 1
  }

  /** No entry in front of `...` is written for parameter `i`. */
  ghost predicate Unwritten<V>(params: seq<Param>, bound: seq<PartialArg<V>>, i: nat) {
    i < |params| && forall k :: 0 <= k < Front(bound) ==> !IsFor(params, bound, k, i)
  }

  /** `open` starts with the parameters of the entries `at`. */
  ghost predicate HolesFirst<V>(params: seq<Param>, bound: seq<PartialArg<V>>, open: seq<nat>, at: seq<nat>) {
    && |at| <= |open|
    && forall x :: 0 <= x < |at| ==> at[x] < Front(bound) && FirstFor(params, bound, at[x], open[x])
  }

  /** `at` are, in order, the placeholders from `start` on that are the first entry for a parameter. */
  ghost predicate AllHoles<V>(params: seq<Param>, bound: seq<PartialArg<V>>, start: nat, at: seq<nat>) {
    && (forall x :: 0 <= x < |at| ==> start <= at[x] < Front(bound) && bound[at[x]].Placeholder?)
    && (forall x, y :: 0 <= x < y < |at| ==> at[x] < at[y])
    && (forall k, i: nat :: start <= k < Front(bound) && bound[k].Placeholder? && FirstFor(params, bound, k, i) ==> k in at)
  }

  /** Behind `...`, `rest` are in order the parameters no entry is written for, and without it there is none. */
  ghost predicate AllRest<V>(params: seq<Param>, bound: seq<PartialArg<V>>, rest: seq<nat>) {
    && (forall x, y :: 0 <= x < y < |rest| ==> rest[x] < rest[y])
    && (forall i: nat :: i in rest <==> Front(bound) < |bound| && Unwritten(params, bound, i))
  }

  lemma {:induction false} UntakenIff(n: nat, taken: set<nat>)
    ensures forall x, y :: 0 <= x < y < |Untaken(n, taken)| ==> Untaken(n, taken)[x] < Untaken(n, taken)[y]
    ensures forall i: nat :: i in Untaken(n, taken) <==> i < n && i !in taken
  {
    if n > 0 {
      UntakenIff(n - 1, taken);
    }
  }

  lemma FirstForIff<V>(params: seq<Param>, bound: seq<PartialArg<V>>, k: nat, i: nat)
    requires k < |bound|
    ensures FirstFor(params, bound, k, i) <==> At(params, bound, k) == Some(i) && i !in Taken(params, bound, k)
  {
    TakenIff(params, bound, k, i);
    AtIsFor(params, bound, k, i);
    forall j: nat | j < k ensures At(params, bound, j) == Some(i) <==> IsFor(params, bound, j, i) {
      AtIsFor(params, bound, j, i);
    }
  }

  lemma RestIsUnwritten<V>(params: seq<Param>, bound: seq<PartialArg<V>>)
    ensures var m := Front(bound);
            AllRest(params, bound, Open(params, bound[m..], Taken(params, bound, m), Positions(bound, m)))
  {
    var m := Front(bound);
    var taken := Taken(params, bound, m);
    UntakenIff(|params|, taken);
    forall i: nat | i < |params| ensures i in taken <==> !Unwritten(params, bound, i) {
      TakenIff(params, bound, m, i);
      forall j: nat | j < m ensures At(params, bound, j) == Some(i) <==> IsFor(params, bound, j, i) {
        AtIsFor(params, bound, j, i);
      }
    }
    OpenLast(params, bound, m, taken, Positions(bound, m));
    hide Taken, Untaken, Open, Unwritten;
  }

  lemma OneMore<V>(params: seq<Param>, bound: seq<PartialArg<V>>, start: nat, open: seq<nat>, at: seq<nat>, i: nat)
    requires start < Front(bound) && bound[start].Placeholder? && FirstFor(params, bound, start, i)
    requires HolesFirst(params, bound, open, at) && AllHoles(params, bound, start + 1, at)
    ensures HolesFirst(params, bound, [i] + open, [start] + at) && AllHoles(params, bound, start, [start] + at)
    ensures ([i] + open)[|at| + 1..] == open[|at|..]
  {
    hide FirstFor, Front;
  }

  lemma NoneMore<V>(params: seq<Param>, bound: seq<PartialArg<V>>, start: nat, at: seq<nat>)
    requires start < Front(bound) && AllHoles(params, bound, start + 1, at)
    requires bound[start].Placeholder? ==> forall i: nat :: !FirstFor(params, bound, start, i)
    ensures AllHoles(params, bound, start, at)
  {
    hide FirstFor, Front;
  }

  lemma {:induction false} OpenAre<V>(params: seq<Param>, bound: seq<PartialArg<V>>, start: nat) returns (at: seq<nat>)
    requires start <= Front(bound)
    ensures var open := Open(params, bound[start..], Taken(params, bound, start), Positions(bound, start));
            && HolesFirst(params, bound, open, at) && AllHoles(params, bound, start, at)
            && AllRest(params, bound, open[|at|..])
    decreases Front(bound) - start
  {
    hide Open, At, EntryAt, HolesFirst, AllHoles, AllRest, FirstFor;
    if start == Front(bound) {
      at := [];
      RestIsUnwritten(params, bound);
      NoHolesBehind(params, bound, Open(params, bound[start..], Taken(params, bound, start), Positions(bound, start)));
    } else {
      at := OpenAre(params, bound, start + 1);
      var here, taken := At(params, bound, start), Taken(params, bound, start);
      var open := Open(params, bound[start + 1..], Taken(params, bound, start + 1), Positions(bound, start + 1));
      Unfold(params, bound, start);
      forall i: nat ensures FirstFor(params, bound, start, i) <==> here == Some(i) && i !in taken {
        FirstForIff(params, bound, start, i);
      }
      if bound[start].Placeholder? && here.Some? && here.value !in taken {
        OneMore(params, bound, start, open, at, here.value);
        at := [start] + at;
      } else {
        NoneMore(params, bound, start, at);
      }
    }
  }

  lemma NoHolesBehind<V>(params: seq<Param>, bound: seq<PartialArg<V>>, open: seq<nat>)
    ensures HolesFirst(params, bound, open, []) && AllHoles(params, bound, Front(bound), [])
    ensures open[0..] == open
  {
  }

  lemma Unfold<V>(params: seq<Param>, bound: seq<PartialArg<V>>, k: nat)
    requires k < Front(bound)
    ensures var at, taken := At(params, bound, k), Taken(params, bound, k);
            var open := Open(params, bound[k + 1..], Taken(params, bound, k + 1), Positions(bound, k + 1));
            Open(params, bound[k..], taken, Positions(bound, k))
            == if bound[k].Placeholder? && at.Some? && at.value !in taken then [at.value] + open else open
  {
    hide Open, EntryAt, Front;
    OpenNext(params, bound, k, Taken(params, bound, k), Positions(bound, k));
    assert At(params, bound, k).None? ==> Taken(params, bound, k + 1) == Taken(params, bound, k);
  }

  /**
   * First, in order, come the parameters that a placeholder is the first entry for, and then,
   * with `...`, in order, those no entry in front of it is written for.
   */
  lemma OpenIsListed<V>(params: seq<Param>, bound: seq<PartialArg<V>>) returns (at: seq<nat>)
    ensures HolesFirst(params, bound, Open(params, bound, {}, 0), at) && AllHoles(params, bound, 0, at)
    ensures AllRest(params, bound, Open(params, bound, {}, 0)[|at|..])
  {
    hide Open, HolesFirst, AllHoles, AllRest;
    at := OpenAre(params, bound, 0);
    assert bound[0..] == bound;
  }
}
