/** The second binder of the code base: which parameter name is hinted at each positional argument. */
module InlayHints {
  import opened CallArgs
  import opened Wrappers

  /** The parameters no named argument consumes, in declaration order. */
  function Remaining(params: seq<Param>, named: seq<string>): (r: seq<nat>)
    ensures |r| <= |params|
    ensures forall c :: 0 <= c < |r| ==> r[c] < |params| && Bare(params[r[c]]) !in named
  {
    if params == [] then []
    else
      var last := |params| - 1;
      Remaining(params[..last], named) + if Bare(params[last]) in named then [] else [last]
  }

  /** The parameter the positional argument number `position` is taken to fill. */
  function HintFor(params: seq<Param>, named: seq<string>, position: nat): Option<nat> {
    var remaining := Remaining(params, named);
    if position < |remaining| then Some(remaining[position])
    else if params != [] && params[|params| - 1].variadic then Some(|params| - 1)
    else None
  }

  function HintAt<V>(params: seq<Param>, named: seq<string>, args: seq<Arg<V>>, k: nat): Option<nat>
    requires k < |args|
  {
    if args[k].Named? then None else HintFor(params, named, PositionalCount(args[..k]))
  }

  /** For each argument of a call without spreads, the parameter hinted there; named ones get none. */
  method HintedParams<V>(params: seq<Param>, args: seq<Arg<V>>) returns (hinted: seq<Option<nat>>)
    ensures |hinted| == |args|
    ensures forall k :: 0 <= k < |args| ==> hinted[k] == HintAt(params, ArgNames(args), args, k)
  {
    var named := ArgNames(args);
    var remaining := Remaining(params, named);
    var position := 0;
    hinted := [];
    for k := 0 to |args|
      invariant |hinted| == k && position == PositionalCount(args[..k])
      invariant forall j :: 0 <= j < k ==> hinted[j] == HintAt(params, named, args, j)
    {
      assert args[..k + 1][..k] == args[..k];
      var param := None;
      if args[k].Positional? {
        if position < |remaining| {
          param := Some(remaining[position]);
        } else if params != [] && params[|params| - 1].variadic {
          param := Some(|params| - 1);
        }
        position := position + 1;
      }
      hinted := hinted + [param];
    }
  }

  lemma {:induction false} RemainingStarts(params: seq<Param>, named: seq<string>, c: nat)
    requires c <= |params| && forall i :: 0 <= i < c ==> Bare(params[i]) !in named
    ensures |Remaining(params, named)| >= c
    ensures forall i :: 0 <= i < c ==> Remaining(params, named)[i] == i
  {
    if params != [] {
      var last := |params| - 1;
      RemainingStarts(params[..last], named, if c > last then last else c);
    }
  }

  /** As PHP requires, only the last parameter may be variadic. */
  ghost predicate VariadicLast(params: seq<Param>) {
    forall i :: 0 <= i < |params| - 1 ==> !params[i].variadic
  }

  ghost predicate HintsAgree<V>(params: seq<Param>, args: seq<Arg<V>>) {
    forall k :: 0 <= k < |args| ==>
      HintAt(params, ArgNames(args), args, k) == if args[k].Positional? then Target(params, args, k) else None
  }

  /** Parameter `i` is filled by position and named as well, and is no trailing variadic. */
  ghost predicate FilledTwice<V>(params: seq<Param>, args: seq<Arg<V>>, i: nat) {
    && i < |params| && i < PositionalCount(args) && Bare(params[i]) in ArgNames(args)
    && !(i == |params| - 1 && params[i].variadic)
  }

  /**
   * Hints and binder point every positional argument at the same parameter, and no named one
   * is hinted, exactly when no parameter is filled both ways, which PHP reports as an error
   * in the call.
   */
  lemma HintsAgreeIff<V>(params: seq<Param>, args: seq<Arg<V>>)
    requires VariadicLast(params)
    ensures HintsAgree(params, args) <==> forall i: nat :: !FilledTwice(params, args, i)
  {
    if i: nat :| FilledTwice(params, args, i) {
      var k := NthPositional(args, i);
      assert Target(params, args, k) == Some(i);
      assert HintFor(params, ArgNames(args), i) != Some(i);
    } else {
      forall k | 0 <= k < |args| && args[k].Positional?
        ensures HintAt(params, ArgNames(args), args, k) == Target(params, args, k)
      {
        PositionalCountPrefix(args, k);
        HintOfPosition(params, args, PositionalCount(args[..k]));
      }
    }
  }

  lemma HintOfPosition<V>(params: seq<Param>, args: seq<Arg<V>>, position: nat)
    requires VariadicLast(params) && position < PositionalCount(args)
    requires forall i: nat :: !FilledTwice(params, args, i)
    ensures HintFor(params, ArgNames(args), position) == PositionalTarget(params, position)
  {
    var n, named := |params|, ArgNames(args);
    assert position < n ==> !FilledTwice(params, args, position);
    if position < n && Bare(params[position]) !in named {
      forall i | 0 <= i < position ensures Bare(params[i]) !in named {
        assert !FilledTwice(params, args, i);
      }
      RemainingStarts(params, named, position + 1);
    }
  }
}
