/**
 * Which argument of a call fills which parameter: the binders of `call_args` for
 * argument lists and partial applications, and the mapping of parameter-name hints.
 */
module CallArgs {
  import opened Wrappers

  datatype Param = Param(name: string, required: bool, variadic: bool)

  datatype Arg<+V> = Positional(value: V) | Named(name: string, value: V)

  /** The name without its leading `$`. */
  function Bare(p: Param): string {
    if p.name != [] && p.name[0] == '$' then p.name[1..] else p.name
  }

  function FirstVariadic(params: seq<Param>): (r: Option<nat>)
    ensures r.None? ==> forall i :: 0 <= i < |params| ==> !params[i].variadic
    ensures r.Some? ==> r.value < |params| && params[r.value].variadic
                        && forall i :: 0 <= i < r.value ==> !params[i].variadic
  {
    if params == [] then None
    else
      var last := |params| - 1;
      var r := FirstVariadic(params[..last]);
      if r.Some? then r else if params[last].variadic then Some(last) else None
  }

  function FirstNamed(params: seq<Param>, name: string): (r: Option<nat>)
    ensures r.None? ==> forall i :: 0 <= i < |params| ==> Bare(params[i]) != name
    ensures r.Some? ==> r.value < |params| && Bare(params[r.value]) == name
                        && forall i :: 0 <= i < r.value ==> Bare(params[i]) != name
  {
    if params == [] then None
    else
      var last := |params| - 1;
      var r := FirstNamed(params[..last], name);
      if r.Some? then r else if Bare(params[last]) == name then Some(last) else None
  }

  function PositionalCount<V>(args: seq<Arg<V>>): (r: nat)
    ensures r <= |args|
  {
    if args == [] then 0
    else PositionalCount(args[..|args| - 1]) + if args[|args| - 1].Positional? then 1 else 0
  }

  /** The parameter the positional argument number `position` goes to. */
  function PositionalTarget(params: seq<Param>, position: nat): Option<nat> {
    if position < |params| then Some(position) else FirstVariadic(params)
  }

  /** The parameter argument `k` resolves to. */
  function Target<V>(params: seq<Param>, args: seq<Arg<V>>, k: nat): (r: Option<nat>)
    requires k < |args|
    ensures r.Some? ==> r.value < |params|
  {
    match args[k]
    case Positional(_) => PositionalTarget(params, PositionalCount(args[..k]))
    case Named(name, _) => FirstNamed(params, name)
  }

  method ResolveDeclaredArgIndices<V>(params: seq<Param>, args: seq<Arg<V>>) returns (r: seq<Option<nat>>)
    ensures |r| == |args|
    ensures forall k :: 0 <= k < |args| ==> r[k] == Target(params, args, k)
  {
    var variadic := FirstVariadic(params);
    var nextPositional := 0;
    r := [];
    for k := 0 to |args|
      invariant |r| == k && nextPositional == PositionalCount(args[..k])
      invariant forall j :: 0 <= j < k ==> r[j] == Target(params, args, j)
    {
      assert args[..k + 1][..k] == args[..k];
      match args[k]
      case Positional(_) =>
        r := r + [if nextPositional < |params| then Some(nextPositional) else variadic];
        nextPositional := nextPositional + 1;
      case Named(name, _) =>
        r := r + [FirstNamed(params, name)];
    }
  }

  // ── Binding arguments to parameters ───────────────────────────────────

  /** What parameter `i` holds after the arguments, read left to right, have been bound. */
  function Bound<V>(params: seq<Param>, args: seq<Arg<V>>, i: nat): Option<V> {
    if args == [] then None
    else
      var k := |args| - 1;
      var before := Bound(params, args[..k], i);
      if Target(params, args, k) == Some(i) && (args[k].Named? || before.None?) then Some(args[k].value)
      else before
  }

  method BindArgsToParams<V>(params: seq<Param>, args: seq<Arg<V>>) returns (bound: seq<Option<V>>)
    ensures |bound| == |params|
    ensures forall i :: 0 <= i < |params| ==> bound[i] == Bound(params, args, i)
  {
    bound := seq(|params|, _ => None);
    var variadic := FirstVariadic(params);
    var nextPositional := 0;
    for k := 0 to |args|
      invariant |bound| == |params| && nextPositional == PositionalCount(args[..k])
      invariant forall i :: 0 <= i < |params| ==> bound[i] == Bound(params, args[..k], i)
    {
      var now := args[..k + 1];
      assert now[..k] == args[..k] && |now| - 1 == k;
      match args[k]
      case Positional(value) =>
        var target := if nextPositional < |params| then Some(nextPositional) else variadic;
        if target.Some? && bound[target.value].None? {
          bound := bound[target.value := Some(value)];
        }
        nextPositional := nextPositional + 1;
      case Named(name, value) =>
        var target := FirstNamed(params, name);
        if target.Some? {
          bound := bound[target.value := Some(value)];
        }
    }
    assert args[..|args|] == args;
  }

  /** Argument `k` is the one PHP's rules bind parameter `i` to: the last naming it, else the first positional one. */
  ghost predicate Binds<V>(params: seq<Param>, args: seq<Arg<V>>, i: nat, k: nat) {
    && k < |args| && Target(params, args, k) == Some(i)
    && forall l: nat :: l < |args| && l != k && Target(params, args, l) == Some(i) ==>
         if args[l].Named? then args[k].Named? && l < k else args[k].Named? || k < l
  }

  lemma TargetOfPrefix<V>(params: seq<Param>, args: seq<Arg<V>>, n: nat, k: nat)
    requires k < n <= |args|
    ensures Target(params, args[..n], k) == Target(params, args, k)
  {
    assert args[..n][..k] == args[..k];
  }

  lemma {:induction false} BoundNoneIff<V>(params: seq<Param>, args: seq<Arg<V>>, i: nat)
    ensures Bound(params, args, i).None? <==> forall k: nat :: k < |args| ==> Target(params, args, k) != Some(i)
  {
    if args != [] {
      var n := |args| - 1;
      BoundNoneIff(params, args[..n], i);
      forall k: nat | k < n ensures Target(params, args[..n], k) == Target(params, args, k) {
        TargetOfPrefix(params, args, n, k);
      }
    }
  }

  lemma BindsExtended<V>(params: seq<Param>, args: seq<Arg<V>>, i: nat, k: nat)
    requires args != [] && Binds(params, args[..|args| - 1], i, k)
    requires Target(params, args, |args| - 1) == Some(i) ==> args[|args| - 1].Positional?
    ensures Binds(params, args, i, k)
  {
    var n := |args| - 1;
    TargetOfPrefix(params, args, n, k);
    forall l: nat | l < |args| && l != k && Target(params, args, l) == Some(i)
      ensures if args[l].Named? then args[k].Named? && l < k else args[k].Named? || k < l
    {
      if l < n {
        TargetOfPrefix(params, args, n, l);
      }
    }
  }

  /** The left-to-right loop implements the rule; a parameter no argument resolves to stays empty. */
  lemma {:induction false} BoundFollowsRule<V>(params: seq<Param>, args: seq<Arg<V>>, i: nat) returns (k: nat)
    requires Bound(params, args, i).Some?
    ensures Binds(params, args, i, k) && Bound(params, args, i) == Some(args[k].value)
  {
    var n := |args| - 1;
    BoundNoneIff(params, args[..n], i);
    if Target(params, args, n) == Some(i) && (args[n].Named? || Bound(params, args[..n], i).None?) {
      k := n;
      forall l: nat | l < n && Target(params, args, l) == Some(i)
        ensures args[k].Named?
      {
        TargetOfPrefix(params, args, n, l);
      }
    } else {
      k := BoundFollowsRule(params, args[..n], i);
      BindsExtended(params, args, i, k);
    }
  }

  lemma BoundByBinder<V>(params: seq<Param>, args: seq<Arg<V>>, i: nat, k: nat)
    requires Binds(params, args, i, k)
    ensures Bound(params, args, i) == Some(args[k].value)
  {
    BoundNoneIff(params, args, i);
    var l := BoundFollowsRule(params, args, i);
  }

  // ── Missing required parameters ───────────────────────────────────────

  /** The names, in order, of the parameters `keep` marks. */
  function NamesWhere(params: seq<Param>, keep: seq<bool>): seq<string>
    requires |keep| == |params|
  {
    if params == [] then []
    else (if keep[0] then [params[0].name] else []) + NamesWhere(params[1..], keep[1..])
  }

  lemma {:induction false} NamesWhereSubset(params: seq<Param>, p: seq<bool>, q: seq<bool>)
    requires |p| == |q| == |params|
    requires forall i :: 0 <= i < |p| && p[i] ==> q[i]
    ensures |NamesWhere(params, p)| <= |NamesWhere(params, q)|
    ensures |NamesWhere(params, p)| == |NamesWhere(params, q)| ==> p == q
  {
    if params != [] {
      NamesWhereSubset(params[1..], p[1..], q[1..]);
      assert p == [p[0]] + p[1..] && q == [q[0]] + q[1..];
    }
  }

  predicate IsMissing(params: seq<Param>, positionalCount: nat, named: seq<string>, i: nat)
    requires i < |params|
  {
    params[i].required && i >= positionalCount && Bare(params[i]) !in named
  }

  function MissingRequiredParams(params: seq<Param>, positionalCount: nat, named: seq<string>): seq<string> {
    NamesWhere(params, MissingMarks(params, positionalCount, named))
  }

  function MissingMarks(params: seq<Param>, positionalCount: nat, named: seq<string>): (r: seq<bool>)
    ensures |r| == |params|
    ensures forall i :: 0 <= i < |r| ==> r[i] == IsMissing(params, positionalCount, named, i)
  {
    seq(|params|, i requires 0 <= i < |params| => IsMissing(params, positionalCount, named, i))
  }

  function ArgNames<V>(args: seq<Arg<V>>): (r: seq<string>)
    ensures forall n :: n in r <==> exists k :: 0 <= k < |args| && args[k].Named? && args[k].name == n
  {
    if args == [] then [] else
      var last := args[|args| - 1];
      assert forall k :: 0 <= k < |args| - 1 ==> args[..|args| - 1][k] == args[k];
      ArgNames(args[..|args| - 1]) + if last.Named? then [last.name] else []
  }

  /** The required parameters `BindArgsToParams` leaves empty. */
  function UnboundRequired<V>(params: seq<Param>, args: seq<Arg<V>>): seq<string> {
    NamesWhere(params, UnboundMarks(params, args))
  }

  function UnboundMarks<V>(params: seq<Param>, args: seq<Arg<V>>): (r: seq<bool>)
    ensures |r| == |params|
    ensures forall i :: 0 <= i < |r| ==> r[i] == (params[i].required && Bound(params, args, i).None?)
  {
    seq(|params|, i requires 0 <= i < |params| => params[i].required && Bound(params, args, i).None?)
  }

  lemma {:induction false} PositionalCountPrefix<V>(args: seq<Arg<V>>, k: nat)
    requires k <= |args|
    ensures PositionalCount(args[..k]) <= PositionalCount(args)
    ensures k < |args| && args[k].Positional? ==> PositionalCount(args[..k]) < PositionalCount(args)
    decreases |args| - k
  {
    if k < |args| {
      assert args[..k + 1][..k] == args[..k];
      PositionalCountPrefix(args, k + 1);
    } else {
      assert args[..k] == args;
    }
  }

  /** The call position of the positional argument number `p`. */
  lemma {:induction false} NthPositional<V>(args: seq<Arg<V>>, p: nat) returns (k: nat)
    requires p < PositionalCount(args)
    ensures k < |args| && args[k].Positional? && PositionalCount(args[..k]) == p
  {
    var n := |args| - 1;
    if p == PositionalCount(args[..n]) {
      k := n;
    } else {
      k := NthPositional(args[..n], p);
      assert args[..n][..k] == args[..k];
    }
  }

  ghost predicate NamedBy<V>(params: seq<Param>, args: seq<Arg<V>>, i: nat) {
    exists k: nat :: k < |args| && args[k].Named? && FirstNamed(params, args[k].name) == Some(i)
  }

  /** A parameter is filled iff it is among the first positional ones or the first parameter of a name used. */
  lemma FilledIff<V>(params: seq<Param>, args: seq<Arg<V>>, i: nat)
    requires i < |params|
    ensures Bound(params, args, i).Some? <==> i < PositionalCount(args) || NamedBy(params, args, i)
  {
    BoundNoneIff(params, args, i);
    if i < PositionalCount(args) {
      var k := NthPositional(args, i);
      assert Target(params, args, k) == Some(i);
    } else if NamedBy(params, args, i) {
      var k: nat :| k < |args| && args[k].Named? && FirstNamed(params, args[k].name) == Some(i);
      assert Target(params, args, k) == Some(i);
    } else if k: nat :| k < |args| && Target(params, args, k) == Some(i) {
      PositionalCountPrefix(args, k);
      assert false;
    }
  }

  /** No required parameter has the bare name of one declared before it. */
  ghost predicate RequiredNamesFresh(params: seq<Param>) {
    forall i, j :: 0 <= j < i < |params| && params[i].required ==> Bare(params[j]) != Bare(params[i])
  }

  ghost predicate MissingAgrees<V>(params: seq<Param>, args: seq<Arg<V>>) {
    MissingRequiredParams(params, PositionalCount(args), ArgNames(args)) == UnboundRequired(params, args)
  }

  /** The agreement on one call, parameter by parameter. */
  lemma MissingAgreesIff<V>(params: seq<Param>, args: seq<Arg<V>>)
    ensures MissingAgrees(params, args) <==>
              MissingMarks(params, PositionalCount(args), ArgNames(args)) == UnboundMarks(params, args)
  {
    var p := MissingMarks(params, PositionalCount(args), ArgNames(args));
    var q := UnboundMarks(params, args);
    forall i | 0 <= i < |p| && p[i] ensures q[i] {
      FilledIff(params, args, i);
    }
    NamesWhereSubset(params, p, q);
  }

  lemma MissingAgreesIfFresh<V>(params: seq<Param>, args: seq<Arg<V>>)
    requires RequiredNamesFresh(params)
    ensures MissingAgrees(params, args)
  {
    MissingAgreesIff(params, args);
    var p := MissingMarks(params, PositionalCount(args), ArgNames(args));
    var q := UnboundMarks(params, args);
    forall i | 0 <= i < |p| ensures p[i] == q[i] {
      FilledIff(params, args, i);
      if k :| 0 <= k < |args| && args[k].Named? && args[k].name == Bare(params[i]) {
        assert params[i].required ==> FirstNamed(params, args[k].name) == Some(i);
      }
    }
    assert p == q;
  }

  /**
   * The two ways of finding what a call leaves out agree on every call exactly when no
   * required parameter shares its name with an earlier one, as PHP guarantees.
   */
  lemma MissingAgreesAlwaysIff<V(!new)>(params: seq<Param>, v: V)
    ensures (forall args: seq<Arg<V>> :: MissingAgrees(params, args)) <==> RequiredNamesFresh(params)
  {
    if RequiredNamesFresh(params) {
      forall args: seq<Arg<V>> ensures MissingAgrees(params, args) {
        MissingAgreesIfFresh(params, args);
      }
    } else {
      var i, j :| 0 <= j < i < |params| && params[i].required && Bare(params[j]) == Bare(params[i]);
      var args: seq<Arg<V>> := [Named(Bare(params[i]), v)];
      assert args[0].name in ArgNames(args);
      FilledIff(params, args, i);
      MissingAgreesIff(params, args);
      assert !MissingMarks(params, PositionalCount(args), ArgNames(args))[i] && UnboundMarks(params, args)[i];
    }
  }
}
