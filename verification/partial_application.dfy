/**
 * Partial application: `f(?, 1, ...)` leaves some parameters open, and calling the result
 * calls `f` with the arguments put together. Binding the combined call to `f`'s parameters
 * must give what binding the call to the open parameters gives.
 */
module PartialApplication {
  import opened CallArgs
  import opened Wrappers

  /** One argument as written: a value, a `?` or `name: ?` placeholder, or `...`. */
  datatype PartialArg<+V> = Given(name: Option<string>, value: V) | Placeholder(name: Option<string>) | Variadic

  /** The call's arguments a partial application may draw on, in order. */
  function Positionals<V>(call: seq<Arg<V>>): seq<V> {
    if call == [] then []
    else (if call[0].Positional? then [call[0].value] else []) + Positionals(call[1..])
  }

  function Nameds<V>(call: seq<Arg<V>>): (r: seq<Arg<V>>)
    ensures forall k :: 0 <= k < |r| ==> r[k].Named?
  {
    if call == [] then [] else (if call[0].Named? then [call[0]] else []) + Nameds(call[1..])
  }

  function MakeArg<V>(name: Option<string>, value: V): Arg<V> {
    if name.Some? then Named(name.value, value) else Positional(value)
  }

  function AsPositional<V>(values: seq<V>): (r: seq<Arg<V>>)
    ensures |r| == |values| && forall k :: 0 <= k < |r| ==> r[k] == Positional(values[k])
  {
    seq(|values|, k requires 0 <= k < |values| => Positional(values[k]))
  }

  function PositionNamed<V>(named: seq<Arg<V>>, name: string): (r: Option<nat>)
    requires forall k :: 0 <= k < |named| ==> named[k].Named?
    ensures r.Some? ==> r.value < |named|
  {
    if named == [] then None
    else if named[0].name == name then Some(0)
    else
      var r := PositionNamed(named[1..], name);
      if r.Some? then Some(r.value + 1) else None
  }

  /** The arguments the wrapped call receives, with `positional` and `named` not drawn on yet. */
  function Combined<V>(bound: seq<PartialArg<V>>, positional: seq<V>, named: seq<Arg<V>>, known: bool): seq<Arg<V>>
    requires forall k :: 0 <= k < |named| ==> named[k].Named?
    decreases |bound|
  {
    if bound == [] then []
    else
      match bound[0]
      case Given(None, value) =>
        (if known then [Positional(value)] else []) + Combined(bound[1..], positional, named, known)
      case Given(Some(name), value) =>
        [Named(name, value)] + Combined(bound[1..], positional, named, known)
      case Placeholder(None) =>
        if positional == [] then Combined(bound[1..], [], named, false)
        else (if known then [Positional(positional[0])] else [])
             + Combined(bound[1..], positional[1..], named, known)
      case Placeholder(Some(name)) =>
        var at := PositionNamed(named, name);
        if at.Some? then
          [Named(name, named[at.value].value)]
          + Combined(bound[1..], positional, named[..at.value] + named[at.value + 1..], known)
        else if positional == [] then Combined(bound[1..], [], named, known)
        else [Named(name, positional[0])] + Combined(bound[1..], positional[1..], named, known)
      case Variadic =>
        if known then AsPositional(positional) + named + Combined(bound[1..], [], [], known)
        else named + Combined(bound[1..], positional, [], known)
  }

  method BindPartial<V>(bound: seq<PartialArg<V>>, call: seq<Arg<V>>) returns (args: seq<Arg<V>>)
    ensures args == Combined(bound, Positionals(call), Nameds(call), true)
  {
    var positional, named := Split(call);
    args := [];
    var known := true;
    for k := 0 to |bound|
      invariant forall i :: 0 <= i < |named| ==> named[i].Named?
      invariant args + Combined(bound[k..], positional, named, known)
             == Combined(bound, Positionals(call), Nameds(call), true)
    {
      assert bound[k..][1..] == bound[k + 1..];
      ghost var rest := Combined(bound[k..], positional, named, known);
      var more;
      more, positional, named, known := Draw(bound[k..], positional, named, known);
      assert args + rest == args + more + Combined(bound[k + 1..], positional, named, known);
      args := args + more;
    }
    assert bound[|bound|..] == [];
  }

  /** What the first argument of `bound` contributes, and what it leaves to draw on. */
  method Draw<V>(bound: seq<PartialArg<V>>, positional: seq<V>, named: seq<Arg<V>>, known: bool)
    returns (more: seq<Arg<V>>, positional': seq<V>, named': seq<Arg<V>>, known': bool)
    requires bound != [] && forall i :: 0 <= i < |named| ==> named[i].Named?
    ensures forall i :: 0 <= i < |named'| ==> named'[i].Named?
    ensures Combined(bound, positional, named, known)
         == more + Combined(bound[1..], positional', named', known')
  {
    more, positional', named', known' := [], positional, named, known;
    match bound[0]
    case Given(None, value) =>
      if known { more := [Positional(value)]; }
    case Given(Some(name), value) => more := [Named(name, value)];
    case Placeholder(None) =>
      if positional == [] {
        known' := false;
      } else {
        if known { more := [Positional(positional[0])]; }
        positional' := positional[1..];
      }
    case Placeholder(Some(name)) =>
      var at := PositionNamed(named, name);
      if at.Some? {
        more := [Named(name, named[at.value].value)];
        named' := named[..at.value] + named[at.value + 1..];
      } else if positional != [] {
        more := [Named(name, positional[0])];
        positional' := positional[1..];
      }
    case Variadic =>
      if known {
        more := AsPositional(positional);
        positional' := [];
      }
      more := more + named;
      named' := [];
  }

  method Split<V>(call: seq<Arg<V>>) returns (positional: seq<V>, named: seq<Arg<V>>)
    ensures positional == Positionals(call) && named == Nameds(call)
  {
    hide Positionals, Nameds;
    positional, named := [], [];
    for k := 0 to |call|
      invariant positional + Positionals(call[k..]) == Positionals(call)
      invariant named + Nameds(call[k..]) == Nameds(call)
    {
      SplitNext(call, k);
      match call[k]
      case Positional(value) => positional := positional + [value];
      case Named(_, _) => named := named + [call[k]];
    }
    SplitNext(call, |call|);
  }

  lemma SplitNext<V>(call: seq<Arg<V>>, k: nat)
    requires k <= |call|
    ensures k < |call| ==>
              Positionals(call[k..])
              == (if call[k].Positional? then [call[k].value] else []) + Positionals(call[k + 1..])
    ensures k < |call| ==>
              Nameds(call[k..]) == (if call[k].Named? then [call[k]] else []) + Nameds(call[k + 1..])
    ensures k == |call| ==> Positionals(call[k..]) == [] && Nameds(call[k..]) == []
  {
    if k < |call| {
      assert call[k..][1..] == call[k + 1..];
    }
  }

  // ── The parameters left open ──────────────────────────────────────────

  /** The parameter the positional entry number `position` of a partial application is written for. */
  function EntryPosition(params: seq<Param>, position: nat): (r: Option<nat>)
    ensures r.Some? ==> r.value < |params|
  {
    var at := if params == [] then 0 else if position < |params| then position else |params| - 1;
    if at < |params| && (at == position || params[at].variadic) then Some(at) else None
  }

  function Untaken(n: nat, taken: set<nat>): (r: seq<nat>)
    ensures forall k :: 0 <= k < |r| ==> r[k] < n
  {
    if n == 0 then [] else Untaken(n - 1, taken) + if n - 1 in taken then [] else [n - 1]
  }

  function Name<V>(arg: PartialArg<V>): Option<string> {
    if arg.Variadic? then None else arg.name
  }

  /** The parameter `arg` is written for, after `position` positional entries. */
  function EntryAt<V>(params: seq<Param>, arg: PartialArg<V>, position: nat): (r: Option<nat>)
    ensures r.Some? ==> r.value < |params|
  {
    if Name(arg).Some? then FirstNamed(params, Name(arg).value) else EntryPosition(params, position)
  }

  function Opens<V>(arg: PartialArg<V>, at: Option<nat>, taken: set<nat>): seq<nat> {
    if arg.Placeholder? && at.Some? && at.value !in taken then [at.value] else []
  }

  /** The open parameters, given the ones taken and the number of positional entries so far. */
  function Open<V>(params: seq<Param>, bound: seq<PartialArg<V>>, taken: set<nat>, position: nat): (r: seq<nat>)
    ensures forall k :: 0 <= k < |r| ==> r[k] < |params|
  {
    if bound == [] then []
    else if bound[0].Variadic? then Untaken(|params|, taken)
    else
      var at := EntryAt(params, bound[0], position);
      Opens(bound[0], at, taken)
      + Open(params, bound[1..], if at.Some? then taken + {at.value} else taken,
             if Name(bound[0]).Some? then position else position + 1)
  }

  function Pick(params: seq<Param>, open: seq<nat>): (r: seq<Param>)
    requires forall k :: 0 <= k < |open| ==> open[k] < |params|
    ensures |r| == |open| && forall k :: 0 <= k < |r| ==> r[k] == params[open[k]]
  {
    seq(|open|, k requires 0 <= k < |open| => params[open[k]])
  }

  method PartialApplicationParams<V>(params: seq<Param>, bound: seq<PartialArg<V>>) returns (r: seq<Param>)
    ensures r == Pick(params, Open(params, bound, {}, 0))
  {
    var open := OpenIndices(params, bound);
    r := Pick(params, open);
  }

  method OpenIndices<V>(params: seq<Param>, bound: seq<PartialArg<V>>) returns (open: seq<nat>)
    ensures open == Open(params, bound, {}, 0)
  {
    hide Open, Opens, EntryAt, Untaken;
    var taken, position, k := {}, 0, 0;
    open := [];
    assert bound[0..] == bound;
    ghost var all := Open(params, bound, {}, 0);
    while k < |bound| && !bound[k].Variadic?
      invariant k <= |bound|
      invariant open + Open(params, bound[k..], taken, position) == all
    {
      OpenNext(params, bound, k, taken, position);
      var at := EntryAt(params, bound[k], position);
      open := open + Opens(bound[k], at, taken);
      if at.Some? {
        taken := taken + {at.value};
      }
      if Name(bound[k]).None? {
        position := position + 1;
      }
      k := k + 1;
    }
    OpenLast(params, bound, k, taken, position);
    if k < |bound| {
      open := open + Untaken(|params|, taken);
    }
  }

  lemma OpenNext<V>(params: seq<Param>, bound: seq<PartialArg<V>>, k: nat, taken: set<nat>, position: nat)
    requires k < |bound| && !bound[k].Variadic?
    ensures Open(params, bound[k..], taken, position)
         == Opens(bound[k], EntryAt(params, bound[k], position), taken)
            + Open(params, bound[k + 1..],
                   if EntryAt(params, bound[k], position).Some? then taken + {EntryAt(params, bound[k], position).value}
                   else taken,
                   if Name(bound[k]).Some? then position else position + 1)
  {
    assert bound[k..][1..] == bound[k + 1..];
  }

  lemma OpenLast<V>(params: seq<Param>, bound: seq<PartialArg<V>>, k: nat, taken: set<nat>, position: nat)
    requires k <= |bound| && (k < |bound| ==> bound[k].Variadic?)
    ensures Open(params, bound[k..], taken, position) == if k < |bound| then Untaken(|params|, taken) else []
  {
    if k < |bound| {
      assert bound[k..][0] == Variadic;
    } else {
      assert bound[k..] == [];
    }
  }
}
