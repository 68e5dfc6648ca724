/**
 * What becomes of the call's named arguments: every entry of a partial application has its
 * own contribution to the combined call, found without drawing on lists, and binding the
 * combined call of `f(...)` is binding the call.
 */
module PartialNamed {
  import opened CallArgs
  import opened PartialApplication
  import opened Wrappers

  // ── Binding, by name and by position ──────────────────────────────────

  /** The last value naming parameter `i`. */
  function ByName<V>(params: seq<Param>, args: seq<Arg<V>>, i: nat): Option<V> {
    if args == [] then None
    else
      var last := args[|args| - 1];
      if last.Named? && FirstNamed(params, last.name) == Some(i) then Some(last.value)
      else ByName(params, args[..|args| - 1], i)
  }

  /** The first positional value that goes to parameter `i`. */
  function ByPosition<V>(params: seq<Param>, values: seq<V>, i: nat): Option<V> {
    if values == [] then None
    else
      var n := |values| - 1;
      var before := ByPosition(params, values[..n], i);
      if before.None? && PositionalTarget(params, n) == Some(i) then Some(values[n]) else before
  }

  lemma {:induction false} LastPositional<V>(args: seq<Arg<V>>)
    requires args != []
    ensures var n := |args| - 1;
            Positionals(args)
            == if args[n].Positional? then Positionals(args[..n]) + [args[n].value] else Positionals(args[..n])
  {
    if |args| == 1 {
      assert args[1..] == [];
    } else {
      var front := args[..|args| - 1];
      LastPositional(args[1..]);
      assert args[1..][..|args| - 2] == front[1..];
      assert Positionals(args) == (if args[0].Positional? then [args[0].value] else []) + Positionals(args[1..]);
      assert Positionals(front) == (if args[0].Positional? then [args[0].value] else []) + Positionals(front[1..]);
      hide Positionals;
    }
  }

  lemma {:induction false} LastNamed<V>(args: seq<Arg<V>>)
    requires args != []
    ensures var n := |args| - 1;
            Nameds(args) == if args[n].Named? then Nameds(args[..n]) + [args[n]] else Nameds(args[..n])
  {
    if |args| == 1 {
      assert args[1..] == [];
    } else {
      var front := args[..|args| - 1];
      LastNamed(args[1..]);
      assert args[1..][..|args| - 2] == front[1..];
      assert Nameds(args) == (if args[0].Named? then [args[0]] else []) + Nameds(args[1..]);
      assert Nameds(front) == (if args[0].Named? then [args[0]] else []) + Nameds(front[1..]);
      hide Nameds;
    }
  }

  lemma {:induction false} CountIsLength<V>(args: seq<Arg<V>>)
    ensures PositionalCount(args) == |Positionals(args)|
  {
    if args != [] {
      LastPositional(args);
      CountIsLength(args[..|args| - 1]);
    }
  }

  /** The last naming argument wins, else the first positional one. */
  lemma {:induction false} BoundBySides<V>(params: seq<Param>, args: seq<Arg<V>>, i: nat)
    ensures Bound(params, args, i)
         == if ByName(params, args, i).Some? then ByName(params, args, i) else ByPosition(params, Positionals(args), i)
  {
    hide Positionals, FirstNamed, PositionalTarget;
    if args == [] {
      OfNamed(args);
    } else {
      var n := |args| - 1;
      BoundBySides(params, args[..n], i);
      LastPositional(args);
      CountIsLength(args[..n]);
      if args[n].Positional? {
        assert Positionals(args)[..|Positionals(args)| - 1] == Positionals(args[..n]);
      }
    }
  }

  lemma {:induction false} ByNameOfNameds<V>(params: seq<Param>, args: seq<Arg<V>>, i: nat)
    ensures ByName(params, args, i) == ByName(params, Nameds(args), i)
  {
    hide Nameds, FirstNamed;
    if args == [] {
      OfNamed(args);
    } else {
      var n := |args| - 1;
      ByNameOfNameds(params, args[..n], i);
      LastNamed(args);
      if args[n].Named? {
        assert Nameds(args)[..|Nameds(args)| - 1] == Nameds(args[..n]);
      }
    }
  }

  lemma {:induction false} OfNamed<V>(named: seq<Arg<V>>)
    requires forall k :: 0 <= k < |named| ==> named[k].Named?
    ensures Positionals(named) == [] && Nameds(named) == named
  {
    if named != [] {
      OfNamed(named[1..]);
    }
  }

  lemma {:induction false} OfBoth<V>(values: seq<V>, named: seq<Arg<V>>)
    requires forall k :: 0 <= k < |named| ==> named[k].Named?
    ensures Positionals(AsPositional(values) + named) == values && Nameds(AsPositional(values) + named) == named
  {
    var args := AsPositional(values) + named;
    if values == [] {
      assert args == named;
      OfNamed(named);
    } else {
      assert args[0] == Positional(values[0]) && args[1..] == AsPositional(values[1..]) + named;
      OfBoth(values[1..], named);
    }
  }

  /** `f(...)` called is `f` called, whatever the call names. */
  lemma VariadicKeepsCall<V>(params: seq<Param>, call: seq<Arg<V>>, i: nat)
    ensures Bound(params, Combined([Variadic], Positionals(call), Nameds(call), true), i) == Bound(params, call, i)
  {
    var positional, named := Positionals(call), Nameds(call);
    var r := AsPositional(positional) + named;
    JustVariadic(positional, named);
    OfBoth(positional, named);
    hide Positionals, Nameds, Bound, ByName, ByPosition;
    BoundBySides(params, r, i);
    BoundBySides(params, call, i);
    ByNameOfNameds(params, r, i);
    ByNameOfNameds(params, call, i);
  }

  lemma JustVariadic<V>(positional: seq<V>, named: seq<Arg<V>>)
    requires forall k :: 0 <= k < |named| ==> named[k].Named?
    ensures Combined([Variadic], positional, named, true) == AsPositional(positional) + named
  {
    var bound: seq<PartialArg<V>> := [Variadic];
    assert bound[1..] == [];
  }

  // ── What each entry contributes ───────────────────────────────────────

  /** How many entries are `name: ?`. */
  function Names<V>(bound: seq<PartialArg<V>>, name: string): nat {
    if bound == [] then 0
    else Names(bound[..|bound| - 1], name) + if bound[|bound| - 1] == Placeholder(Some(name)) then 1 else 0
  }

  /** How many arguments are named `name`. */
  function Uses<V>(named: seq<Arg<V>>, name: string): nat {
    if named == [] then 0
    else Uses(named[..|named| - 1], name) + if IsNamed(named[|named| - 1], name) then 1 else 0
  }

  predicate IsNamed<V>(arg: Arg<V>, name: string) {
    arg.Named? && arg.name == name
  }

  /** Argument number `m`, from 0, of those named `name`. */
  function Nth<V>(named: seq<Arg<V>>, name: string, m: nat): (r: Option<V>)
    ensures r.None? <==> Uses(named, name) <= m
    ensures r.Some? ==> exists j :: 0 <= j < |named| && IsNth(named, name, m, j) && named[j].value == r.value
  {
    if named == [] then None
    else
      var n := |named| - 1;
      var r := Nth(named[..n], name, m);
      assert named[..n][..n] == named[..n];
      assert forall j :: 0 <= j < n && IsNth(named[..n], name, m, j) ==> named[..n][..j] == named[..j];
      if r.Some? then r
      else if IsNamed(named[n], name) && Uses(named[..n], name) == m then
        assert IsNth(named, name, m, n);
        Some(named[n].value)
      else None
  }

  predicate IsNth<V>(named: seq<Arg<V>>, name: string, m: nat, j: nat)
    requires j < |named|
  {
    IsNamed(named[j], name) && Uses(named[..j], name) == m
  }

  /** Argument `j` is one that no entry `name: ?` takes. */
  predicate Free<V>(bound: seq<PartialArg<V>>, named: seq<Arg<V>>, j: nat)
    requires j < |named|
  {
    named[j].Named? ==> Uses(named[..j], named[j].name) >= Names(bound, named[j].name)
  }

  /** The arguments no entry takes, in order. */
  function Left<V>(bound: seq<PartialArg<V>>, named: seq<Arg<V>>): (r: seq<Arg<V>>)
    requires forall k :: 0 <= k < |named| ==> named[k].Named?
    ensures forall k :: 0 <= k < |r| ==> r[k].Named?
  {
    if named == [] then []
    else
      var n := |named| - 1;
      if Free(bound, named, n) then Left(bound, named[..n]) + [named[n]] else Left(bound, named[..n])
  }

  /** How many positional values the entries ask for. */
  function Asked<V>(bound: seq<PartialArg<V>>, named: seq<Arg<V>>): nat {
    if bound == [] then 0
    else
      var front, last := bound[..|bound| - 1], bound[|bound| - 1];
      Asked(front, named) + if Asks(front, last, named) then 1 else 0
  }

  /** `arg`, behind `front`, is `?`, or `name: ?` with no argument of that name left for it. */
  predicate Asks<V>(front: seq<PartialArg<V>>, arg: PartialArg<V>, named: seq<Arg<V>>) {
    arg.Placeholder? && (arg.name.Some? ==> Uses(named, arg.name.value) <= Names(front, arg.name.value))
  }

  /** Some entry is `...`: what follows finds nothing left. */
  predicate Gone<V>(bound: seq<PartialArg<V>>) {
    exists k :: 0 <= k < |bound| && bound[k].Variadic?
  }

  /** Every `?` has found a value. */
  predicate Known<V>(bound: seq<PartialArg<V>>, positional: seq<V>, named: seq<Arg<V>>) {
    bound == [] ||
    var front, last := bound[..|bound| - 1], bound[|bound| - 1];
    Known(front, positional, named)
    && (last == Placeholder(None) ==> !Gone(front) && Asked(front, named) < |positional|)
  }

  /** What entry `arg`, behind `front`, gives the combined call. */
  function Contribution<V>(front: seq<PartialArg<V>>, arg: PartialArg<V>, positional: seq<V>, named: seq<Arg<V>>)
    : seq<Arg<V>>
    requires forall k :: 0 <= k < |named| ==> named[k].Named?
  {
    var known, next := Known(front, positional, named), Asked(front, named);
    match arg
    case Given(None, value) => if known then [Positional(value)] else []
    case Given(Some(name), value) => [Named(name, value)]
    case Placeholder(None) =>
      if known && !Gone(front) && next < |positional| then [Positional(positional[next])] else []
    case Placeholder(Some(name)) =>
      var value := Nth(named, name, Names(front, name));
      if Gone(front) then []
      else if value.Some? then [Named(name, value.value)]
      else if next < |positional| then [Named(name, positional[next])] else []
    case Variadic =>
      if Gone(front) then []
      else (if known && next < |positional| then AsPositional(positional[next..]) else []) + Left(front, named)
  }

  function Contributions<V>(bound: seq<PartialArg<V>>, positional: seq<V>, named: seq<Arg<V>>): seq<Arg<V>>
    requires forall k :: 0 <= k < |named| ==> named[k].Named?
  {
    if bound == [] then []
    else
      var front, last := bound[..|bound| - 1], bound[|bound| - 1];
      Contributions(front, positional, named) + Contribution(front, last, positional, named)
  }

  // ── Drawing on the lists gives the contributions ──────────────────────

  lemma {:induction false} PositionAppend<V>(a: seq<Arg<V>>, b: seq<Arg<V>>, name: string)
    requires forall k :: 0 <= k < |a| ==> a[k].Named?
    requires forall k :: 0 <= k < |b| ==> b[k].Named?
    ensures PositionNamed(a + b, name)
         == if PositionNamed(a, name).Some? then PositionNamed(a, name)
            else if PositionNamed(b, name).Some? then Some(|a| + PositionNamed(b, name).value) else None
  {
    if a == [] {
      assert a + b == b;
    } else {
      assert (a + b)[1..] == a[1..] + b;
      PositionAppend(a[1..], b, name);
    }
  }

  /** Behind one more `name: ?`, the first argument left of that name is taken, and no other. */
  ghost predicate Takes<V>(left: seq<Arg<V>>, left': seq<Arg<V>>, name: string, value: Option<V>)
    requires forall k :: 0 <= k < |left| ==> left[k].Named?
  {
    var at := PositionNamed(left, name);
    if value.Some? then
      at.Some? && left[at.value].value == value.value && left' == left[..at.value] + left[at.value + 1..]
    else at.None? && left' == left
  }

  lemma TakesLater<V>(left: seq<Arg<V>>, left': seq<Arg<V>>, name: string, value: Option<V>, x: Arg<V>)
    requires forall k :: 0 <= k < |left| ==> left[k].Named?
    requires x.Named? && Takes(left, left', name, value) && (value.None? ==> x.name != name)
    ensures Takes(left + [x], left' + [x], name, value)
  {
    PositionAppend(left, [x], name);
    NoneNamed([x], name);
    var at := PositionNamed(left, name);
    hide PositionNamed;
    if at.Some? {
      assert left[at.value + 1..] + [x] == (left + [x])[at.value + 1..];
      assert left[..at.value] == (left + [x])[..at.value];
    }
  }

  lemma TakesNow<V>(left: seq<Arg<V>>, left': seq<Arg<V>>, name: string, x: Arg<V>)
    requires forall k :: 0 <= k < |left| ==> left[k].Named?
    requires IsNamed(x, name) && Takes(left, left', name, None)
    ensures Takes(left + [x], left', name, Some(x.value))
  {
    PositionAppend(left, [x], name);
    NoneNamed([x], name);
    hide PositionNamed;
    var all := left + [x];
    assert all[..|left|] + all[|left| + 1..] == left;
  }

  lemma {:induction false} TakesNth<V>(front: seq<PartialArg<V>>, name: string, named: seq<Arg<V>>)
    requires forall k :: 0 <= k < |named| ==> named[k].Named?
    ensures Takes(Left(front, named), Left(front + [Placeholder(Some(name))], named), name,
                  Nth(named, name, Names(front, name)))
  {
    var next := front + [Placeholder(Some(name))];
    NamesAppend(front, name);
    if named == [] {
      NoneNamed(named, name);
    } else {
      hide Names, PositionNamed, Takes;
      var n, x := |named| - 1, named[|named| - 1];
      var left, left' := Left(front, named[..n]), Left(next, named[..n]);
      var value := Nth(named[..n], name, Names(front, name));
      TakesNth(front, name, named[..n]);
      if Free(next, named, n) {
        TakesLater(left, left', name, value, x);
      } else if Free(front, named, n) {
        TakesNow(left, left', name, x);
      }
    }
  }

  lemma NamesAppend<V>(front: seq<PartialArg<V>>, name: string)
    ensures forall x :: Names(front + [Placeholder(Some(name))], x) == Names(front, x) + if x == name then 1 else 0
  {
    assert (front + [Placeholder(Some(name))])[..|front|] == front;
  }

  lemma NoneNamed<V>(named: seq<Arg<V>>, name: string)
    requires |named| <= 1 && forall k :: 0 <= k < |named| ==> named[k].Named?
    ensures PositionNamed(named, name) == if named != [] && named[0].name == name then Some(0) else None
  {
    if named != [] {
      assert named[1..] == [];
    }
  }

  function PositionalAt<V>(front: seq<PartialArg<V>>, positional: seq<V>, named: seq<Arg<V>>): seq<V> {
    if Gone(front) || Asked(front, named) >= |positional| then [] else positional[Asked(front, named)..]
  }

  function NamedAt<V>(front: seq<PartialArg<V>>, named: seq<Arg<V>>): (r: seq<Arg<V>>)
    requires forall k :: 0 <= k < |named| ==> named[k].Named?
    ensures forall k :: 0 <= k < |r| ==> r[k].Named?
  {
    if Gone(front) then [] else Left(front, named)
  }

  lemma GoneAppend<V>(front: seq<PartialArg<V>>, arg: PartialArg<V>)
    ensures Gone(front + [arg]) <==> Gone(front) || arg.Variadic?
  {
    var next := front + [arg];
    if Gone(front) {
      var k :| 0 <= k < |front| && front[k].Variadic?;
      assert next[k].Variadic?;
    } else if arg.Variadic? {
      assert next[|front|].Variadic?;
    }
  }

  /** Without a value for some `?`, none is left. */
  lemma {:induction false} UnknownIsDrawn<V>(front: seq<PartialArg<V>>, positional: seq<V>, named: seq<Arg<V>>)
    requires !Known(front, positional, named)
    ensures PositionalAt(front, positional, named) == []
  {
    var last := |front| - 1;
    GoneAppend(front[..last], front[last]);
    assert front == front[..last] + [front[last]];
    if !Known(front[..last], positional, named) {
      UnknownIsDrawn(front[..last], positional, named);
    }
  }

  lemma NamesKept<V>(front: seq<PartialArg<V>>, arg: PartialArg<V>)
    requires arg.Placeholder? ==> arg.name.None?
    ensures forall x :: Names(front + [arg], x) == Names(front, x)
  {
    assert (front + [arg])[..|front|] == front;
  }

  lemma {:induction false} LeftKept<V>(front: seq<PartialArg<V>>, next: seq<PartialArg<V>>, named: seq<Arg<V>>)
    requires forall k :: 0 <= k < |named| ==> named[k].Named?
    requires forall x :: Names(next, x) == Names(front, x)
    ensures Left(next, named) == Left(front, named)
  {
    if named != [] {
      LeftKept(front, next, named[..|named| - 1]);
    }
  }

  lemma {:induction false} LeftOfNone<V>(named: seq<Arg<V>>)
    requires forall k :: 0 <= k < |named| ==> named[k].Named?
    ensures Left([], named) == named
  {
    if named != [] {
      LeftOfNone(named[..|named| - 1]);
    }
  }

  /** `Combined` on one entry, from what it has left to draw on, gives the contribution. */
  ghost predicate StepIs<V>(front: seq<PartialArg<V>>, arg: PartialArg<V>, back: seq<PartialArg<V>>,
                            positional: seq<V>, named: seq<Arg<V>>)
    requires forall k :: 0 <= k < |named| ==> named[k].Named?
  {
    var next := front + [arg];
    Combined([arg] + back, PositionalAt(front, positional, named), NamedAt(front, named),
             Known(front, positional, named))
    == Contribution(front, arg, positional, named)
       + Combined(back, PositionalAt(next, positional, named), NamedAt(next, named), Known(next, positional, named))
  }

  lemma Next<V>(front: seq<PartialArg<V>>, arg: PartialArg<V>, back: seq<PartialArg<V>>,
                positional: seq<V>, named: seq<Arg<V>>)
    requires forall k :: 0 <= k < |named| ==> named[k].Named?
    ensures var next := front + [arg];
            && next[..|front|] == front && next[|front|] == arg && ([arg] + back)[1..] == back
            && (Gone(next) <==> Gone(front) || arg.Variadic?)
            && (!Known(front, positional, named) ==> PositionalAt(front, positional, named) == [])
            && Asked(next, named) == Asked(front, named) + (if Asks(front, arg, named) then 1 else 0)
            && (Known(next, positional, named) <==>
                  Known(front, positional, named)
                  && (arg == Placeholder(None) ==> !Gone(front) && Asked(front, named) < |positional|))
  {
    GoneAppend(front, arg);
    if !Known(front, positional, named) {
      UnknownIsDrawn(front, positional, named);
    }
  }

  /** An entry that asks draws the next value, if there is one. */
  lemma DrawNext<V>(front: seq<PartialArg<V>>, arg: PartialArg<V>, positional: seq<V>, named: seq<Arg<V>>)
    requires !arg.Variadic?
    ensures var rest, rest' := PositionalAt(front, positional, named), PositionalAt(front + [arg], positional, named);
            && (rest == [] <==> Gone(front) || Asked(front, named) >= |positional|)
            && (rest != [] ==> rest[0] == positional[Asked(front, named)])
            && rest' == if Asks(front, arg, named) && rest != [] then rest[1..] else rest
  {
    GoneAppend(front, arg);
    assert (front + [arg])[..|front|] == front;
    hide Asks, Gone;
    assert Asked(front + [arg], named) == Asked(front, named) + if Asks(front, arg, named) then 1 else 0;
    hide Asked;
  }

  lemma CombinedNamed<V>(name: string, back: seq<PartialArg<V>>, positional: seq<V>, named: seq<Arg<V>>, known: bool)
    requires forall k :: 0 <= k < |named| ==> named[k].Named?
    ensures var at := PositionNamed(named, name);
            var whole := Combined([Placeholder(Some(name))] + back, positional, named, known);
            if at.Some? then
              whole == [Named(name, named[at.value].value)]
                       + Combined(back, positional, named[..at.value] + named[at.value + 1..], known)
            else if positional == [] then whole == Combined(back, [], named, known)
            else whole == [Named(name, positional[0])] + Combined(back, positional[1..], named, known)
  {
    var bound: seq<PartialArg<V>> := [Placeholder(Some(name))] + back;
    assert bound[1..] == back;
    hide PositionNamed;
  }

  lemma StepNamed<V>(front: seq<PartialArg<V>>, name: string, back: seq<PartialArg<V>>,
                     positional: seq<V>, named: seq<Arg<V>>)
    requires forall k :: 0 <= k < |named| ==> named[k].Named?
    ensures StepIs(front, Placeholder(Some(name)), back, positional, named)
  {
    hide Gone, Left, Names, Uses, Nth, Known, Asked, PositionalAt, Combined, PositionNamed;
    var arg: PartialArg<V> := Placeholder(Some(name));
    Next(front, arg, back, positional, named);
    DrawNext(front, arg, positional, named);
    TakesNth(front, name, named);
    CombinedNamed(name, back, PositionalAt(front, positional, named), NamedAt(front, named),
                  Known(front, positional, named));
    NthSome(front, name, named);
  }

  lemma NthSome<V>(front: seq<PartialArg<V>>, name: string, named: seq<Arg<V>>)
    ensures Nth(named, name, Names(front, name)).None? <==> Asks(front, Placeholder(Some(name)), named)
  {
  }

  lemma CombinedOther<V>(arg: PartialArg<V>, back: seq<PartialArg<V>>, positional: seq<V>, named: seq<Arg<V>>,
                         known: bool)
    requires forall k :: 0 <= k < |named| ==> named[k].Named?
    requires arg.Placeholder? ==> arg.name.None?
    ensures var whole := Combined([arg] + back, positional, named, known);
            if arg.Variadic? then
              whole == (if known then AsPositional(positional) + named else named)
                       + Combined(back, if known then [] else positional, [], known)
            else if arg.Given? then
              whole == (if arg.name.Some? then [Named(arg.name.value, arg.value)]
                        else if known then [Positional(arg.value)] else [])
                       + Combined(back, positional, named, known)
            else if positional == [] then whole == Combined(back, [], named, false)
            else whole == (if known then [Positional(positional[0])] else [])
                          + Combined(back, positional[1..], named, known)
  {
    assert ([arg] + back)[1..] == back;
  }

  lemma StepOther<V>(front: seq<PartialArg<V>>, arg: PartialArg<V>, back: seq<PartialArg<V>>,
                     positional: seq<V>, named: seq<Arg<V>>)
    requires forall k :: 0 <= k < |named| ==> named[k].Named?
    requires !arg.Variadic? && (arg.Placeholder? ==> arg.name.None?)
    ensures StepIs(front, arg, back, positional, named)
  {
    hide Gone, Left, Names, Uses, Nth, Known, Asked, PositionalAt, Combined;
    Next(front, arg, back, positional, named);
    DrawNext(front, arg, positional, named);
    NamesKept(front, arg);
    LeftKept(front, front + [arg], named);
    CombinedOther(arg, back, PositionalAt(front, positional, named), NamedAt(front, named),
                  Known(front, positional, named));
  }

  lemma StepVariadic<V>(front: seq<PartialArg<V>>, back: seq<PartialArg<V>>, positional: seq<V>, named: seq<Arg<V>>)
    requires forall k :: 0 <= k < |named| ==> named[k].Named?
    ensures StepIs(front, Variadic, back, positional, named)
  {
    hide Gone, Left, Names, Uses, Nth, Known, Asked, Combined;
    Next(front, Variadic, back, positional, named);
    CombinedOther(Variadic, back, PositionalAt(front, positional, named), NamedAt(front, named),
                  Known(front, positional, named));
    assert AsPositional<V>([]) == [];
  }

  lemma Step<V>(front: seq<PartialArg<V>>, arg: PartialArg<V>, back: seq<PartialArg<V>>,
                positional: seq<V>, named: seq<Arg<V>>)
    requires forall k :: 0 <= k < |named| ==> named[k].Named?
    ensures StepIs(front, arg, back, positional, named)
  {
    hide StepIs;
    if arg.Placeholder? && arg.name.Some? {
      StepNamed(front, arg.name.value, back, positional, named);
    } else if arg.Variadic? {
      StepVariadic(front, back, positional, named);
    } else {
      StepOther(front, arg, back, positional, named);
    }
  }

  lemma {:induction false} CombinedFrom<V>(bound: seq<PartialArg<V>>, k: nat, positional: seq<V>, named: seq<Arg<V>>)
    requires k <= |bound| && forall k :: 0 <= k < |named| ==> named[k].Named?
    ensures Contributions(bound, positional, named)
         == Contributions(bound[..k], positional, named)
            + Combined(bound[k..], PositionalAt(bound[..k], positional, named), NamedAt(bound[..k], named),
                       Known(bound[..k], positional, named))
    decreases |bound| - k
  {
    hide Combined, Known, PositionalAt, NamedAt, Contribution;
    if k == |bound| {
      NothingBehind(bound, positional, named);
    } else {
      CombinedFrom(bound, k + 1, positional, named);
      Step(bound[..k], bound[k], bound[k + 1..], positional, named);
      assert bound[..k + 1][..k] == bound[..k] && bound[..k] + [bound[k]] == bound[..k + 1];
      assert [bound[k]] + bound[k + 1..] == bound[k..];
    }
  }

  lemma NothingBehind<V>(bound: seq<PartialArg<V>>, positional: seq<V>, named: seq<Arg<V>>)
    requires forall k :: 0 <= k < |named| ==> named[k].Named?
    ensures bound[|bound|..] == [] && bound[..|bound|] == bound
    ensures forall p: seq<V>, n: seq<Arg<V>>, known ::
              (forall k :: 0 <= k < |n| ==> n[k].Named?) ==> Combined<V>([], p, n, known) == []
  {
  }

  /** The combined call is what the entries contribute, one after the other. */
  lemma CombinedIs<V>(bound: seq<PartialArg<V>>, call: seq<Arg<V>>)
    ensures Combined(bound, Positionals(call), Nameds(call), true)
         == Contributions(bound, Positionals(call), Nameds(call))
  {
    var positional, named := Positionals(call), Nameds(call);
    LeftOfNone<V>(named);
    CombinedFrom(bound, 0, positional, named);
    assert bound[..0] == [] && bound[0..] == bound;
  }

  // ── What an entry finds in the call ───────────────────────────────────

  lemma {:induction false} NthInCall<V>(call: seq<Arg<V>>, name: string, m: nat)
    ensures Uses(Nameds(call), name) == Uses(call, name) && Nth(Nameds(call), name, m) == Nth(call, name, m)
  {
    hide Nameds;
    if call == [] {
      OfNamed(call);
    } else {
      var n := |call| - 1;
      NthInCall(call[..n], name, m);
      LastNamed(call);
      if call[n].Named? {
        assert Nameds(call)[..|Nameds(call)| - 1] == Nameds(call[..n]);
      }
    }
  }

  lemma {:induction false} UsesBetween<V>(named: seq<Arg<V>>, name: string, j: nat, m: nat)
    requires j < |named| && IsNth(named, name, m, j)
    ensures Nth(named, name, m) == Some(named[j].value)
  {
    var n := |named| - 1;
    if j < n {
      assert named[..n][..j] == named[..j];
      UsesBetween(named[..n], name, j, m);
    }
  }

  /**
   * Entry `k`, being `name: ?` with `m` such entries before it, carries the call's argument
   * number `m` of that name, wherever the call has it.
   */
  lemma PlaceholderTakesItsName<V>(bound: seq<PartialArg<V>>, k: nat, call: seq<Arg<V>>, j: nat)
    requires k < |bound| && bound[k].Placeholder? && bound[k].name.Some? && !Gone(bound[..k])
    requires j < |call| && IsNth(call, bound[k].name.value, Names(bound[..k], bound[k].name.value), j)
    ensures Contribution(bound[..k], bound[k], Positionals(call), Nameds(call))
         == [Named(bound[k].name.value, call[j].value)]
  {
    var name := bound[k].name.value;
    var m := Names(bound[..k], name);
    UsesBetween(call, name, j, m);
    NthInCall(call, name, m);
  }

  /** Where an entry's contribution stands in the combined call. */
  lemma EntryContributes<V>(bound: seq<PartialArg<V>>, k: nat, call: seq<Arg<V>>) returns (after: seq<Arg<V>>)
    requires k < |bound|
    ensures Combined(bound, Positionals(call), Nameds(call), true)
         == Contributions(bound[..k], Positionals(call), Nameds(call))
            + Contribution(bound[..k], bound[k], Positionals(call), Nameds(call)) + after
  {
    var positional, named := Positionals(call), Nameds(call);
    CombinedIs(bound, call);
    CombinedFrom(bound, k + 1, positional, named);
    assert bound[..k + 1][..k] == bound[..k];
    var next := bound[..k + 1];
    after := Combined(bound[k + 1..], PositionalAt(next, positional, named), NamedAt(next, named),
                      Known(next, positional, named));
  }

  /** The named arguments of the call no entry takes, each once and in order, are what is left. */
  lemma {:induction false} LeftIsFree<V>(bound: seq<PartialArg<V>>, call: seq<Arg<V>>) returns (at: seq<nat>)
    ensures |at| == |Left(bound, Nameds(call))|
    ensures forall k :: 0 <= k < |at| ==> at[k] < |call| && Left(bound, Nameds(call))[k] == call[at[k]]
    ensures forall j, k :: 0 <= j < k < |at| ==> at[j] < at[k]
    ensures forall j :: 0 <= j < |call| ==> (call[j].Named? && Free(bound, call, j) <==> j in at)
  {
    hide Uses, Names, Nameds;
    at := [];
    if call == [] {
      OfNamed(call);
    } else {
      var n := |call| - 1;
      at := LeftIsFree(bound, call[..n]);
      LastNamed(call);
      forall j | 0 <= j < n ensures Free(bound, call[..n], j) <==> Free(bound, call, j) {
        assert call[..n][..j] == call[..j];
      }
      if call[n].Named? {
        LeftWithLast(bound, call);
        if Free(bound, call, n) {
          at := at + [n];
        }
      }
    }
  }

  lemma LeftWithLast<V>(bound: seq<PartialArg<V>>, call: seq<Arg<V>>)
    requires call != [] && call[|call| - 1].Named?
    ensures var n := |call| - 1;
            Left(bound, Nameds(call))
            == if Free(bound, call, n) then Left(bound, Nameds(call[..n])) + [call[n]]
               else Left(bound, Nameds(call[..n]))
  {
    var n := |call| - 1;
    LastNamed(call);
    NthInCall(call[..n], call[n].name, 0);
    assert Nameds(call)[..|Nameds(call)| - 1] == Nameds(call[..n]);
    hide Uses, Names, Nameds;
  }

  /**
   * `...` hands on the positional values not drawn yet, unless some `?` found none, and behind
   * them, in order and once each, the call's named arguments that no `name: ?` before it takes.
   */
  lemma VariadicPassesTheRest<V>(bound: seq<PartialArg<V>>, k: nat, call: seq<Arg<V>>)
    returns (before: seq<Arg<V>>, rest: seq<V>, handed: seq<Arg<V>>, at: seq<nat>, after: seq<Arg<V>>)
    requires k < |bound| && bound[k].Variadic? && !Gone(bound[..k])
    ensures Combined(bound, Positionals(call), Nameds(call), true) == before + (AsPositional(rest) + handed) + after
    ensures before == Contributions(bound[..k], Positionals(call), Nameds(call))
    ensures var values, asked := Positionals(call), Asked(bound[..k], Nameds(call));
            rest == if Known(bound[..k], values, Nameds(call)) && asked < |values| then values[asked..] else []
    ensures |handed| == |at| && forall i :: 0 <= i < |at| ==> at[i] < |call| && handed[i] == call[at[i]]
    ensures forall i, j :: 0 <= i < j < |at| ==> at[i] < at[j]
    ensures forall j :: 0 <= j < |call| ==> (call[j].Named? && Free(bound[..k], call, j) <==> j in at)
  {
    hide Uses, Names, Nameds, Positionals, Gone, Known, Asked, Left, Contributions, Combined, Free;
    after := EntryContributes(bound, k, call);
    var values, asked := Positionals(call), Asked(bound[..k], Nameds(call));
    before := Contributions(bound[..k], values, Nameds(call));
    rest := if Known(bound[..k], values, Nameds(call)) && asked < |values| then values[asked..] else [];
    handed := Left(bound[..k], Nameds(call));
    at := LeftIsFree(bound[..k], call);
    assert AsPositional<V>([]) == [];
  }
}
