/**
 * Names as they are spelled: a parameter is written with or without the `$` a named argument
 * leaves out. What the binder, the missing-argument check and the hints do with a name, from
 * the spellings alone.
 */
module ParamNames {
  import opened CallArgs
  import opened InlayHints
  import opened Wrappers

  /** `p` is written `$name`, or `name` itself where that has no `$` in front. */
  predicate Spells(p: Param, name: string) {
    p.name == "$" + name || (p.name == name && !("$" <= name))
  }

  lemma BareSpells(p: Param, name: string)
    ensures Bare(p) == name <==> Spells(p, name)
  {
    if p.name != [] && p.name[0] == '$' {
      assert p.name == "$" + p.name[1..];
      assert ("$" + name)[1..] == name;
    }
  }

  /** Parameter `i` is the first one spelled `name`. */
  ghost predicate FirstSpelled(params: seq<Param>, i: nat, name: string) {
    i < |params| && Spells(params[i], name) && forall j :: 0 <= j < i ==> !Spells(params[j], name)
  }

  lemma FirstNamedIff(params: seq<Param>, name: string, i: nat)
    ensures FirstNamed(params, name) == Some(i) <==> FirstSpelled(params, i, name)
  {
    forall j | 0 <= j < |params| ensures Bare(params[j]) == name <==> Spells(params[j], name) {
      BareSpells(params[j], name);
    }
  }

  /** A named argument goes to the first parameter of its spelling, and nowhere else. */
  lemma NamedTargetIff<V>(params: seq<Param>, args: seq<Arg<V>>, k: nat, i: nat)
    requires k < |args| && args[k].Named?
    ensures Target(params, args, k) == Some(i) <==> FirstSpelled(params, i, args[k].name)
  {
    FirstNamedIff(params, args[k].name, i);
  }

  /** The last argument that spells a parameter's name is what the parameter holds. */
  lemma NamedBinds<V>(params: seq<Param>, args: seq<Arg<V>>, i: nat, k: nat)
    requires k < |args| && args[k].Named? && FirstSpelled(params, i, args[k].name)
    requires forall l :: k < l < |args| && args[l].Named? ==> !FirstSpelled(params, i, args[l].name)
    ensures Bound(params, args, i) == Some(args[k].value)
  {
    forall l: nat | l < |args| && args[l].Named?
      ensures Target(params, args, l) == Some(i) <==> FirstSpelled(params, i, args[l].name)
    {
      NamedTargetIff(params, args, l, i);
    }
    BoundByBinder(params, args, i, k);
  }

  /** One named argument alone fills the first parameter of its spelling, and no other. */
  lemma NamedAlone<V>(params: seq<Param>, name: string, v: V, i: nat)
    ensures Bound(params, [Named(name, v)], i) == if FirstSpelled(params, i, name) then Some(v) else None
  {
    var args: seq<Arg<V>> := [Named(name, v)];
    NamedTargetIff(params, args, 0, i);
    BoundNoneIff(params, args, i);
    if FirstSpelled(params, i, name) {
      NamedBinds(params, args, i, 0);
    }
  }

  /** Positional argument number `i` fills parameter `i` unless an argument names it. */
  lemma PositionalBinds<V>(params: seq<Param>, args: seq<Arg<V>>, i: nat, k: nat)
    requires i < |params| && k < |args| && args[k].Positional? && PositionalCount(args[..k]) == i
    requires forall l :: 0 <= l < |args| && args[l].Named? ==> !FirstSpelled(params, i, args[l].name)
    ensures Bound(params, args, i) == Some(args[k].value)
  {
    forall l: nat | l < |args| && l != k && Target(params, args, l) == Some(i)
      ensures args[l].Positional? && k < l
    {
      if args[l].Named? {
        NamedTargetIff(params, args, l, i);
      } else if l < k {
        assert args[..k][..l] == args[..l];
        PositionalCountPrefix(args[..k], l);
      }
    }
    BoundByBinder(params, args, i, k);
  }

  // ── Missing arguments and hints ───────────────────────────────────────

  /** Some name of the list spells `p`. */
  ghost predicate SpelledBy(p: Param, names: seq<string>) {
    exists n :: n in names && Spells(p, n)
  }

  lemma SpelledByIff(p: Param, names: seq<string>)
    ensures SpelledBy(p, names) <==> Bare(p) in names
  {
    forall n | n in names ensures Spells(p, n) <==> Bare(p) == n {
      BareSpells(p, n);
    }
  }

  /** `names` are those at the increasing list `at` of exactly the places from `start` on that `keep` marks. */
  ghost predicate Lists(names: seq<string>, params: seq<Param>, keep: seq<bool>, start: nat, at: seq<nat>)
    requires |keep| == |params|
  {
    && |at| == |names|
    && (forall k :: 0 <= k < |at| ==> start <= at[k] < |params| && names[k] == params[at[k]].name)
    && (forall j, k :: 0 <= j < k < |at| ==> at[j] < at[k])
    && (forall i :: start <= i < |params| && keep[i] ==> i in at)
    && (forall i :: i in at ==> i < |params| && keep[i])
  }

  lemma ListsOne(names: seq<string>, params: seq<Param>, keep: seq<bool>, start: nat, at: seq<nat>)
    requires start < |keep| == |params| && Lists(names, params, keep, start + 1, at)
    ensures keep[start] ==> Lists([params[start].name] + names, params, keep, start, [start] + at)
    ensures !keep[start] ==> Lists(names, params, keep, start, at)
  {
  }

  lemma {:induction false} WhereKept(params: seq<Param>, keep: seq<bool>, start: nat) returns (at: seq<nat>)
    requires start <= |keep| == |params|
    ensures Lists(NamesWhere(params[start..], keep[start..]), params, keep, start, at)
    decreases |params| - start
  {
    if start == |params| {
      at := [];
    } else {
      hide Lists;
      at := WhereKept(params, keep, start + 1);
      NamesFrom(params, keep, start);
      ListsOne(NamesWhere(params[start + 1..], keep[start + 1..]), params, keep, start, at);
      hide NamesWhere;
      at := if keep[start] then [start] + at else at;
    }
  }

  lemma NamesFrom(params: seq<Param>, keep: seq<bool>, start: nat)
    requires start < |keep| == |params|
    ensures NamesWhere(params[start..], keep[start..])
         == if keep[start] then [params[start].name] + NamesWhere(params[start + 1..], keep[start + 1..])
            else NamesWhere(params[start + 1..], keep[start + 1..])
  {
    assert params[start..][1..] == params[start + 1..] && keep[start..][1..] == keep[start + 1..];
  }

  /** Exactly the required parameters without a positional argument or one that spells them are listed, in order. */
  lemma MissingAreListed(params: seq<Param>, positionalCount: nat, named: seq<string>) returns (at: seq<nat>)
    ensures |at| == |MissingRequiredParams(params, positionalCount, named)|
    ensures forall k :: 0 <= k < |at| ==>
              at[k] < |params| && MissingRequiredParams(params, positionalCount, named)[k] == params[at[k]].name
    ensures forall j, k :: 0 <= j < k < |at| ==> at[j] < at[k]
    ensures forall i: nat :: i in at <==>
              i < |params| && params[i].required && i >= positionalCount && !SpelledBy(params[i], named)
  {
    var marks := MissingMarks(params, positionalCount, named);
    at := WhereKept(params, marks, 0);
    assert params[0..] == params && marks[0..] == marks;
    forall i: nat | i < |params| ensures SpelledBy(params[i], named) <==> Bare(params[i]) in named {
      SpelledByIff(params[i], named);
    }
  }

  /** Exactly the parameters no named argument spells wait for a hint, in order. */
  lemma {:induction false} RemainingAreUnspelled(params: seq<Param>, named: seq<string>)
    ensures forall j, k :: 0 <= j < k < |Remaining(params, named)| ==>
              Remaining(params, named)[j] < Remaining(params, named)[k]
    ensures forall i: nat :: i in Remaining(params, named) <==> i < |params| && !SpelledBy(params[i], named)
  {
    hide Spells, SpelledBy, Bare;
    if params != [] {
      var last := |params| - 1;
      RemainingAreUnspelled(params[..last], named);
      SpelledByIff(params[last], named);
    }
  }
}
