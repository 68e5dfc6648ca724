/** What it takes for a parameter to be promoted, from the classes' own methods and properties. */
module ConstructorAnswers {
  import opened ClassLookup
  import opened TextOps
  import opened Wrappers

  ghost predicate HasConstructor(c: Class) {
    exists m :: m in c.methods && Lower(m) == "__construct"
  }

  predicate Promotes(c: Class, param: string) {
    Property(param, true) in c.properties
  }

  lemma OwnIs(c: Class, param: string)
    ensures Own(c, param) == if HasConstructor(c) then Some(Promotes(c, param)) else None
  {
    if m :| m in c.methods && Lower(m) == "__construct" {
      var k :| 0 <= k < |c.methods| && c.methods[k] == m;
      assert Lower(c.methods[k]) == "__construct";
    }
  }

  /** A class with a constructor of its own, in any case of letters, answers for itself. */
  lemma OwnConstructorAnswers(net: Net, c: Class, param: string)
    requires Closed(net) && c in net.classes && HasConstructor(c)
    ensures Walk(net, c, param, []).result == Some(Promotes(c, param))
  {
    OwnIs(c, param);
  }

  /** An answer is that of some reachable class that has a constructor. */
  lemma AnswerMeans(net: Net, c: Class, param: string) returns (k: Class, n: nat)
    requires Closed(net) && c in net.classes
    requires Walk(net, c, param, []).result.Some?
    ensures Reaches(net, c, k, n) && HasConstructor(k)
    ensures Walk(net, c, param, []).result == Some(Promotes(k, param))
  {
    k, n := WalkFinds(net, c, param, []);
    OwnIs(k, param);
  }

  /** No class reachable from `c`, itself included, has a constructor. */
  ghost predicate NoneAbove(net: Net, c: Class) {
    forall k, n: nat :: Reaches(net, c, k, n) ==> !HasConstructor(k)
  }

  lemma NoAnswerIff(net: Net, c: Class, param: string)
    requires Coherent(net) && c in net.classes
    ensures Walk(net, c, param, []).result.None? <==> NoneAbove(net, c)
  {
    if Walk(net, c, param, []).result.None? {
      WalkExhausts(net, c, param, []);
      forall k, n: nat | Reaches(net, c, k, n) ensures !HasConstructor(k) {
        ReachedAreVisited(net, param, Walk(net, c, param, []).visited, c, k, n);
        OwnIs(k, param);
      }
    } else {
      var k, n := AnswerMeans(net, c, param);
    }
  }

  // ── Traits before the parent ──────────────────────────────────────────

  /** How many names a class gives to look further under: its traits and its parent. */
  function SourceCount(c: Class): nat {
    |c.traits| + if c.parent.Some? then 1 else 0
  }

  /** The name looked under as number `i`. */
  function Source(c: Class, i: nat): string
    requires i < SourceCount(c)
  {
    if i < |c.traits| then c.traits[i] else c.parent.value
  }

  lemma {:induction false} NamesAppend(net: Net, a: seq<string>, b: seq<string>, param: string, visited: seq<string>)
    requires Closed(net) && WalkNames(net, a, param, visited).result.None?
    ensures WalkNames(net, a + b, param, visited)
         == WalkNames(net, b, param, WalkNames(net, a, param, visited).visited)
    decreases |a|
  {
    if a == [] {
      assert a + b == b;
    } else {
      assert (a + b)[1..] == a[1..] + b;
      if a[0] in net.loader {
        NamesAppend(net, a[1..], b, param, Walk(net, net.loader[a[0]], param, visited).visited);
      } else {
        NamesAppend(net, a[1..], b, param, visited);
      }
    }
  }

  lemma NamesFindNothing(net: Net, names: seq<string>, param: string, visited: seq<string>)
    requires Closed(net)
    requires forall i :: 0 <= i < |names| && names[i] in net.loader ==> NoneAbove(net, net.loader[names[i]])
    ensures WalkNames(net, names, param, visited).result.None?
  {
    if WalkNames(net, names, param, visited).result.Some? {
      var k, n, i := NamesFind(net, names, param, visited);
      OwnIs(k, param);
    }
  }

  /**
   * Of a class without a constructor, the first trait with one answers, else the parent: what
   * stands in front only has to lead to no constructor.
   */
  lemma FirstSourceAnswers(net: Net, c: Class, param: string, i: nat)
    requires Coherent(net) && c in net.classes && !HasConstructor(c)
    requires i < SourceCount(c) && Source(c, i) in net.loader && HasConstructor(net.loader[Source(c, i)])
    requires forall j :: 0 <= j < i && Source(c, j) in net.loader ==> NoneAbove(net, net.loader[Source(c, j)])
    ensures Walk(net, c, param, []).result == Some(Promotes(net.loader[Source(c, i)], param))
  {
    var names := Names(c);
    assert |names| == SourceCount(c) && forall j :: 0 <= j < |names| ==> names[j] == Source(c, j);
    var front, found, seen := names[..i], net.loader[Source(c, i)], [c.fqn];
    NamesFindNothing(net, front, param, seen);
    var now := WalkNames(net, front, param, seen).visited;
    NamesExhaust(net, front, param, seen);
    OwnIs(c, param);
    OwnIs(found, param);
    assert found.fqn !in now by {
      assert found.fqn in now && found.fqn !in seen ==> Own(found, param).None?;
      assert found.fqn in seen ==> found == c;
    }
    assert names == front + names[i..];
    NamesAppend(net, front, names[i..], param, seen);
    assert Walk(net, found, param, now).result == Own(found, param);
    assert [] + [c.fqn] == seen;
  }
}
