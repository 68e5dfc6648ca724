/**
 * Which constructor a class runs, and whether it promotes a parameter to a property: the
 * walk over used traits and parents that remembers the classes it has been to.
 */
module ClassLookup {
  import opened TextOps
  import opened Wrappers

  datatype Property = Property(name: string, promoted: bool)

  datatype Class = Class(fqn: string, methods: seq<string>, properties: seq<Property>, traits: seq<string>,
                         parent: Option<string>)

  /** The classes there are, and the one the loader gives for each name it knows. */
  datatype Net = Net(loader: map<string, Class>, classes: set<Class>)

  /** What the loader gives is a class of the net. */
  ghost predicate Closed(net: Net) {
    forall name :: name in net.loader ==> net.loader[name] in net.classes
  }

  /** Besides, a class is known by its full name. */
  ghost predicate Coherent(net: Net) {
    && Closed(net)
    && (forall a, b :: a in net.classes && b in net.classes && a.fqn == b.fqn ==> a == b)
  }

  /** Whether the class's own constructor, if it has one, promotes `param`. */
  function Own(c: Class, param: string): Option<bool> {
    if exists k :: 0 <= k < |c.methods| && Lower(c.methods[k]) == "__construct" then
      Some(exists k :: 0 <= k < |c.properties| && c.properties[k] == Property(param, true))
    else
      None
  }

  /** Where the constructor is looked for after the class itself: its traits in order, then its parent. */
  function Names(c: Class): seq<string> {
    c.traits + if c.parent.Some? then [c.parent.value] else []
  }

  // ── The walk ──────────────────────────────────────────────────────────

  datatype Walked = Walked(result: Option<bool>, visited: seq<string>)

  ghost function Unvisited(net: Net, visited: seq<string>): set<string> {
    (set c | c in net.classes :: c.fqn) - (set v | v in visited)
  }

  lemma VisitMore(net: Net, visited: seq<string>, more: seq<string>)
    requires visited <= more
    ensures Unvisited(net, more) <= Unvisited(net, visited)
  {
    forall v | v in visited ensures v in more {
      var k :| 0 <= k < |visited| && visited[k] == v;
      assert more[k] == v;
    }
  }

  lemma VisitOne(net: Net, c: Class, visited: seq<string>)
    requires c in net.classes && c.fqn !in visited
    ensures Unvisited(net, visited + [c.fqn]) < Unvisited(net, visited)
  {
    VisitMore(net, visited, visited + [c.fqn]);
    assert c.fqn in Unvisited(net, visited) && c.fqn !in Unvisited(net, visited + [c.fqn]);
  }

  ghost function Walk(net: Net, c: Class, param: string, visited: seq<string>): (w: Walked)
    requires Closed(net) && c in net.classes
    ensures visited <= w.visited
    decreases Unvisited(net, visited), 0
  {
    if c.fqn in visited then Walked(None, visited)
    else if Own(c, param).Some? then Walked(Own(c, param), visited + [c.fqn])
    else
      VisitOne(net, c, visited);
      WalkNames(net, Names(c), param, visited + [c.fqn])
  }

  ghost function WalkNames(net: Net, names: seq<string>, param: string, visited: seq<string>): (w: Walked)
    requires Closed(net)
    ensures visited <= w.visited
    decreases Unvisited(net, visited), |names| + 1
  {
    if names == [] then Walked(None, visited)
    else if names[0] !in net.loader then WalkNames(net, names[1..], param, visited)
    else
      var w := Walk(net, net.loader[names[0]], param, visited);
      VisitMore(net, visited, w.visited);
      if w.result.Some? then w else WalkNames(net, names[1..], param, w.visited)
  }

  /** The program's `walk`, with the list it pushes to handed in and out. */
  method WalkFrom(net: Net, c: Class, param: string, visited: seq<string>)
    returns (result: Option<bool>, visited': seq<string>)
    requires Closed(net) && c in net.classes
    ensures Walked(result, visited') == Walk(net, c, param, visited)
    decreases Unvisited(net, visited)
  {
    if c.fqn in visited {
      return None, visited;
    }
    VisitOne(net, c, visited);
    visited' := visited + [c.fqn];
    result := Own(c, param);
    if result.Some? {
      return;
    }
    ghost var seen := visited';
    for i := 0 to |c.traits|
      invariant seen <= visited'
      invariant WalkNames(net, Names(c)[i..], param, visited') == Walk(net, c, param, visited)
    {
      VisitMore(net, seen, visited');
      assert Names(c)[i..][0] == c.traits[i] && Names(c)[i..][1..] == Names(c)[i + 1..];
      if c.traits[i] in net.loader {
        result, visited' := WalkFrom(net, net.loader[c.traits[i]], param, visited');
        if result.Some? {
          return;
        }
      }
    }
    VisitMore(net, seen, visited');
    result := None;
    if c.parent.Some? {
      assert Names(c)[|c.traits|..] == [c.parent.value];
      if c.parent.value in net.loader {
        result, visited' := WalkFrom(net, net.loader[c.parent.value], param, visited');
      }
    } else {
      assert Names(c)[|c.traits|..] == [];
    }
  }

  method ConstructorPromotes(net: Net, c: Class, param: string) returns (promotes: bool)
    requires Closed(net) && c in net.classes
    ensures promotes <==> Walk(net, c, param, []).result == Some(true)
  {
    var result, _ := WalkFrom(net, c, param, []);
    promotes := result.Some? && result.value;
  }

  // ── On any class graph ────────────────────────────────────────────────

  /** `k` is `n` uses or extensions up from `c`. */
  ghost predicate Reaches(net: Net, c: Class, k: Class, n: nat)
    decreases n
  {
    if n == 0 then c == k
    else exists i :: 0 <= i < |Names(c)| && Names(c)[i] in net.loader && Reaches(net, net.loader[Names(c)[i]], k, n - 1)
  }

  /** Every class visited since `before` has no constructor, and what it leads to is visited too. */
  ghost predicate Exhausted(net: Net, param: string, before: seq<string>, now: seq<string>) {
    forall k :: k in net.classes && k.fqn in now && k.fqn !in before ==>
      Own(k, param).None? && NamesVisited(net, Names(k), now)
  }

  ghost predicate NamesVisited(net: Net, names: seq<string>, visited: seq<string>)
  {
    forall i :: 0 <= i < |names| && names[i] in net.loader ==> net.loader[names[i]].fqn in visited
  }

  lemma StillVisited(net: Net, names: seq<string>, visited: seq<string>, more: seq<string>)
    requires NamesVisited(net, names, visited) && visited <= more
    ensures NamesVisited(net, names, more)
  {
    forall v | v in visited ensures v in more {
      var k :| 0 <= k < |visited| && visited[k] == v;
      assert more[k] == v;
    }
  }

  lemma ExhaustedTwice(net: Net, param: string, a: seq<string>, b: seq<string>, c: seq<string>)
    requires a <= b <= c && Exhausted(net, param, a, b) && Exhausted(net, param, b, c)
    ensures Exhausted(net, param, a, c)
  {
    forall k | k in net.classes && k.fqn in c && k.fqn !in a
      ensures Own(k, param).None? && NamesVisited(net, Names(k), c)
    {
      if k.fqn in b {
        StillVisited(net, Names(k), b, c);
      }
    }
  }

  /** A walk that finds nothing has looked everywhere there is to look. */
  lemma {:induction false} WalkExhausts(net: Net, c: Class, param: string, visited: seq<string>)
    requires Coherent(net) && c in net.classes
    requires Walk(net, c, param, visited).result.None?
    ensures c.fqn in Walk(net, c, param, visited).visited
    ensures Exhausted(net, param, visited, Walk(net, c, param, visited).visited)
    decreases Unvisited(net, visited), 0
  {
    if c.fqn !in visited {
      VisitOne(net, c, visited);
      var seen := visited + [c.fqn];
      NamesExhaust(net, Names(c), param, seen);
      var now := WalkNames(net, Names(c), param, seen).visited;
      forall k | k in net.classes && k.fqn in now && k.fqn !in visited
        ensures Own(k, param).None? && NamesVisited(net, Names(k), now)
      {
        if k.fqn in seen {
          assert k == c;
        }
      }
      assert seen[|visited|] == c.fqn && now[|visited|] == c.fqn;
    }
  }

  lemma {:induction false} NamesExhaust(net: Net, names: seq<string>, param: string, visited: seq<string>)
    requires Coherent(net)
    requires WalkNames(net, names, param, visited).result.None?
    ensures NamesVisited(net, names, WalkNames(net, names, param, visited).visited)
    ensures Exhausted(net, param, visited, WalkNames(net, names, param, visited).visited)
    decreases Unvisited(net, visited), |names| + 1
  {
    if names != [] {
      var next := visited;
      if names[0] in net.loader {
        next := Walk(net, net.loader[names[0]], param, visited).visited;
        WalkExhausts(net, net.loader[names[0]], param, visited);
        VisitMore(net, visited, next);
      }
      NamesExhaust(net, names[1..], param, next);
      var now := WalkNames(net, names[1..], param, next).visited;
      ExhaustedTwice(net, param, visited, next, now);
      NamesGrow(net, names, next, now);
    }
  }

  lemma NamesGrow(net: Net, names: seq<string>, next: seq<string>, now: seq<string>)
    requires names != [] && next <= now && NamesVisited(net, names[1..], now)
    requires names[0] in net.loader ==> net.loader[names[0]].fqn in next
    ensures NamesVisited(net, names, now)
  {
    forall i | 0 <= i < |names| && names[i] in net.loader ensures net.loader[names[i]].fqn in now {
      if i == 0 {
        var k :| 0 <= k < |next| && next[k] == net.loader[names[0]].fqn;
        assert now[k] == next[k];
      } else {
        assert names[i] == names[1..][i - 1];
      }
    }
  }

  lemma {:induction false} ReachedAreVisited(net: Net, param: string, visited: seq<string>, c: Class, k: Class, n: nat)
    requires Coherent(net) && c in net.classes && c.fqn in visited && Exhausted(net, param, [], visited)
    requires Reaches(net, c, k, n)
    ensures Own(k, param).None?
    decreases n
  {
    if n > 0 {
      var i :| 0 <= i < |Names(c)| && Names(c)[i] in net.loader && Reaches(net, net.loader[Names(c)[i]], k, n - 1);
      assert NamesVisited(net, Names(c), visited);
      ReachedAreVisited(net, param, visited, net.loader[Names(c)[i]], k, n - 1);
    }
  }

  /** What a walk finds is some reachable class's own constructor. */
  lemma {:induction false} WalkFinds(net: Net, c: Class, param: string, visited: seq<string>) returns (k: Class, n: nat)
    requires Closed(net) && c in net.classes
    requires Walk(net, c, param, visited).result.Some?
    ensures Reaches(net, c, k, n) && Own(k, param) == Walk(net, c, param, visited).result
    decreases Unvisited(net, visited), 0
  {
    if Own(c, param).Some? {
      k, n := c, 0;
    } else {
      VisitOne(net, c, visited);
      var i;
      k, n, i := NamesFind(net, Names(c), param, visited + [c.fqn]);
      assert Reaches(net, c, k, n + 1);
      n := n + 1;
    }
  }

  lemma {:induction false} NamesFind(net: Net, names: seq<string>, param: string, visited: seq<string>)
    returns (k: Class, n: nat, i: nat)
    requires Closed(net)
    requires WalkNames(net, names, param, visited).result.Some?
    ensures i < |names| && names[i] in net.loader && Reaches(net, net.loader[names[i]], k, n)
    ensures Own(k, param) == WalkNames(net, names, param, visited).result
    decreases Unvisited(net, visited), |names| + 1
  {
    if names[0] in net.loader && Walk(net, net.loader[names[0]], param, visited).result.Some? {
      k, n := WalkFinds(net, net.loader[names[0]], param, visited);
      i := 0;
    } else {
      var next := visited;
      if names[0] in net.loader {
        next := Walk(net, net.loader[names[0]], param, visited).visited;
        VisitMore(net, visited, next);
      }
      k, n, i := NamesFind(net, names[1..], param, next);
      i := i + 1;
    }
  }

  /** On every class graph, cyclic or not: nothing is found exactly when no reachable class has a constructor. */
  lemma FindsNothingIff(net: Net, c: Class, param: string)
    requires Coherent(net) && c in net.classes
    ensures Walk(net, c, param, []).result.None? <==>
            forall k, n: nat :: Reaches(net, c, k, n) ==> Own(k, param).None?
  {
    if Walk(net, c, param, []).result.None? {
      WalkExhausts(net, c, param, []);
      forall k, n: nat | Reaches(net, c, k, n) ensures Own(k, param).None? {
        ReachedAreVisited(net, param, Walk(net, c, param, []).visited, c, k, n);
      }
    } else {
      var k, n := WalkFinds(net, c, param, []);
      assert Reaches(net, c, k, n);
    }
  }

  // ── A class that is not the loader's ──────────────────────────────────

  function Instead(c: Class, k: Class): Class {
    if k.fqn == c.fqn then c else k
  }

  /** The net in which the loader gives `c` wherever it gave a class of that name. */
  ghost function WithClass(net: Net, c: Class): (w: Net)
    requires Closed(net)
    ensures Closed(w) && c in w.classes
  {
    Net(map name | name in net.loader :: Instead(c, net.loader[name]),
        set k | k in net.classes + {c} :: Instead(c, k))
  }

  /** Any name but that of `c` is one class's. */
  ghost predicate CoherentBeside(net: Net, c: Class) {
    && Closed(net)
    && forall a, b :: a in net.classes && b in net.classes && a.fqn == b.fqn && a.fqn != c.fqn ==> a == b
  }

  lemma WithClassCoherent(net: Net, c: Class)
    requires CoherentBeside(net, c)
    ensures Coherent(WithClass(net, c))
  {
  }

  lemma {:induction false} WalkInstead(net: Net, c: Class, k: Class, param: string, visited: seq<string>)
    requires Closed(net) && k in net.classes && c.fqn in visited
    ensures Walk(net, k, param, visited) == Walk(WithClass(net, c), Instead(c, k), param, visited)
    decreases Unvisited(net, visited), 0
  {
    assert Instead(c, k) in WithClass(net, c).classes;
    if k.fqn !in visited && Own(k, param).None? {
      VisitOne(net, k, visited);
      NamesInstead(net, c, Names(k), param, visited + [k.fqn]);
    }
  }

  lemma {:induction false} NamesInstead(net: Net, c: Class, names: seq<string>, param: string, visited: seq<string>)
    requires Closed(net) && c.fqn in visited
    ensures WalkNames(net, names, param, visited) == WalkNames(WithClass(net, c), names, param, visited)
    decreases Unvisited(net, visited), |names| + 1
  {
    if names != [] {
      if names[0] in net.loader {
        var w := Walk(net, net.loader[names[0]], param, visited);
        WalkInstead(net, c, net.loader[names[0]], param, visited);
        VisitMore(net, visited, w.visited);
        Still(c.fqn, visited, w.visited);
        NamesInstead(net, c, names[1..], param, w.visited);
      } else {
        NamesInstead(net, c, names[1..], param, visited);
      }
    }
  }

  lemma Still(name: string, visited: seq<string>, more: seq<string>)
    requires name in visited && visited <= more
    ensures name in more
  {
    var k :| 0 <= k < |visited| && visited[k] == name;
    assert more[k] == name;
  }

  /**
   * A class handed in that differs from what the loader gives for its name is walked as if the
   * loader gave it: its name is not entered a second time.
   */
  lemma WalkAsGiven(net: Net, c: Class, param: string)
    requires Closed(net) && c in net.classes
    ensures Walk(net, c, param, []) == Walk(WithClass(net, c), c, param, [])
  {
    if Own(c, param).None? {
      NamesInstead(net, c, Names(c), param, [] + [c.fqn]);
    }
  }

  /** So for any class handed in nothing is found exactly when nothing reachable from it has a constructor. */
  lemma FindsNothingAsGiven(net: Net, c: Class, param: string)
    requires CoherentBeside(net, c) && c in net.classes
    ensures Coherent(WithClass(net, c))
    ensures Walk(net, c, param, []).result.None? <==>
            forall k, n: nat :: Reaches(WithClass(net, c), c, k, n) ==> Own(k, param).None?
  {
    WithClassCoherent(net, c);
    WalkAsGiven(net, c, param);
    FindsNothingIff(WithClass(net, c), c, param);
  }

  // ── On an acyclic one ─────────────────────────────────────────────────

  /** Traits and parents rank below the class that names them. */
  ghost predicate Acyclic(net: Net, rank: Class -> nat) {
    forall c, i :: c in net.classes && 0 <= i < |Names(c)| && Names(c)[i] in net.loader ==>
      rank(net.loader[Names(c)[i]]) < rank(c)
  }

  /** The search in PHP's order with no memory of where it has been: own, then traits, then parent. */
  ghost function Plain(net: Net, rank: Class -> nat, c: Class, param: string): Option<bool>
    requires Coherent(net) && Acyclic(net, rank) && c in net.classes
    decreases rank(c), |Names(c)| + 1
  {
    if Own(c, param).Some? then Own(c, param) else PlainFrom(net, rank, c, param, 0)
  }

  ghost function PlainFrom(net: Net, rank: Class -> nat, c: Class, param: string, i: nat): Option<bool>
    requires Coherent(net) && Acyclic(net, rank) && c in net.classes && i <= |Names(c)|
    decreases rank(c), |Names(c)| - i
  {
    if i == |Names(c)| then None
    else if Names(c)[i] in net.loader && Plain(net, rank, net.loader[Names(c)[i]], param).Some? then
      Plain(net, rank, net.loader[Names(c)[i]], param)
    else
      PlainFrom(net, rank, c, param, i + 1)
  }

  /** Visited classes ranked below `bound` have been answered none; the others are still in progress. */
  ghost predicate Answered(net: Net, rank: Class -> nat, param: string, visited: seq<string>, bound: nat)
    requires Coherent(net) && Acyclic(net, rank)
  {
    forall k :: k in net.classes && k.fqn in visited && rank(k) < bound ==> Plain(net, rank, k, param).None?
  }

  ghost predicate NewlyNone(net: Net, rank: Class -> nat, param: string, before: seq<string>, now: seq<string>)
    requires Coherent(net) && Acyclic(net, rank)
  {
    forall k :: k in net.classes && k.fqn in now && k.fqn !in before ==> Plain(net, rank, k, param).None?
  }

  /** On an acyclic graph, traits and parents shared or not, the memory changes nothing. */
  lemma {:induction false} WalkIsPlain(net: Net, rank: Class -> nat, c: Class, param: string, visited: seq<string>)
    requires Coherent(net) && Acyclic(net, rank) && c in net.classes
    requires Answered(net, rank, param, visited, rank(c) + 1)
    ensures Walk(net, c, param, visited).result == Plain(net, rank, c, param)
    ensures Plain(net, rank, c, param).None? ==>
              NewlyNone(net, rank, param, visited, Walk(net, c, param, visited).visited)
    decreases rank(c), |Names(c)| + 1
  {
    if c.fqn !in visited && Own(c, param).None? {
      var seen := visited + [c.fqn];
      assert Names(c)[0..] == Names(c);
      NamesArePlain(net, rank, c, param, 0, seen);
      if Plain(net, rank, c, param).None? {
        forall k | k in net.classes && k.fqn in WalkNames(net, Names(c), param, seen).visited && k.fqn !in visited
          ensures Plain(net, rank, k, param).None?
        {
          if k.fqn in seen {
            assert k == c;
          }
        }
      }
    }
  }

  lemma {:induction false} NamesArePlain(net: Net, rank: Class -> nat, c: Class, param: string, i: nat,
                                            visited: seq<string>)
    requires Coherent(net) && Acyclic(net, rank) && c in net.classes && i <= |Names(c)|
    requires Answered(net, rank, param, visited, rank(c))
    ensures WalkNames(net, Names(c)[i..], param, visited).result == PlainFrom(net, rank, c, param, i)
    ensures PlainFrom(net, rank, c, param, i).None? ==>
              NewlyNone(net, rank, param, visited, WalkNames(net, Names(c)[i..], param, visited).visited)
    decreases rank(c), |Names(c)| - i
  {
    if i < |Names(c)| {
      assert Names(c)[i..][0] == Names(c)[i] && Names(c)[i..][1..] == Names(c)[i + 1..];
      if Names(c)[i] in net.loader {
        var next := net.loader[Names(c)[i]];
        WalkIsPlain(net, rank, next, param, visited);
        if Plain(net, rank, next, param).None? {
          NamesArePlain(net, rank, c, param, i + 1, Walk(net, next, param, visited).visited);
        }
      } else {
        NamesArePlain(net, rank, c, param, i + 1, visited);
      }
    }
  }

  lemma ConstructorFoundAsPhpDoes(net: Net, rank: Class -> nat, c: Class, param: string)
    requires Coherent(net) && Acyclic(net, rank) && c in net.classes
    ensures Walk(net, c, param, []).result == Plain(net, rank, c, param)
  {
    WalkIsPlain(net, rank, c, param, []);
  }
}
