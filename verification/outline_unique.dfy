/** The nesting of an outline is fixed by the order of its symbols and their parents. */
module OutlineUnique {
  import opened DocumentSymbols
  import opened Wrappers

  /** Parents inside a forest are its own symbols or the one around it. */
  lemma {:induction false} ParentsFrom(forest: seq<Symbol>, base: nat, parent: Option<nat>)
    ensures forall k :: 0 <= k < |Parents(forest, base, parent)| ==>
              Parents(forest, base, parent)[k] == parent || AtLeast(Parents(forest, base, parent)[k], base)
  {
    hide Preorder, Parents;
    if forest == [] {
      NoParents(base, parent);
    } else {
      var first, rest := forest[0], forest[1..];
      assert forest == [first] + rest;
      ParentsCons(forest, first, rest, base, parent);
      ParentsFrom(first.children, base + 1, Some(base));
      ParentsFrom(rest, base + Size(first), parent);
    }
  }

  predicate AtLeast(p: Option<nat>, base: nat) {
    p.Some? && p.value >= base
  }

  lemma SameParts<T>(x: T, a: seq<T>, b: seq<T>, y: T, c: seq<T>, d: seq<T>)
    requires [x] + a + b == [y] + c + d && |a| == |c|
    ensures x == y && a == c && b == d
  {
    var p := [x] + a + b;
    assert x == p[0] && y == p[0];
    assert a == p[1..1 + |a|] && c == p[1..1 + |a|];
    assert b == p[1 + |a|..] && d == p[1 + |a|..];
  }

  lemma Overlaps<T>(x: T, a: seq<T>, b: seq<T>, c: seq<T>, d: seq<T>)
    requires [x] + a + b == [x] + c + d && |a| < |c|
    ensures b != [] && b[0] == c[|a|]
  {
    var p := [x] + a + b;
    assert |p| == 1 + |c| + |d| && p[1 + |a|] == b[0] && p[1 + |a|] == c[|a|];
  }

  /** Behind the parents `a` of what is in the first symbol comes its own parent again, and not in `c`. */
  lemma NotShorter(parent: Option<nat>, base: nat, a: seq<Option<nat>>, b: seq<Option<nat>>,
                   c: seq<Option<nat>>, d: seq<Option<nat>>)
    requires [parent] + a + b == [parent] + c + d && !AtLeast(parent, base)
    requires b != [] ==> b[0] == parent
    requires forall k :: 0 <= k < |c| ==> AtLeast(c[k], base)
    ensures |a| >= |c|
  {
    if |a| < |c| {
      Overlaps(parent, a, b, c, d);
    }
  }

  lemma FirstParent(forest: seq<Symbol>, base: nat, parent: Option<nat>)
    ensures Parents(forest, base, parent) != [] ==> Parents(forest, base, parent)[0] == parent
  {
  }

  /** The first symbol ends in front of the next one with its parent. */
  lemma FirstEnds(f: seq<Symbol>, g: seq<Symbol>, base: nat, parent: Option<nat>)
    requires f != [] && g != [] && !AtLeast(parent, base)
    requires Parents(f, base, parent) == Parents(g, base, parent)
    ensures Size(f[0]) >= Size(g[0])
  {
    hide Preorder, Parents;
    ParentsConsOf(f, base, parent);
    ParentsConsOf(g, base, parent);
    ParentsFrom(g[0].children, base + 1, Some(base));
    FirstParent(f[1..], base + Size(f[0]), parent);
    NotShorter(parent, base,
               Parents(f[0].children, base + 1, Some(base)), Parents(f[1..], base + Size(f[0]), parent),
               Parents(g[0].children, base + 1, Some(base)), Parents(g[1..], base + Size(g[0]), parent));
  }

  /** The same preorder and the same parents. */
  ghost predicate Alike(f: seq<Symbol>, g: seq<Symbol>, base: nat, parent: Option<nat>) {
    Preorder(f) == Preorder(g) && Parents(f, base, parent) == Parents(g, base, parent)
  }

  /** Alike forests start with alike symbols and go on alike. */
  lemma AlikeParts(f: seq<Symbol>, g: seq<Symbol>, base: nat, parent: Option<nat>)
    requires f != [] && g != [] && !AtLeast(parent, base) && Alike(f, g, base, parent)
    ensures f[0].entry == g[0].entry
    ensures Alike(f[0].children, g[0].children, base + 1, Some(base))
    ensures Alike(f[1..], g[1..], base + Size(f[0]), parent)
    ensures |Preorder(f[0].children)| < |Preorder(f)| && |Preorder(f[1..])| < |Preorder(f)|
  {
    hide Preorder, Parents;
    var x, y, fs, gs := f[0], g[0], f[1..], g[1..];
    FirstEnds(f, g, base, parent);
    FirstEnds(g, f, base, parent);
    ParentsConsOf(f, base, parent);
    ParentsConsOf(g, base, parent);
    SameParts(x.entry, Preorder(x.children), Preorder(fs), y.entry, Preorder(y.children), Preorder(gs));
    SameParts(parent, Parents(x.children, base + 1, Some(base)), Parents(fs, base + Size(x), parent),
              parent, Parents(y.children, base + 1, Some(base)), Parents(gs, base + Size(x), parent));
  }

  lemma ParentsConsOf(f: seq<Symbol>, base: nat, parent: Option<nat>)
    requires f != []
    ensures Preorder(f) == [f[0].entry] + Preorder(f[0].children) + Preorder(f[1..])
    ensures Parents(f, base, parent)
         == [parent] + Parents(f[0].children, base + 1, Some(base)) + Parents(f[1..], base + Size(f[0]), parent)
  {
    assert f == [f[0]] + f[1..];
    ParentsCons(f, f[0], f[1..], base, parent);
  }

  lemma ConsAlike<T>(f: seq<T>, g: seq<T>)
    requires f != [] && g != [] && f[0] == g[0] && f[1..] == g[1..]
    ensures f == g
  {
    assert f == [f[0]] + f[1..] && g == [g[0]] + g[1..];
  }

  /** Two forests with the same preorder and the same parents are the same. */
  lemma {:induction false} OneForest(f: seq<Symbol>, g: seq<Symbol>, base: nat, parent: Option<nat>)
    requires Alike(f, g, base, parent) && !AtLeast(parent, base)
    ensures f == g
    decreases |Preorder(f)|
  {
    EmptyAlike(f, g);
    hide Preorder, Parents, Size, Alike;
    if f != [] {
      var x, y, fs, gs := f[0], g[0], f[1..], g[1..];
      AlikeParts(f, g, base, parent);
      assert x.children == y.children by {
        OneForest(x.children, y.children, base + 1, Some(base));
      }
      assert fs == gs by {
        OneForest(fs, gs, base + Size(x), parent);
      }
      ConsAlike(f, g);
    }
  }

  lemma EmptyAlike(f: seq<Symbol>, g: seq<Symbol>)
    requires Preorder(f) == Preorder(g)
    ensures f == [] <==> g == []
  {
  }

  /** There is only one outline: what `NestByContainment` promises leaves no choice. */
  lemma OneOutline(f: seq<Symbol>, g: seq<Symbol>, symbols: seq<DocumentSymbol>)
    requires Nests(f, symbols) && Nests(g, symbols)
    ensures f == g
  {
    hide Preorder, Parents, Enclosers, Sort;
    OneForest(f, g, 0, None);
  }
}
