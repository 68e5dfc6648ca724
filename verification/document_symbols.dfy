/**
 * The outline of a template: a flat list of symbols nested by containment with one sort
 * and one stack.
 */
module DocumentSymbols {
  import opened Sorting
  import opened Wrappers

  datatype Position = Position(line: nat, character: nat)

  datatype Range = Range(start: Position, end: Position)

  datatype DocumentSymbol = DocumentSymbol(name: string, range: Range, children: seq<DocumentSymbol>)

  /** A symbol as listed, with the children it has of its own: a class comes with its members. */
  type Entry = DocumentSymbol

  /** A listed symbol and the ones nesting has put under it. */
  datatype Symbol = Symbol(entry: Entry, children: seq<Symbol>)

  /** The symbol of the outline: its own children stay in front, and the nested ones follow. */
  function Outline(s: Symbol): DocumentSymbol {
    DocumentSymbol(s.entry.name, s.entry.range, s.entry.children + OutlineAll(s.children))
  }

  function OutlineAll(forest: seq<Symbol>): (r: seq<DocumentSymbol>)
    ensures |r| == |forest| && forall k :: 0 <= k < |r| ==> r[k] == Outline(forest[k])
  {
    if forest == [] then [] else [Outline(forest[0])] + OutlineAll(forest[1..])
  }

  predicate AtMost(a: Position, b: Position) {
    a.line < b.line || (a.line == b.line && a.character <= b.character)
  }

  predicate Encloses(outer: Range, inner: Range) {
    AtMost(outer.start, inner.start) && AtMost(inner.end, outer.end)
  }

  /** The sort order: by start, an enclosing symbol before what it encloses. */
  predicate InOrder(a: Entry, b: Entry) {
    if a.range.start == b.range.start then AtMost(b.range.end, a.range.end)
    else AtMost(a.range.start, b.range.start)
  }

  ghost predicate Sorted(entries: seq<Entry>) {
    forall i, j :: 0 <= i < j < |entries| ==> InOrder(entries[i], entries[j])
  }

  // ── The stable sort ───────────────────────────────────────────────────

  function Sort(entries: seq<Entry>): (r: seq<Entry>)
    ensures |r| == |entries|
  {
    SortBy(InOrder, entries)
  }

  /** The entries with range `r`, in order. */
  function WithRange(entries: seq<Entry>, r: Range): seq<Entry> {
    if entries == [] then []
    else (if entries[0].range == r then [entries[0]] else []) + WithRange(entries[1..], r)
  }

  lemma InOrderOrders(entries: seq<Entry>)
    ensures Orders(InOrder, entries)
  {
  }

  lemma {:induction false} TiesShareRange(entries: seq<Entry>, x: Entry)
    ensures Ties(InOrder, entries, x) == WithRange(entries, x.range)
  {
    if entries != [] {
      TiesShareRange(entries[1..], x);
    }
  }

  /** Sorted, nothing lost, and entries with the same range in the order they came in. */
  lemma SortIsStable(entries: seq<Entry>)
    ensures Sorted(Sort(entries))
    ensures multiset(Sort(entries)) == multiset(entries)
    ensures forall r :: WithRange(Sort(entries), r) == WithRange(entries, r)
  {
    InOrderOrders(entries);
    SortByKeeps(InOrder, entries);
    assert forall i, j :: 0 <= i < j < |entries| ==> InOrder(Sort(entries)[i], Sort(entries)[j]);
    hide SortBy, Ties;
    forall r ensures WithRange(Sort(entries), r) == WithRange(entries, r) {
      var x := DocumentSymbol("", r, []);
      InOrderOrders([x] + entries);
      SortByStable(InOrder, entries, x);
      TiesShareRange(entries, x);
      TiesShareRange(Sort(entries), x);
    }
  }

  // ── What the outline should be ────────────────────────────────────────

  function Preorder(forest: seq<Symbol>): (r: seq<Entry>)
    ensures |r| >= |forest|
  {
    if forest == [] then []
    else [forest[0].entry] + Preorder(forest[0].children) + Preorder(forest[1..])
  }

  /** For each symbol in preorder, the preorder number of its parent, counting from `base`. */
  function Parents(forest: seq<Symbol>, base: nat, parent: Option<nat>): (r: seq<Option<nat>>)
    ensures |r| == |Preorder(forest)|
  {
    if forest == [] then []
    else
      [parent] + Parents(forest[0].children, base + 1, Some(base))
      + Parents(forest[1..], base + 1 + |Preorder(forest[0].children)|, parent)
  }

  /** The last of the first `n` entries that encloses `r`. */
  function LastEncloser(entries: seq<Entry>, n: nat, r: Range): (p: Option<nat>)
    requires n <= |entries|
    ensures p.None? ==> forall j :: 0 <= j < n ==> !Encloses(entries[j].range, r)
    ensures p.Some? ==> p.value < n && Encloses(entries[p.value].range, r)
                        && forall j :: p.value < j < n ==> !Encloses(entries[j].range, r)
  {
    if n == 0 then None
    else if Encloses(entries[n - 1].range, r) then Some(n - 1)
    else LastEncloser(entries, n - 1, r)
  }

  /** The parents the first `n` entries should get. */
  function Enclosers(entries: seq<Entry>, n: nat): (r: seq<Option<nat>>)
    requires n <= |entries|
    ensures |r| == n
  {
    if n == 0 then [] else Enclosers(entries, n - 1) + [LastEncloser(entries, n - 1, entries[n - 1].range)]
  }

  // ── The stack as a forest ─────────────────────────────────────────────

  /** The open symbols with each one as last child of the one it was opened in. */
  function Chain(open: seq<Symbol>): (r: seq<Symbol>)
    ensures |r| == if open == [] then 0 else 1
  {
    if open == [] then [] else [Symbol(open[0].entry, open[0].children + Chain(open[1..]))]
  }

  function Size(s: Symbol): nat {
    1 + |Preorder(s.children)|
  }

  function Sizes(open: seq<Symbol>): nat {
    if open == [] then 0 else Size(open[0]) + Sizes(open[1..])
  }

  lemma {:induction false} PreorderConcat(a: seq<Symbol>, b: seq<Symbol>)
    ensures Preorder(a + b) == Preorder(a) + Preorder(b)
  {
    if a == [] {
      assert a + b == b;
    } else {
      hide Preorder, Parents;
      var first, rest := a[0], a[1..];
      assert a == [first] + rest && a + b == [first] + (rest + b);
      ParentsCons(a, first, rest, 0, None);
      ParentsCons(a + b, first, rest + b, 0, None);
      PreorderConcat(rest, b);
      AppendToTail([first.entry] + Preorder(first.children), Preorder(rest), Preorder(b), Preorder(rest + b),
                   Preorder(a), Preorder(a + b));
    }
  }

  lemma Assoc<T>(a: seq<T>, b: seq<T>, c: seq<T>)
    ensures a + (b + c) == a + b + c
  {
  }

  /** What is appended to the tail is appended to the whole. */
  lemma AppendToTail<T>(head: seq<T>, tail: seq<T>, more: seq<T>, longer: seq<T>, whole: seq<T>, longerWhole: seq<T>)
    requires whole == head + tail && longerWhole == head + longer && longer == tail + more
    ensures longerWhole == whole + more
  {
    Assoc(head, tail, more);
  }

  lemma NoParents(base: nat, parent: Option<nat>)
    ensures Preorder([]) == [] && Parents([], base, parent) == []
  {
  }

  lemma ParentsCons(forest: seq<Symbol>, first: Symbol, rest: seq<Symbol>, base: nat, parent: Option<nat>)
    requires forest == [first] + rest
    ensures Preorder(forest) == [first.entry] + Preorder(first.children) + Preorder(rest)
    ensures |Preorder(forest)| == Size(first) + |Preorder(rest)|
    ensures Parents(forest, base, parent)
         == [parent] + Parents(first.children, base + 1, Some(base)) + Parents(rest, base + Size(first), parent)
  {
    assert forest[1..] == rest;
  }

  lemma {:induction false} ParentsConcat(a: seq<Symbol>, b: seq<Symbol>, base: nat, mid: nat, parent: Option<nat>)
    requires mid == base + |Preorder(a)|
    ensures Parents(a + b, base, parent) == Parents(a, base, parent) + Parents(b, mid, parent)
  {
    hide Preorder, Parents;
    if a == [] {
      assert a + b == b;
      NoParents(base, parent);
    } else {
      var first, rest, next := a[0], a[1..], base + Size(a[0]);
      assert a == [first] + rest && a + b == [first] + (rest + b);
      ParentsCons(a, first, rest, base, parent);
      ParentsCons(a + b, first, rest + b, base, parent);
      ParentsConcat(rest, b, next, mid, parent);
      AppendToTail([parent] + Parents(first.children, base + 1, Some(base)),
                   Parents(rest, next, parent), Parents(b, mid, parent), Parents(rest + b, next, parent),
                   Parents(a, base, parent), Parents(a + b, base, parent));
    }
  }

  lemma OneSymbol(e: Entry, children: seq<Symbol>, base: nat, parent: Option<nat>)
    ensures Preorder([Symbol(e, children)]) == [e] + Preorder(children)
    ensures Parents([Symbol(e, children)], base, parent) == [parent] + Parents(children, base + 1, Some(base))
  {
    assert [Symbol(e, children)][1..] == [];
  }

  lemma {:induction false} ChainSize(open: seq<Symbol>)
    ensures |Preorder(Chain(open))| == Sizes(open)
  {
    if open != [] {
      PreorderConcat(open[0].children, Chain(open[1..]));
      ChainSize(open[1..]);
      assert Chain(open)[1..] == [];
    }
  }

  /** Attaching a closed symbol to the one below it leaves the forest as it is. */
  lemma {:induction false} ChainAttach(open: seq<Symbol>, closed: Symbol)
    requires open != []
    ensures var last := open[|open| - 1];
            Chain(open + [closed]) == Chain(open[|open| - 1 := Symbol(last.entry, last.children + [closed])])
  {
    if |open| == 1 {
      assert (open + [closed])[1..] == [closed] && [closed][1..] == [];
      assert open[0 := Symbol(open[0].entry, open[0].children + [closed])][1..] == [];
      assert open[0].children + [closed] + [] == open[0].children + [closed];
      assert closed.children + [] == closed.children;
    } else {
      var last := open[|open| - 1];
      var open' := open[|open| - 1 := Symbol(last.entry, last.children + [closed])];
      ChainAttach(open[1..], closed);
      assert (open + [closed])[1..] == open[1..] + [closed];
      assert open'[1..] == open[1..][|open| - 2 := Symbol(last.entry, last.children + [closed])];
    }
  }

  lemma ChainLeaf(e: Entry)
    ensures Chain([]) == [] && Chain([Symbol(e, [])]) == [Symbol(e, [])]
  {
    assert [Symbol(e, [])][1..] == [];
    assert [] + Chain([]) == [];
  }

  lemma PreorderOfChain(open: seq<Symbol>)
    requires open != []
    ensures Preorder(Chain(open)) == [open[0].entry] + Preorder(open[0].children) + Preorder(Chain(open[1..]))
  {
    OneSymbol(open[0].entry, open[0].children + Chain(open[1..]), 0, None);
    PreorderConcat(open[0].children, Chain(open[1..]));
    Assoc([open[0].entry], Preorder(open[0].children), Preorder(Chain(open[1..])));
  }

  /** Opening a symbol appends it in preorder. */
  lemma {:induction false} PreorderPush(open: seq<Symbol>, e: Entry)
    ensures Preorder(Chain(open + [Symbol(e, [])])) == Preorder(Chain(open)) + [e]
  {
    var leaf := Symbol(e, []);
    if open == [] {
      assert open + [leaf] == [leaf];
      ChainLeaf(e);
    } else {
      var children := open[0].children;
      hide Preorder, Chain;
      assert (open + [leaf])[1..] == open[1..] + [leaf] && (open + [leaf])[0] == open[0];
      PreorderPush(open[1..], e);
      PreorderOfChain(open);
      PreorderOfChain(open + [leaf]);
      AppendToTail([open[0].entry] + Preorder(children), Preorder(Chain(open[1..])), [e],
                   Preorder(Chain(open[1..] + [leaf])), Preorder(Chain(open)), Preorder(Chain(open + [leaf])));
    }
  }

  lemma ParentsOfChain(open: seq<Symbol>, base: nat, parent: Option<nat>)
    requires open != []
    ensures Parents(Chain(open), base, parent)
         == [parent] + Parents(open[0].children, base + 1, Some(base))
            + Parents(Chain(open[1..]), base + Size(open[0]), Some(base))
  {
    OneSymbol(open[0].entry, open[0].children + Chain(open[1..]), base, parent);
    ParentsConcat(open[0].children, Chain(open[1..]), base + 1, base + Size(open[0]), Some(base));
    Assoc([parent], Parents(open[0].children, base + 1, Some(base)),
          Parents(Chain(open[1..]), base + Size(open[0]), Some(base)));
  }

  /** The symbol opened last, or the one around all of them, is the parent of the next. */
  function NextParent(open: seq<Symbol>, base: nat, parent: Option<nat>): Option<nat> {
    if open == [] then parent else Some(base + Sizes(open[..|open| - 1]))
  }

  lemma NextParentInner(open: seq<Symbol>, base: nat, parent: Option<nat>)
    requires open != []
    ensures NextParent(open[1..], base + Size(open[0]), Some(base)) == NextParent(open, base, parent)
  {
    if |open| > 1 {
      assert open[..|open| - 1][1..] == open[1..][..|open| - 2];
    } else {
      assert open[..0] == [];
    }
  }

  /** Opening a symbol makes it a child of the one opened last. */
  lemma {:induction false} ParentsPush(open: seq<Symbol>, e: Entry, base: nat, parent: Option<nat>)
    ensures Parents(Chain(open + [Symbol(e, [])]), base, parent)
         == Parents(Chain(open), base, parent) + [NextParent(open, base, parent)]
  {
    hide Preorder, Parents, Chain, Sizes;
    var leaf := Symbol(e, []);
    if open == [] {
      assert open + [leaf] == [leaf];
      ChainLeaf(e);
      OneSymbol(e, [], base, parent);
      NoParents(base, parent);
      NoParents(base + 1, Some(base));
    } else {
      assert (open + [leaf])[1..] == open[1..] + [leaf] && (open + [leaf])[0] == open[0];
      ParentsOfChain(open, base, parent);
      ParentsOfChain(open + [leaf], base, parent);
      ParentsPush(open[1..], e, base + Size(open[0]), Some(base));
      NextParentInner(open, base, parent);
      AppendToTail([parent] + Parents(open[0].children, base + 1, Some(base)),
                   Parents(Chain(open[1..]), base + Size(open[0]), Some(base)), [NextParent(open, base, parent)],
                   Parents(Chain(open[1..] + [leaf]), base + Size(open[0]), Some(base)),
                   Parents(Chain(open), base, parent), Parents(Chain(open + [leaf]), base, parent));
    }
  }

  // ── The stack invariant ───────────────────────────────────────────────

  ghost predicate NumberedAt(sorted: seq<Entry>, n: nat, roots: seq<Symbol>, open: seq<Symbol>, k: nat, number: nat) {
    && k < |open| && number < n <= |sorted| && open[k].entry == sorted[number]
    && number == |Preorder(roots)| + Sizes(open[..k])
  }

  /** `st[k]` is the preorder number of open symbol `k`. */
  ghost predicate Numbered(sorted: seq<Entry>, n: nat, roots: seq<Symbol>, open: seq<Symbol>, st: seq<nat>) {
    && |st| == |open|
    && (forall k :: 0 <= k < |st| ==> NumberedAt(sorted, n, roots, open, k, st[k]))
    && (forall j, k :: 0 <= j < k < |st| ==> st[j] < st[k])
  }

  /** Roots and open symbols together are the right outline of the first `n` entries. */
  ghost predicate Outlines(sorted: seq<Entry>, n: nat, roots: seq<Symbol>, open: seq<Symbol>) {
    && n <= |sorted|
    && Preorder(roots + Chain(open)) == sorted[..n]
    && Parents(roots + Chain(open), 0, None) == Enclosers(sorted, n)
  }

  ghost predicate CoveredAt(sorted: seq<Entry>, st: seq<nat>, j: nat, r: Range) {
    exists k :: 0 <= k < |st| && j < st[k] < |sorted| && Encloses(sorted[st[k]].range, r)
  }

  /** A closed entry encloses a later one only if some open entry after it does too. */
  ghost predicate Covered(sorted: seq<Entry>, n: nat, st: seq<nat>) {
    forall j: nat, t: nat :: j < n <= t < |sorted| && j !in st && Encloses(sorted[j].range, sorted[t].range) ==>
      CoveredAt(sorted, st, j, sorted[t].range)
  }

  /** The same while entry `n` is making room for itself on the stack. */
  ghost predicate CoveredWith(sorted: seq<Entry>, n: nat, st: seq<nat>) {
    forall j: nat, t: nat :: j < n <= t < |sorted| && j !in st && Encloses(sorted[j].range, sorted[t].range) ==>
      CoveredAt(sorted, st, j, sorted[t].range) || (t > n && Encloses(sorted[n].range, sorted[t].range))
  }

  /** What an entry reaching past its predecessor takes over from it. */
  lemma TakesOver(p: Entry, s: Entry, t: Entry)
    requires InOrder(p, s) && InOrder(s, t) && !Encloses(p.range, s.range) && Encloses(p.range, t.range)
    ensures Encloses(s.range, t.range)
  {
  }

  lemma PopKeepsCovered(sorted: seq<Entry>, n: nat, st: seq<nat>)
    requires Sorted(sorted) && n < |sorted| && st != []
    requires CoveredWith(sorted, n, st) && st[|st| - 1] < n
    requires !Encloses(sorted[st[|st| - 1]].range, sorted[n].range)
    ensures CoveredWith(sorted, n, st[..|st| - 1])
  {
    var rest, top := st[..|st| - 1], st[|st| - 1];
    forall j: nat, t: nat | j < n <= t < |sorted| && j !in rest && Encloses(sorted[j].range, sorted[t].range)
      ensures CoveredAt(sorted, rest, j, sorted[t].range) || (t > n && Encloses(sorted[n].range, sorted[t].range))
    {
      if Encloses(sorted[top].range, sorted[t].range) {
        TakesOver(sorted[top], sorted[n], sorted[t]);
      } else {
        assert st == rest + [top] && j !in st;
        if CoveredAt(sorted, st, j, sorted[t].range) {
          var k :| 0 <= k < |st| && j < st[k] < |sorted| && Encloses(sorted[st[k]].range, sorted[t].range);
          assert rest[k] == st[k];
        }
      }
    }
  }

  lemma CoveredStarts(sorted: seq<Entry>, n: nat, st: seq<nat>)
    requires Covered(sorted, n, st)
    ensures CoveredWith(sorted, n, st)
  {
  }

  lemma PushKeepsCovered(sorted: seq<Entry>, n: nat, st: seq<nat>)
    requires n < |sorted| && CoveredWith(sorted, n, st)
    ensures Covered(sorted, n + 1, st + [n])
  {
    var st' := st + [n];
    forall j: nat, t: nat | j < n + 1 <= t < |sorted| && j !in st' && Encloses(sorted[j].range, sorted[t].range)
      ensures CoveredAt(sorted, st', j, sorted[t].range)
    {
      assert st'[|st|] == n;
      assert j !in st;
      if CoveredAt(sorted, st, j, sorted[t].range) {
        var k :| 0 <= k < |st| && j < st[k] < |sorted| && Encloses(sorted[st[k]].range, sorted[t].range);
        assert st'[k] == st[k];
      }
    }
  }

  /** No encloser of entry `n` comes behind the top. */
  lemma EnclosersUpToTop(sorted: seq<Entry>, n: nat, st: seq<nat>, j: nat)
    requires n < |sorted| && CoveredWith(sorted, n, st)
    requires forall k :: 0 <= k < |st| ==> st[k] <= st[|st| - 1]
    requires j < n && Encloses(sorted[j].range, sorted[n].range)
    ensures st != [] && j <= st[|st| - 1]
  {
    hide Encloses;
    if j !in st {
      assert CoveredAt(sorted, st, j, sorted[n].range);
      hide CoveredWith;
    }
  }

  /** Once the top encloses entry `n`, or nothing is open, the top is its last encloser. */
  lemma TopIsLastEncloser(sorted: seq<Entry>, n: nat, st: seq<nat>)
    requires n < |sorted| && CoveredWith(sorted, n, st)
    requires forall k :: 0 <= k < |st| ==> st[k] < n
    requires forall j, k :: 0 <= j < k < |st| ==> st[j] < st[k]
    requires st != [] ==> Encloses(sorted[st[|st| - 1]].range, sorted[n].range)
    ensures LastEncloser(sorted, n, sorted[n].range) == if st == [] then None else Some(st[|st| - 1])
  {
    hide Encloses, LastEncloser, CoveredWith, CoveredAt;
    forall j: nat | j < n && Encloses(sorted[j].range, sorted[n].range)
      ensures st != [] && j <= st[|st| - 1]
    {
      EnclosersUpToTop(sorted, n, st, j);
    }
  }

  /** A nested symbol is pushed behind the children its parent has. */
  lemma OutlinePush(s: Symbol, closed: Symbol)
    ensures Outline(Symbol(s.entry, s.children + [closed]))
         == Outline(s).(children := Outline(s).children + [Outline(closed)])
  {
    assert OutlineAll(s.children + [closed]) == OutlineAll(s.children) + [Outline(closed)];
  }

  /** A symbol with nothing nested in it is listed as it came. */
  lemma Unnested(nodes: seq<Symbol>, symbol: DocumentSymbol)
    ensures OutlineAll(nodes + [Symbol(symbol, [])]) == OutlineAll(nodes) + [symbol]
  {
    assert symbol.children + [] == symbol.children;
    assert OutlineAll(nodes + [Symbol(symbol, [])]) == OutlineAll(nodes) + [symbol];
  }

  /** The same open symbols, all but the last with the same children. */
  ghost predicate SameFronts(open': seq<Symbol>, open: seq<Symbol>) {
    && |open'| == |open|
    && forall k :: 0 <= k < |open| ==> open'[k].entry == open[k].entry && open'[..k] == open[..k]
  }

  /**
   * Adds a finished symbol to the innermost symbol still open, or to the top level. `nodes`
   * and `forest` are what the open symbols and the roots were made from.
   */
  method Attach(symbol: DocumentSymbol, open: seq<DocumentSymbol>, roots: seq<DocumentSymbol>,
                ghost node: Symbol, ghost nodes: seq<Symbol>, ghost forest: seq<Symbol>)
    returns (open': seq<DocumentSymbol>, roots': seq<DocumentSymbol>,
             ghost nodes': seq<Symbol>, ghost forest': seq<Symbol>)
    requires symbol == Outline(node) && open == OutlineAll(nodes) && roots == OutlineAll(forest)
    ensures open' == OutlineAll(nodes') && roots' == OutlineAll(forest')
    ensures forest' + Chain(nodes') == forest + Chain(nodes + [node])
    ensures SameFronts(nodes', nodes) && (nodes != [] ==> forest' == forest)
  {
    hide Outline;
    open', roots', nodes', forest' := open, roots, nodes, forest;
    if open != [] {
      var last := open[|open| - 1];
      open' := open[|open| - 1 := last.(children := last.children + [symbol])];
      ghost var parent := nodes[|nodes| - 1];
      nodes' := nodes[|nodes| - 1 := Symbol(parent.entry, parent.children + [node])];
      OutlinePush(parent, node);
      ChainAttach(nodes, node);
      assert open' == OutlineAll(nodes');
    } else {
      roots' := roots + [symbol];
      forest' := forest + [node];
      assert roots' == OutlineAll(forest');
      assert nodes + [node] == [node] && [node][1..] == [];
      assert node.children + [] == node.children;
    }
  }

  lemma NumberedBelow(sorted: seq<Entry>, n: nat, roots: seq<Symbol>, open: seq<Symbol>, st: seq<nat>,
                      roots': seq<Symbol>, open': seq<Symbol>)
    requires Numbered(sorted, n, roots, open, st) && open != []
    requires |open'| == |open| - 1 && (open' != [] ==> roots' == roots)
    requires forall k :: 0 <= k < |open'| ==> open'[k].entry == open[k].entry
    requires forall k :: 0 <= k < |open'| ==> open'[..k] == open[..k]
    ensures Numbered(sorted, n, roots', open', st[..|open'|])
  {
    hide Preorder, Sizes;
    var st' := st[..|open'|];
    forall k | 0 <= k < |st'|
      ensures NumberedAt(sorted, n, roots', open', k, st'[k])
    {
      assert st'[k] == st[k] && NumberedAt(sorted, n, roots, open, k, st[k]);
      assert open'[k].entry == open[k].entry && open'[..k] == open[..k];
    }
    forall j, k | 0 <= j < k < |st'| ensures st'[j] < st'[k] {
      assert st'[j] == st[j] && st'[k] == st[k];
    }
    assert |st'| == |open'|;
  }

  lemma PushNumbered(sorted: seq<Entry>, n: nat, roots: seq<Symbol>, open: seq<Symbol>, st: seq<nat>)
    requires n < |sorted| && Numbered(sorted, n, roots, open, st)
    requires |Preorder(roots + Chain(open))| == n
    ensures Numbered(sorted, n + 1, roots, open + [Symbol(sorted[n], [])], st + [n])
  {
    var open' := open + [Symbol(sorted[n], [])];
    ChainSize(open);
    PreorderConcat(roots, Chain(open));
    forall k | 0 <= k < |open'| ensures open'[..k] == open[..k] {
    }
    assert open[..|open|] == open;
  }

  lemma AppendOne<T>(a: seq<T>, b: seq<T>, b': seq<T>, ab: seq<T>, ab': seq<T>, e: T)
    requires ab == a + b && ab' == a + b' && b' == b + [e]
    ensures ab' == ab + [e]
  {
  }

  lemma PreorderPushOn(roots: seq<Symbol>, open: seq<Symbol>, e: Entry)
    ensures Preorder(roots + Chain(open + [Symbol(e, [])])) == Preorder(roots + Chain(open)) + [e]
  {
    var chain, chain' := Chain(open), Chain(open + [Symbol(e, [])]);
    PreorderPush(open, e);
    PreorderConcat(roots, chain);
    PreorderConcat(roots, chain');
    AppendOne(Preorder(roots), Preorder(chain), Preorder(chain'),
              Preorder(roots + chain), Preorder(roots + chain'), e);
  }

  lemma ParentsPushOn(roots: seq<Symbol>, open: seq<Symbol>, e: Entry)
    ensures Parents(roots + Chain(open + [Symbol(e, [])]), 0, None)
         == Parents(roots + Chain(open), 0, None) + [NextParent(open, |Preorder(roots)|, None)]
  {
    var base, chain, chain' := |Preorder(roots)|, Chain(open), Chain(open + [Symbol(e, [])]);
    ParentsPush(open, e, base, None);
    ParentsConcat(roots, chain, 0, base, None);
    ParentsConcat(roots, chain', 0, base, None);
    AppendOne(Parents(roots, 0, None), Parents(chain, base, None), Parents(chain', base, None),
              Parents(roots + chain, 0, None), Parents(roots + chain', 0, None), NextParent(open, base, None));
  }

  lemma PushOutlines(sorted: seq<Entry>, n: nat, roots: seq<Symbol>, open: seq<Symbol>)
    requires n < |sorted| && Outlines(sorted, n, roots, open)
    requires LastEncloser(sorted, n, sorted[n].range) == NextParent(open, |Preorder(roots)|, None)
    ensures Outlines(sorted, n + 1, roots, open + [Symbol(sorted[n], [])])
  {
    PreorderPushOn(roots, open, sorted[n]);
    ParentsPushOn(roots, open, sorted[n]);
    hide Preorder, Parents, Chain, LastEncloser;
    assert sorted[..n + 1] == sorted[..n] + [sorted[n]];
  }

  lemma TopNumber(sorted: seq<Entry>, n: nat, roots: seq<Symbol>, open: seq<Symbol>, st: seq<nat>)
    requires Numbered(sorted, n, roots, open, st)
    ensures NextParent(open, |Preorder(roots)|, None) == if st == [] then None else Some(st[|st| - 1])
    ensures st != [] ==> open[|open| - 1].entry == sorted[st[|st| - 1]]
  {
  }

  ghost predicate StackInv(sorted: seq<Entry>, n: nat, roots: seq<Symbol>, open: seq<Symbol>, st: seq<nat>) {
    Numbered(sorted, n, roots, open, st) && Outlines(sorted, n, roots, open)
  }

  lemma StackHeight(sorted: seq<Entry>, n: nat, roots: seq<Symbol>, open: seq<Symbol>, st: seq<nat>)
    requires StackInv(sorted, n, roots, open, st)
    ensures |st| == |open|
  {
  }

  lemma StackTop(sorted: seq<Entry>, n: nat, roots: seq<Symbol>, open: seq<Symbol>, st: seq<nat>)
    requires StackInv(sorted, n, roots, open, st) && open != []
    ensures |st| == |open| && st[|st| - 1] < n <= |sorted| && open[|open| - 1].entry == sorted[st[|st| - 1]]
  {
    assert NumberedAt(sorted, n, roots, open, |st| - 1, st[|st| - 1]);
  }

  lemma StartKeeps(sorted: seq<Entry>)
    ensures StackInv(sorted, 0, [], [], []) && Covered(sorted, 0, [])
  {
    assert [] + Chain([]) == [];
  }

  lemma EndGives(sorted: seq<Entry>, roots: seq<Symbol>, st: seq<nat>)
    requires StackInv(sorted, |sorted|, roots, [], st)
    ensures Preorder(roots) == sorted && Parents(roots, 0, None) == Enclosers(sorted, |sorted|)
  {
    assert roots + Chain([]) == roots && sorted[..|sorted|] == sorted;
  }

  lemma PushKeeps(sorted: seq<Entry>, n: nat, roots: seq<Symbol>, open: seq<Symbol>, st: seq<nat>)
    requires n < |sorted| && StackInv(sorted, n, roots, open, st) && CoveredWith(sorted, n, st)
    requires open != [] ==> Encloses(open[|open| - 1].entry.range, sorted[n].range)
    ensures StackInv(sorted, n + 1, roots, open + [Symbol(sorted[n], [])], st + [n])
    ensures Covered(sorted, n + 1, st + [n])
  {
    TopNumber(sorted, n, roots, open, st);
    TopIsLastEncloser(sorted, n, st);
    PushOutlines(sorted, n, roots, open);
    PushNumbered(sorted, n, roots, open, st);
    PushKeepsCovered(sorted, n, st);
  }

  lemma OutlineInit(nodes: seq<Symbol>)
    requires nodes != []
    ensures OutlineAll(nodes)[..|nodes| - 1] == OutlineAll(nodes[..|nodes| - 1])
    ensures OutlineAll(nodes)[|nodes| - 1] == Outline(nodes[|nodes| - 1])
  {
    hide Outline;
  }

  /** Pops the symbol opened last. */
  method Close(ghost sorted: seq<Entry>, ghost n: nat, roots: seq<DocumentSymbol>, open: seq<DocumentSymbol>,
               ghost forest: seq<Symbol>, ghost nodes: seq<Symbol>, ghost st: seq<nat>)
    returns (open': seq<DocumentSymbol>, roots': seq<DocumentSymbol>,
             ghost nodes': seq<Symbol>, ghost forest': seq<Symbol>, ghost st': seq<nat>)
    requires open != [] && open == OutlineAll(nodes) && roots == OutlineAll(forest)
    requires StackInv(sorted, n, forest, nodes, st)
    ensures open' == OutlineAll(nodes') && roots' == OutlineAll(forest')
    ensures StackInv(sorted, n, forest', nodes', st')
    ensures |open'| < |open| && st' == st[..|st| - 1]
  {
    StackHeight(sorted, n, forest, nodes, st);
    hide *;
    ghost var rest, node := nodes[..|nodes| - 1], nodes[|nodes| - 1];
    assert nodes == rest + [node];
    OutlineInit(nodes);
    open', roots', nodes', forest' := Attach(open[|open| - 1], open[..|open| - 1], roots, node, rest, forest);
    st' := st[..|st| - 1];
    CloseKeeps(sorted, n, forest, rest, node, st, forest', nodes');
  }

  lemma CloseKeeps(sorted: seq<Entry>, n: nat, roots: seq<Symbol>, rest: seq<Symbol>, closed: Symbol, st: seq<nat>,
                   roots': seq<Symbol>, open': seq<Symbol>)
    requires StackInv(sorted, n, roots, rest + [closed], st)
    requires SameFronts(open', rest) && (open' != [] ==> roots' == roots)
    requires roots' + Chain(open') == roots + Chain(rest + [closed])
    ensures StackInv(sorted, n, roots', open', st[..|st| - 1])
  {
    assert Outlines(sorted, n, roots', open') by {
      hide Preorder, Parents, Chain, Enclosers, Numbered;
    }
    forall k | 0 <= k < |rest| ensures open'[..k] == (rest + [closed])[..k] {
      assert (rest + [closed])[..k] == rest[..k];
    }
    NumberedBelow(sorted, n, roots, rest + [closed], st, roots', open');
  }

  /** Closes what does not enclose entry `n`. */
  method MakeRoom(sorted: seq<Entry>, n: nat, roots: seq<DocumentSymbol>, open: seq<DocumentSymbol>,
                  ghost forest: seq<Symbol>, ghost nodes: seq<Symbol>, ghost st: seq<nat>)
    returns (open': seq<DocumentSymbol>, roots': seq<DocumentSymbol>,
             ghost nodes': seq<Symbol>, ghost forest': seq<Symbol>, ghost st': seq<nat>)
    requires open == OutlineAll(nodes) && roots == OutlineAll(forest)
    requires Sorted(sorted) && n < |sorted| && StackInv(sorted, n, forest, nodes, st) && Covered(sorted, n, st)
    ensures open' == OutlineAll(nodes') && roots' == OutlineAll(forest')
    ensures StackInv(sorted, n, forest', nodes', st') && CoveredWith(sorted, n, st')
    ensures open' != [] ==> Encloses(nodes'[|nodes'| - 1].entry.range, sorted[n].range)
  {
    CoveredStarts(sorted, n, st);
    hide StackInv, Covered, CoveredWith, CoveredAt, Chain, Preorder, OutlineAll;
    open', roots', nodes', forest', st' := open, roots, nodes, forest, st;
    while open' != [] && !Encloses(open'[|open'| - 1].range, sorted[n].range)
      invariant open' == OutlineAll(nodes') && roots' == OutlineAll(forest')
      invariant StackInv(sorted, n, forest', nodes', st') && CoveredWith(sorted, n, st')
      decreases |open'|
    {
      StackTop(sorted, n, forest', nodes', st');
      PopKeepsCovered(sorted, n, st');
      open', roots', nodes', forest', st' := Close(sorted, n, roots', open', forest', nodes', st');
    }
  }

  /** The nesting of the listed symbols: sorted in preorder, each below the last one before it around it. */
  ghost predicate Nests(forest: seq<Symbol>, symbols: seq<DocumentSymbol>) {
    && Preorder(forest) == Sort(symbols)
    && Parents(forest, 0, None) == Enclosers(Sort(symbols), |symbols|)
  }

  /**
   * Nests the symbols, each with the children it has of its own. In the preorder of the nested
   * ones they stand sorted, none lost, and each one's parent is the last symbol sorted before
   * it that encloses it: at the top level stands exactly what nothing sorted before it
   * encloses.
   */
  method NestByContainment(symbols: seq<DocumentSymbol>) returns (roots: seq<DocumentSymbol>)
    ensures exists forest :: Nests(forest, symbols) && roots == OutlineAll(forest)
  {
    hide Sorted, Outline, OutlineAll, Chain, Preorder, Parents, Enclosers, StackInv, Covered, CoveredWith, CoveredAt;
    var sorted := Sort(symbols);
    SortIsStable(symbols);
    roots := [];
    var open: seq<DocumentSymbol> := [];
    ghost var forest: seq<Symbol> := [];
    ghost var nodes: seq<Symbol> := [];
    ghost var st: seq<nat> := [];
    StartKeeps(sorted);
    for n := 0 to |sorted|
      invariant open == OutlineAll(nodes) && roots == OutlineAll(forest)
      invariant StackInv(sorted, n, forest, nodes, st) && Covered(sorted, n, st)
    {
      open, roots, nodes, forest, st := MakeRoom(sorted, n, roots, open, forest, nodes, st);
      PushKeeps(sorted, n, forest, nodes, st);
      Unnested(nodes, sorted[n]);
      open := open + [sorted[n]];
      nodes := nodes + [Symbol(sorted[n], [])];
      st := st + [n];
    }
    while open != []
      invariant open == OutlineAll(nodes) && roots == OutlineAll(forest)
      invariant StackInv(sorted, |sorted|, forest, nodes, st)
      decreases |open|
    {
      open, roots, nodes, forest, st := Close(sorted, |sorted|, roots, open, forest, nodes, st);
    }
    assert nodes == [];
    EndGives(sorted, forest, st);
    assert Nests(forest, symbols);
  }

  lemma {:induction false} EnclosersAt(entries: seq<Entry>, n: nat, i: nat)
    requires i < n <= |entries|
    ensures Enclosers(entries, n)[i] == LastEncloser(entries, i, entries[i].range)
  {
    if i < n - 1 {
      EnclosersAt(entries, n - 1, i);
    }
  }

  /**
   * What the parents in the outline mean: a top-level symbol has no symbol around it, except
   * ones with its very range; a parent encloses its child, and no symbol sorted before the
   * child that encloses it too lies strictly inside the parent.
   */
  lemma ParentIsInnermost(sorted: seq<Entry>, i: nat)
    requires Sorted(sorted) && i < |sorted|
    ensures match Enclosers(sorted, |sorted|)[i]
            case None =>
              forall j :: 0 <= j < |sorted| && j != i && Encloses(sorted[j].range, sorted[i].range) ==>
                j > i && sorted[j].range == sorted[i].range
            case Some(p) =>
              && p < i && Encloses(sorted[p].range, sorted[i].range)
              && forall j :: 0 <= j < i && Encloses(sorted[j].range, sorted[i].range) ==>
                   !StrictlyInside(sorted[j].range, sorted[p].range)
  {
    EnclosersAt(sorted, |sorted|, i);
  }

  // ── Symbols that come with children of their own ──────────────────────

  predicate StrictlyInside(inner: Range, outer: Range) {
    Encloses(outer, inner) && inner != outer
  }

  /** The ranges of the symbols and of everything under them. */
  function Ranges(symbols: seq<DocumentSymbol>): set<Range> {
    if symbols == [] then {}
    else {symbols[0].range} + Ranges(symbols[0].children) + Ranges(symbols[1..])
  }

  /** The ranges of what the symbols come with. */
  function OwnRanges(symbols: seq<DocumentSymbol>): set<Range> {
    if symbols == [] then {} else Ranges(symbols[0].children) + OwnRanges(symbols[1..])
  }

  lemma {:induction false} RangesAre(symbols: seq<DocumentSymbol>, r: Range)
    ensures r in Ranges(symbols) <==>
              r in OwnRanges(symbols) || exists j :: 0 <= j < |symbols| && symbols[j].range == r
  {
    if symbols != [] {
      RangesAre(symbols[1..], r);
      if j :| 0 <= j < |symbols| && symbols[j].range == r {
        assert j == 0 || symbols[1..][j - 1].range == r;
      }
    }
  }

  /**
   * Of the symbols in front of entry `i` and everything they come with, none lies around the
   * entry and strictly inside the parent; with no parent, none lies around it at all.
   */
  ghost predicate Innermost(sorted: seq<Entry>, i: nat, parent: Option<nat>)
    requires i < |sorted|
  {
    forall r :: r in Ranges(sorted[..i]) && Encloses(r, sorted[i].range) ==> NotInside(sorted, r, parent)
  }

  predicate NotInside(sorted: seq<Entry>, r: Range, parent: Option<nat>) {
    parent.Some? && parent.value < |sorted| && !StrictlyInside(r, sorted[parent.value].range)
  }

  /**
   * Only listed symbols are ever open, never what they come with. So the parent is the
   * innermost symbol exactly when nothing an earlier symbol comes with lies around the entry
   * and strictly inside the last listed symbol around it.
   */
  lemma InnermostIff(sorted: seq<Entry>, i: nat)
    requires Sorted(sorted) && i < |sorted|
    ensures Innermost(sorted, i, Enclosers(sorted, |sorted|)[i]) <==>
              forall r :: r in OwnRanges(sorted[..i]) && Encloses(r, sorted[i].range) ==>
                NotInside(sorted, r, LastEncloser(sorted, i, sorted[i].range))
  {
    var parent := LastEncloser(sorted, i, sorted[i].range);
    EnclosersAt(sorted, |sorted|, i);
    ParentIsInnermost(sorted, i);
    hide Sorted, Enclosers, LastEncloser, Ranges, OwnRanges;
    forall r | Encloses(r, sorted[i].range)
      ensures r in OwnRanges(sorted[..i]) ==> r in Ranges(sorted[..i])
      ensures r in Ranges(sorted[..i]) && r !in OwnRanges(sorted[..i]) ==> NotInside(sorted, r, parent)
    {
      RangesAre(sorted[..i], r);
      if j :| 0 <= j < |sorted[..i]| && sorted[..i][j].range == r {
        assert sorted[j].range == r;
      }
    }
  }

  function Lines(name: string, first: nat, last: nat, children: seq<DocumentSymbol>): DocumentSymbol {
    DocumentSymbol(name, Range(Position(first, 0), Position(last, 0)), children)
  }

  lemma TwoSorted(outer: Entry, inner: Entry)
    requires InOrder(outer, inner) && Encloses(outer.range, inner.range)
    ensures Sort([outer, inner]) == [outer, inner]
    ensures Enclosers([outer, inner], 2) == [None, Some(0)]
  {
    var listed := [outer, inner];
    assert listed[1..] == [inner] && [inner][1..] == [];
    assert Sort([inner]) == [inner];
    assert LastEncloser(listed, 0, outer.range) == None && Enclosers(listed, 1) == [None];
    assert LastEncloser(listed, 1, inner.range) == Some(0);
  }

  lemma TwoNested(outer: Entry, inner: Entry)
    ensures var forest := [Symbol(outer, [Symbol(inner, [])])];
            && Preorder(forest) == [outer, inner] && Parents(forest, 0, None) == [None, Some(0)]
            && OutlineAll(forest) == [outer.(children := outer.children + [inner])]
  {
    Unnested([], inner);
    assert [] + [Symbol(inner, [])] == [Symbol(inner, [])] && [] + [inner] == [inner];
    OneSymbol(inner, [], 1, Some(0));
    OneSymbol(outer, [Symbol(inner, [])], 0, None);
    NoParents(2, Some(1));
    assert OutlineAll([Symbol(inner, [])]) == [inner];
  }

  /** A section inside the method of a listed class is put under the class, behind the method. */
  lemma MethodPassedOver(run: DocumentSymbol, page: DocumentSymbol, body: DocumentSymbol, forest: seq<Symbol>)
    requires run == Lines("run", 1, 8, []) && page == Lines("Page", 0, 9, [run]) && body == Lines("body", 2, 3, [])
    requires forest == [Symbol(page, [Symbol(body, [])])]
    ensures Nests(forest, [page, body]) && Sort([page, body]) == [page, body]
    ensures Enclosers([page, body], 2) == [None, Some(0)]
    ensures !Innermost([page, body], 1, Some(0))
    ensures OutlineAll(forest) == [page.(children := [run, body])]
  {
    var listed := [page, body];
    TwoSorted(page, body);
    TwoNested(page, body);
    hide Sort, Enclosers, Preorder, Parents, OutlineAll;
    assert listed[..1] == [page];
    assert run.range in Ranges([run]) && run.range in Ranges(listed[..1]);
    assert !NotInside(listed, run.range, Some(0));
    assert [run] + [body] == [run, body];
  }
}
