/**
 * The outline over a text: a position is the number of characters in front of it, a symbol
 * the stretch between its two, and the outline is the nesting of these stretches.
 */
module OutlineOffsets {
  import opened DocumentSymbols
  import opened Sorting
  import opened Wrappers

  /** The characters of the first `n` lines, each with its line break and the last one with the end of the text. */
  function Before(lengths: seq<nat>, n: nat): nat
    requires n <= |lengths|
  {
    if n == 0 then 0 else Before(lengths, n - 1) + lengths[n - 1]
  }

  predicate InText(lengths: seq<nat>, p: Position) {
    p.line < |lengths| && p.character < lengths[p.line]
  }

  function Offset(lengths: seq<nat>, p: Position): nat
    requires InText(lengths, p)
  {
    Before(lengths, p.line) + p.character
  }

  lemma {:induction false} BeforeGrows(lengths: seq<nat>, m: nat, n: nat)
    requires m <= n <= |lengths|
    ensures Before(lengths, m) <= Before(lengths, n)
  {
    if m < n {
      BeforeGrows(lengths, m, n - 1);
    }
  }

  lemma EarlierLine(lengths: seq<nat>, a: Position, b: Position)
    requires InText(lengths, a) && InText(lengths, b) && a.line < b.line
    ensures Offset(lengths, a) < Offset(lengths, b)
  {
    BeforeGrows(lengths, a.line + 1, b.line);
  }

  lemma AtMostIsOffset(lengths: seq<nat>, a: Position, b: Position)
    requires InText(lengths, a) && InText(lengths, b)
    ensures AtMost(a, b) <==> Offset(lengths, a) <= Offset(lengths, b)
    ensures a == b <==> Offset(lengths, a) == Offset(lengths, b)
  {
    if a.line < b.line {
      EarlierLine(lengths, a, b);
    } else if b.line < a.line {
      EarlierLine(lengths, b, a);
    }
  }

  // ── Symbols as stretches of the text ──────────────────────────────────

  predicate RangeInText(lengths: seq<nat>, r: Range) {
    InText(lengths, r.start) && InText(lengths, r.end)
  }

  function Start(lengths: seq<nat>, r: Range): nat
    requires RangeInText(lengths, r)
  {
    Offset(lengths, r.start)
  }

  function End(lengths: seq<nat>, r: Range): nat
    requires RangeInText(lengths, r)
  {
    Offset(lengths, r.end)
  }

  predicate Covers(lengths: seq<nat>, outer: Range, inner: Range)
    requires RangeInText(lengths, outer) && RangeInText(lengths, inner)
  {
    Start(lengths, outer) <= Start(lengths, inner) && End(lengths, inner) <= End(lengths, outer)
  }

  lemma EnclosesIsCovers(lengths: seq<nat>, outer: Range, inner: Range)
    requires RangeInText(lengths, outer) && RangeInText(lengths, inner)
    ensures Encloses(outer, inner) <==> Covers(lengths, outer, inner)
  {
    AtMostIsOffset(lengths, outer.start, inner.start);
    AtMostIsOffset(lengths, inner.end, outer.end);
  }

  predicate Holds(lengths: seq<nat>, r: Range, offset: nat)
    requires RangeInText(lengths, r)
  {
    Start(lengths, r) <= offset <= End(lengths, r)
  }

  /** A symbol encloses one that does not end before it starts iff it holds all of the other's offsets. */
  lemma EnclosesIsInclusion(lengths: seq<nat>, outer: Range, inner: Range)
    requires RangeInText(lengths, outer) && RangeInText(lengths, inner)
    requires Start(lengths, inner) <= End(lengths, inner)
    ensures Encloses(outer, inner) <==>
              forall x: nat :: Holds(lengths, inner, x) ==> Holds(lengths, outer, x)
  {
    EnclosesIsCovers(lengths, outer, inner);
    assert Holds(lengths, inner, Start(lengths, inner)) && Holds(lengths, inner, End(lengths, inner));
  }

  /** Sorted by where they start, and from the same start by where they end, the last first. */
  predicate StartsFirst(lengths: seq<nat>, a: Range, b: Range)
    requires RangeInText(lengths, a) && RangeInText(lengths, b)
  {
    || Start(lengths, a) < Start(lengths, b)
    || (Start(lengths, a) == Start(lengths, b) && End(lengths, a) >= End(lengths, b))
  }

  lemma InOrderIsStartsFirst(lengths: seq<nat>, a: Entry, b: Entry)
    requires RangeInText(lengths, a.range) && RangeInText(lengths, b.range)
    ensures InOrder(a, b) <==> StartsFirst(lengths, a.range, b.range)
  {
    AtMostIsOffset(lengths, a.range.start, b.range.start);
    AtMostIsOffset(lengths, b.range.end, a.range.end);
  }

  ghost predicate AllInText(lengths: seq<nat>, symbols: seq<Entry>) {
    forall k :: 0 <= k < |symbols| ==> RangeInText(lengths, symbols[k].range)
  }

  lemma SortedInText(lengths: seq<nat>, symbols: seq<Entry>)
    requires AllInText(lengths, symbols)
    ensures AllInText(lengths, Sort(symbols))
  {
    SortIsStable(symbols);
    forall k | 0 <= k < |symbols| ensures RangeInText(lengths, Sort(symbols)[k].range) {
      assert Sort(symbols)[k] in multiset(symbols);
    }
  }

  /** `parent` is the last of the entries in front of `i` whose stretch covers that of entry `i`, if there is one. */
  ghost predicate IsLastCover(lengths: seq<nat>, entries: seq<Entry>, i: nat, parent: Option<nat>)
    requires AllInText(lengths, entries) && i < |entries|
  {
    && (parent.Some? ==> parent.value < i && Covers(lengths, entries[parent.value].range, entries[i].range))
    && forall j :: (if parent.Some? then parent.value else -1) < j < i ==>
         !Covers(lengths, entries[j].range, entries[i].range)
  }

  /**
   * The outline read in preorder: stretches by their start, the longer first, and every one
   * below the last stretch in front of it that covers it.
   */
  lemma NestsByOffset(lengths: seq<nat>, forest: seq<Symbol>, symbols: seq<Entry>)
    requires Nests(forest, symbols) && AllInText(lengths, symbols)
    ensures AllInText(lengths, Preorder(forest))
    ensures forall i, j :: 0 <= i < j < |Preorder(forest)| ==>
              StartsFirst(lengths, Preorder(forest)[i].range, Preorder(forest)[j].range)
    ensures forall i :: 0 <= i < |Preorder(forest)| ==>
              IsLastCover(lengths, Preorder(forest), i, Parents(forest, 0, None)[i])
  {
    var sorted := Preorder(forest);
    SortedInText(lengths, symbols);
    SortIsStable(symbols);
    forall i, j | 0 <= i < j < |sorted| ensures StartsFirst(lengths, sorted[i].range, sorted[j].range) {
      InOrderIsStartsFirst(lengths, sorted[i], sorted[j]);
    }
    forall i | 0 <= i < |sorted| ensures IsLastCover(lengths, sorted, i, Parents(forest, 0, None)[i]) {
      EnclosersAt(sorted, |sorted|, i);
      forall j | 0 <= j < i ensures Encloses(sorted[j].range, sorted[i].range)
                              <==> Covers(lengths, sorted[j].range, sorted[i].range) {
        EnclosesIsCovers(lengths, sorted[j].range, sorted[i].range);
      }
    }
  }

  // ── The top level ─────────────────────────────────────────────────────

  /** Where root `k` stands in preorder: it has no parent there. */
  lemma {:induction false} RootHasNoParent(forest: seq<Symbol>, k: nat, base: nat, parent: Option<nat>)
    returns (at: nat)
    requires k < |forest|
    ensures at < |Preorder(forest)| && Preorder(forest)[at] == forest[k].entry
    ensures Parents(forest, base, parent)[at] == parent
  {
    if k == 0 {
      at := 0;
    } else {
      var first := |Preorder(forest[0].children)|;
      at := RootHasNoParent(forest[1..], k - 1, base + 1 + first, parent);
      at := at + 1 + first;
    }
  }

  /** Symbol `s` starts on an earlier line than `r` and ends on a later one. */
  predicate LinesAround(s: Range, r: Range) {
    s.start.line < r.start.line && r.end.line < s.end.line
  }

  lemma LinesAroundComesFirst(sorted: seq<Entry>, j: nat, at: nat)
    requires Sorted(sorted) && j < |sorted| && at < |sorted| && LinesAround(sorted[j].range, sorted[at].range)
    ensures j < at && Encloses(sorted[j].range, sorted[at].range)
  {
    assert !InOrder(sorted[at], sorted[j]);
  }

  /** A symbol whose lines lie within those of another is never at the top level. */
  lemma LinesWithinAreNested(forest: seq<Symbol>, symbols: seq<Entry>, s: Entry, k: nat)
    requires Nests(forest, symbols) && s in symbols && k < |forest|
    ensures !LinesAround(s.range, OutlineAll(forest)[k].range)
  {
    var sorted := Preorder(forest);
    SortIsStable(symbols);
    assert s in multiset(sorted);
    var j :| 0 <= j < |sorted| && sorted[j] == s;
    var at := RootHasNoParent(forest, k, 0, None);
    EnclosersAt(sorted, |sorted|, at);
    hide Sorted, Preorder, Parents, Enclosers, Sort, OutlineAll, AtMost;
    if LinesAround(s.range, sorted[at].range) {
      LinesAroundComesFirst(sorted, j, at);
    }
  }
}
