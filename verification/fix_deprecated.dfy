/**
 * The `deprecated` rule of the fix command: calls that nest are rewritten outermost first,
 * one layer a pass, by editing the text from the bottom up.
 *
 * A document is the text of a file together with where its deprecated calls are; any other
 * syntax is just text. Offsets count characters.
 */
module FixDeprecated {
  import opened Sorting
  import opened Wrappers

  /** A call is written as its arguments, each behind some text of its own, then `last` and `)`. */
  datatype Doc =
    | End
    | Text(s: string, rest: Doc)
    | Call(args: Args, last: string, template: seq<Part>, rest: Doc)

  datatype Args = Done | Arg(before: string, doc: Doc, more: Args)

  /** A replacement template, whose own text calls nothing deprecated; it may use an argument often or never. */
  datatype Part = Lit(s: string) | Use(k: nat)

  function Render(d: Doc): string {
    match d
    case End => ""
    case Text(s, rest) => s + Render(rest)
    case Call(args, last, _, rest) => RenderArgs(args) + last + ")" + Render(rest)
  }

  function RenderArgs(a: Args): string {
    match a
    case Done => ""
    case Arg(before, doc, more) => before + Render(doc) + RenderArgs(more)
  }

  function Append(d: Doc, e: Doc): Doc {
    match d
    case End => e
    case Text(s, rest) => Text(s, Append(rest, e))
    case Call(args, last, template, rest) => Call(args, last, template, Append(rest, e))
  }

  /** Argument `k`, or nothing when the call has fewer. */
  function Nth(a: Args, k: nat): Doc {
    match a
    case Done => End
    case Arg(_, doc, more) => if k == 0 then doc else Nth(more, k - 1)
  }

  function Splice(template: seq<Part>, args: Args): Doc {
    if template == [] then End
    else
      Append(match template[0] case Lit(s) => Text(s, End) case Use(k) => Nth(args, k),
             Splice(template[1..], args))
  }

  /** What one pass makes of a document: every outermost call replaced, its arguments as written. */
  function Rewrite(d: Doc): Doc {
    match d
    case End => End
    case Text(s, rest) => Text(s, Rewrite(rest))
    case Call(args, _, template, rest) => Append(Splice(template, args), Rewrite(rest))
  }

  /** The document with every deprecated call replaced, innermost first. */
  function Normal(d: Doc): Doc {
    match d
    case End => End
    case Text(s, rest) => Text(s, Normal(rest))
    case Call(args, _, template, rest) => Append(Splice(template, NormalArgs(args)), Normal(rest))
  }

  function NormalArgs(a: Args): Args {
    match a
    case Done => Done
    case Arg(before, doc, more) => Arg(before, Normal(doc), NormalArgs(more))
  }

  function Max(a: nat, b: nat): nat {
    if a < b then b else a
  }

  /** How deep deprecated calls nest. */
  function Depth(d: Doc): nat {
    match d
    case End => 0
    case Text(_, rest) => Depth(rest)
    case Call(args, _, _, rest) => Max(1 + DepthArgs(args), Depth(rest))
  }

  function DepthArgs(a: Args): nat {
    match a
    case Done => 0
    case Arg(_, doc, more) => Max(Depth(doc), DepthArgs(more))
  }

  // ── A pass lowers the depth and keeps the meaning ─────────────────────

  lemma {:induction false} DepthAppend(d: Doc, e: Doc)
    ensures Depth(Append(d, e)) == Max(Depth(d), Depth(e))
  {
    match d
    case End =>
    case Text(_, rest) => DepthAppend(rest, e);
    case Call(_, _, _, rest) => DepthAppend(rest, e);
  }

  lemma {:induction false} DepthNth(a: Args, k: nat)
    ensures Depth(Nth(a, k)) <= DepthArgs(a)
  {
    match a
    case Done =>
    case Arg(_, _, more) => if k > 0 { DepthNth(more, k - 1); }
  }

  lemma {:induction false} DepthSplice(template: seq<Part>, args: Args)
    ensures Depth(Splice(template, args)) <= DepthArgs(args)
  {
    if template != [] {
      DepthSplice(template[1..], args);
      match template[0]
      case Lit(s) => DepthAppend(Text(s, End), Splice(template[1..], args));
      case Use(k) =>
        DepthNth(args, k);
        DepthAppend(Nth(args, k), Splice(template[1..], args));
    }
  }

  /** One pass takes a layer off, however the templates drop or repeat arguments. */
  lemma {:induction false} RewriteLowersDepth(d: Doc)
    ensures Depth(Rewrite(d)) <= if Depth(d) == 0 then 0 else Depth(d) - 1
  {
    match d
    case End =>
    case Text(_, rest) => RewriteLowersDepth(rest);
    case Call(args, _, template, rest) =>
      RewriteLowersDepth(rest);
      DepthSplice(template, args);
      DepthAppend(Splice(template, args), Rewrite(rest));
  }

  lemma {:induction false} NormalAppend(d: Doc, e: Doc)
    ensures Normal(Append(d, e)) == Append(Normal(d), Normal(e))
  {
    match d
    case End =>
    case Text(_, rest) => NormalAppend(rest, e);
    case Call(args, _, template, rest) =>
      NormalAppend(rest, e);
      AppendAssoc(Splice(template, NormalArgs(args)), Normal(rest), Normal(e));
  }

  lemma {:induction false} AppendAssoc(a: Doc, b: Doc, c: Doc)
    ensures Append(Append(a, b), c) == Append(a, Append(b, c))
  {
    match a
    case End =>
    case Text(_, rest) => AppendAssoc(rest, b, c);
    case Call(_, _, _, rest) => AppendAssoc(rest, b, c);
  }

  lemma {:induction false} NormalNth(a: Args, k: nat)
    ensures Normal(Nth(a, k)) == Nth(NormalArgs(a), k)
  {
    match a
    case Done =>
    case Arg(_, _, more) => if k > 0 { NormalNth(more, k - 1); }
  }

  lemma {:induction false} NormalSplice(template: seq<Part>, args: Args)
    ensures Normal(Splice(template, args)) == Splice(template, NormalArgs(args))
  {
    if template != [] {
      NormalSplice(template[1..], args);
      match template[0]
      case Lit(s) => NormalAppend(Text(s, End), Splice(template[1..], args));
      case Use(k) =>
        NormalNth(args, k);
        NormalAppend(Nth(args, k), Splice(template[1..], args));
    }
  }

  /** Replacing the outermost calls first does not change what everything comes to in the end. */
  lemma {:induction false} RewriteKeepsNormal(d: Doc)
    ensures Normal(Rewrite(d)) == Normal(d)
  {
    match d
    case End =>
    case Text(_, rest) => RewriteKeepsNormal(rest);
    case Call(args, _, template, rest) =>
      RewriteKeepsNormal(rest);
      NormalSplice(template, args);
      NormalAppend(Splice(template, args), Rewrite(rest));
  }

  lemma {:induction false} NormalOfFlat(d: Doc)
    requires Depth(d) == 0
    ensures Normal(d) == d
  {
    match d
    case End =>
    case Text(_, rest) => NormalOfFlat(rest);
  }

  lemma {:induction false} NormalIsFlat(d: Doc)
    ensures Depth(Normal(d)) == 0
  {
    match d
    case End =>
    case Text(_, rest) => NormalIsFlat(rest);
    case Call(args, _, template, rest) =>
      NormalIsFlat(rest);
      NormalArgsFlat(args);
      DepthSplice(template, NormalArgs(args));
      DepthAppend(Splice(template, NormalArgs(args)), Normal(rest));
  }

  lemma {:induction false} NormalArgsFlat(a: Args)
    ensures DepthArgs(NormalArgs(a)) == 0
  {
    match a
    case Done =>
    case Arg(_, doc, more) =>
      NormalIsFlat(doc);
      NormalArgsFlat(more);
  }

  // ── The calls found in the text ───────────────────────────────────────

  datatype Found = Found(start: nat, end: nat, replacement: string)

  function CallLength(args: Args, last: string): nat {
    |RenderArgs(args)| + |last| + 1
  }

  /** Every deprecated call, in the order they start, outer before inner. */
  function All(d: Doc, at: nat): seq<Found> {
    match d
    case End => []
    case Text(s, rest) => All(rest, at + |s|)
    case Call(args, last, template, rest) =>
      var end := at + CallLength(args, last);
      [Found(at, end, Render(Splice(template, args)))] + AllArgs(args, at) + All(rest, end)
  }

  function AllArgs(a: Args, at: nat): seq<Found> {
    match a
    case Done => []
    case Arg(before, doc, more) =>
      All(doc, at + |before|) + AllArgs(more, at + |before| + |Render(doc)|)
  }

  function Outermost(d: Doc, at: nat): seq<Found> {
    match d
    case End => []
    case Text(s, rest) => Outermost(rest, at + |s|)
    case Call(args, last, template, rest) =>
      var end := at + CallLength(args, last);
      [Found(at, end, Render(Splice(template, args)))] + Outermost(rest, end)
  }

  ghost predicate Within(found: seq<Found>, lo: nat, hi: nat) {
    forall k :: 0 <= k < |found| ==> lo <= found[k].start < found[k].end <= hi
  }

  lemma {:induction false} AllWithin(d: Doc, at: nat)
    ensures Within(All(d, at), at, at + |Render(d)|)
    decreases d, 1
  {
    match d
    case End =>
    case Text(s, rest) => AllWithin(rest, at + |s|);
    case Call(args, last, _, rest) =>
      AllArgsWithin(args, at);
      AllWithin(rest, at + CallLength(args, last));
  }

  lemma {:induction false} AllArgsWithin(a: Args, at: nat)
    ensures Within(AllArgs(a, at), at, at + |RenderArgs(a)|)
    decreases a, 0
  {
    match a
    case Done =>
    case Arg(before, doc, more) =>
      AllWithin(doc, at + |before|);
      AllArgsWithin(more, at + |before| + |Render(doc)|);
  }

  /** The order the source sorts by: by start, an enclosing range first. */
  predicate Less(a: Found, b: Found) {
    a.start < b.start || (a.start == b.start && a.end > b.end)
  }

  ghost predicate StrictlySorted(s: seq<Found>) {
    forall i, j :: 0 <= i < j < |s| ==> Less(s[i], s[j])
  }

  lemma {:induction false} AllSorted(d: Doc, at: nat)
    ensures StrictlySorted(All(d, at))
    decreases d, 1
  {
    AllWithin(d, at);
    match d
    case End =>
    case Text(s, rest) => AllSorted(rest, at + |s|);
    case Call(args, last, _, rest) =>
      var end := at + CallLength(args, last);
      AllArgsSorted(args, at);
      AllArgsWithin(args, at);
      AllSorted(rest, end);
      AllWithin(rest, end);
  }

  lemma {:induction false} AllArgsSorted(a: Args, at: nat)
    ensures StrictlySorted(AllArgs(a, at))
    decreases a, 0
  {
    match a
    case Done =>
    case Arg(before, doc, more) =>
      AllSorted(doc, at + |before|);
      AllWithin(doc, at + |before|);
      AllArgsSorted(more, at + |before| + |Render(doc)|);
      AllArgsWithin(more, at + |before| + |Render(doc)|);
  }

  lemma {:induction false} DepthWithinCount(d: Doc, at: nat)
    ensures Depth(d) <= |All(d, at)|
    ensures Depth(d) == 0 ==> All(d, at) == []
    ensures |Outermost(d, at)| <= |All(d, at)|
    ensures |Outermost(d, at)| == |All(d, at)| <==> Depth(d) <= 1
    ensures Outermost(d, at) == [] <==> Depth(d) == 0
    decreases d, 1
  {
    match d
    case End =>
    case Text(s, rest) => DepthWithinCount(rest, at + |s|);
    case Call(args, last, _, rest) =>
      DepthWithinCount(rest, at + CallLength(args, last));
      DepthArgsWithinCount(args, at);
  }

  lemma {:induction false} DepthArgsWithinCount(a: Args, at: nat)
    ensures DepthArgs(a) <= |AllArgs(a, at)|
    ensures DepthArgs(a) == 0 ==> AllArgs(a, at) == []
    decreases a, 0
  {
    match a
    case Done =>
    case Arg(before, doc, more) =>
      DepthWithinCount(doc, at + |before|);
      DepthArgsWithinCount(more, at + |before| + |Render(doc)|);
  }

  // ── Sorting what was found ────────────────────────────────────────────

  predicate SameRange(a: Found, b: Found) {
    a.start == b.start && a.end == b.end
  }

  predicate NotAfter(a: Found, b: Found) {
    !Less(b, a)
  }

  function Sort(s: seq<Found>): seq<Found> {
    SortBy(NotAfter, s)
  }

  /** Drops every element with the range of the one before it. */
  function Dedup(s: seq<Found>): (r: seq<Found>)
    ensures |r| <= |s| && (s != [] ==> r != [] && r[0] == s[0])
    decreases |s|
  {
    if |s| <= 1 then s
    else if SameRange(s[0], s[1]) then Dedup([s[0]] + s[2..])
    else [s[0]] + Dedup(s[1..])
  }

  ghost predicate WeaklySorted(s: seq<Found>) {
    forall i, j :: 0 <= i < j < |s| ==> !Less(s[j], s[i])
  }

  lemma SortSorts(s: seq<Found>)
    ensures WeaklySorted(Sort(s)) && multiset(Sort(s)) == multiset(s)
  {
    assert Orders(NotAfter, s);
    SortByKeeps(NotAfter, s);
    hide SortBy;
    assert forall i, j :: 0 <= i < j < |Sort(s)| ==> NotAfter(Sort(s)[i], Sort(s)[j]);
  }

  /** Equal ranges belong to one call, so they carry one replacement. */
  ghost predicate RangesAreKeys(s: seq<Found>) {
    forall i, j :: 0 <= i < j < |s| && SameRange(s[i], s[j]) ==> s[i] == s[j]
  }

  lemma {:induction false} DedupStrict(s: seq<Found>)
    requires WeaklySorted(s) && RangesAreKeys(s)
    ensures StrictlySorted(Dedup(s))
    ensures forall f :: f in Dedup(s) <==> f in s
    decreases |s|
  {
    if |s| > 1 {
      if SameRange(s[0], s[1]) {
        var t := [s[0]] + s[2..];
        assert s == [s[0], s[1]] + s[2..];
        DedupStrict(t);
      } else {
        DedupStrict(s[1..]);
        assert s == [s[0]] + s[1..];
        forall k | 0 <= k < |Dedup(s[1..])| ensures Less(s[0], Dedup(s[1..])[k]) {
          assert Dedup(s[1..])[k] in s[1..];
          assert !Less(Dedup(s[1..])[0], s[0]);
        }
      }
    }
  }

  lemma InTail(s: seq<Found>, f: Found)
    requires s != [] && StrictlySorted(s)
    ensures f in s[1..] <==> f in s && f != s[0]
  {
    if f in s && f != s[0] {
      var k :| 0 <= k < |s| && s[k] == f;
      assert s[1..][k - 1] == f;
    }
  }

  /** A set of calls has one strictly sorted listing. */
  lemma {:induction false} SortedListingUnique(s: seq<Found>, t: seq<Found>)
    requires StrictlySorted(s) && StrictlySorted(t)
    requires forall f :: f in s <==> f in t
    ensures s == t
  {
    assert s != [] ==> s[0] in s;
    assert t != [] ==> t[0] in t;
    if s != [] {
      assert s[0] == t[0];
      forall f ensures f in s[1..] <==> f in t[1..] {
        InTail(s, f);
        InTail(t, f);
      }
      SortedListingUnique(s[1..], t[1..]);
      assert s == [s[0]] + s[1..] && t == [t[0]] + t[1..];
    }
  }

  /** `found` lists the deprecated calls of `d`, in any order and any number of times each. */
  ghost predicate Finds(found: seq<Found>, d: Doc) {
    forall f :: f in found <==> f in All(d, 0)
  }

  lemma DedupSortIsAll(found: seq<Found>, d: Doc)
    requires Finds(found, d)
    ensures Dedup(Sort(found)) == All(d, 0)
    ensures |found| >= |All(d, 0)|
  {
    var sorted, all := Sort(found), All(d, 0);
    SortSorts(found);
    AllSorted(d, 0);
    forall f ensures f in sorted <==> f in all {
      assert f in multiset(sorted) <==> f in multiset(found);
    }
    forall i, j | 0 <= i < j < |sorted| && SameRange(sorted[i], sorted[j]) ensures sorted[i] == sorted[j] {
      assert sorted[i] in all && sorted[j] in all;
      var k, l :| 0 <= k < |all| && 0 <= l < |all| && all[k] == sorted[i] && all[l] == sorted[j];
      assert k == l;
    }
    DedupStrict(sorted);
    SortedListingUnique(Dedup(sorted), all);
    assert |multiset(sorted)| == |multiset(found)|;
  }

  // ── Choosing the outermost calls ──────────────────────────────────────

  /** The calls that start at or after the end of the last one chosen. */
  function Chosen(found: seq<Found>, takenUntil: nat): seq<Found> {
    if found == [] then []
    else if found[0].start < takenUntil then Chosen(found[1..], takenUntil)
    else [found[0]] + Chosen(found[1..], found[0].end)
  }

  lemma {:induction false} ChosenSkips(inner: seq<Found>, rest: seq<Found>, takenUntil: nat)
    requires forall k :: 0 <= k < |inner| ==> inner[k].start < takenUntil
    ensures Chosen(inner + rest, takenUntil) == Chosen(rest, takenUntil)
  {
    if inner == [] {
      assert inner + rest == rest;
    } else {
      assert (inner + rest)[1..] == inner[1..] + rest;
      ChosenSkips(inner[1..], rest, takenUntil);
    }
  }

  lemma ChosenCall(f: Found, inner: seq<Found>, rest: seq<Found>, takenUntil: nat)
    requires takenUntil <= f.start && Within(inner, f.start, f.end)
    ensures Chosen([f] + inner + rest, takenUntil) == [f] + Chosen(rest, f.end)
  {
    assert ([f] + inner + rest)[1..] == inner + rest && ([f] + inner + rest)[0] == f;
    ChosenSkips(inner, rest, f.end);
  }

  /** Of all calls, in source order, the ones chosen are exactly the outermost. */
  lemma {:induction false} ChosenAreOutermost(d: Doc, at: nat, takenUntil: nat)
    requires takenUntil <= at
    ensures Chosen(All(d, at), takenUntil) == Outermost(d, at)
  {
    match d
    case End =>
    case Text(s, rest) => ChosenAreOutermost(rest, at + |s|, takenUntil);
    case Call(args, last, template, rest) =>
      var end := at + CallLength(args, last);
      var f := Found(at, end, Render(Splice(template, args)));
      AllArgsWithin(args, at);
      ChosenCall(f, AllArgs(args, at), All(rest, end), takenUntil);
      ChosenAreOutermost(rest, end, end);
  }

  /** One after the other, without overlapping, between `lo` and `hi`. */
  ghost predicate Disjoint(edits: seq<Found>, lo: nat, hi: nat) {
    && Within(edits, lo, hi)
    && forall i, j :: 0 <= i < j < |edits| ==> edits[i].end <= edits[j].start
  }

  lemma {:induction false} OutermostDisjoint(d: Doc, at: nat)
    ensures Disjoint(Outermost(d, at), at, at + |Render(d)|)
  {
    match d
    case End =>
    case Text(s, rest) => OutermostDisjoint(rest, at + |s|);
    case Call(args, last, _, rest) => OutermostDisjoint(rest, at + CallLength(args, last));
  }

  method ChooseOutermost(found: seq<Found>) returns (edits: seq<Found>, enclosed: bool)
    ensures edits == Chosen(found, 0)
    ensures |edits| <= |found| && (enclosed <==> |edits| < |found|)
  {
    edits, enclosed := [], false;
    var takenUntil := None;
    for k := 0 to |found|
      invariant edits + Chosen(found[k..], if takenUntil.Some? then takenUntil.value else 0) == Chosen(found, 0)
      invariant |edits| <= k && (enclosed <==> |edits| < k)
    {
      assert found[k..][1..] == found[k + 1..] && found[k..][0] == found[k];
      if takenUntil.Some? && found[k].start < takenUntil.value {
        enclosed := true;
      } else {
        takenUntil := Some(found[k].end);
        edits := edits + [found[k]];
      }
    }
  }

  // ── Editing the text ──────────────────────────────────────────────────

  function Replace(text: string, f: Found): string
    requires f.start <= f.end <= |text|
  {
    text[..f.start] + f.replacement + text[f.end..]
  }

  /** The text with all edits, given in increasing order, made from the last to the first. */
  function Edited(text: string, edits: seq<Found>): string
    requires Disjoint(edits, 0, |text|)
    decreases |edits|, 0
  {
    if edits == [] then text
    else
      EditedKeepsFront(text, edits[1..], edits[0].end);
      Replace(Edited(text, edits[1..]), edits[0])
  }

  lemma {:induction false} EditedKeepsFront(text: string, edits: seq<Found>, n: nat)
    requires Disjoint(edits, n, |text|) && n <= |text|
    ensures |Edited(text, edits)| >= n && Edited(text, edits)[..n] == text[..n]
    decreases |edits|, 1
  {
    if edits != [] {
      EditedKeepsFront(text, edits[1..], edits[0].end);
      var inner := Edited(text, edits[1..]);
      assert inner[..n] == inner[..edits[0].end][..n] == text[..edits[0].end][..n] == text[..n];
    }
  }

  lemma CallParts(d: Doc, before: string, call: string, more: seq<Found>, f: Found)
    requires d.Call? && call == RenderArgs(d.args) + d.last + ")" && more == Outermost(d.rest, |before + call|)
    requires f == Found(|before|, |before + call|, Render(Splice(d.template, d.args)))
    ensures Outermost(d, |before|) == [f] + more
    ensures Render(d) == call + Render(d.rest)
    ensures Render(Rewrite(d)) == f.replacement + Render(Rewrite(d.rest))
  {
    RenderAppend(Splice(d.template, d.args), Rewrite(d.rest));
  }

  lemma ReplaceCall(before: string, call: string, tail: string, f: Found)
    requires f.start == |before| && f.end == |before + call|
    ensures Replace(before + call + tail, f) == before + (f.replacement + tail)
  {
    var text := before + call + tail;
    assert text[..f.start] == before && text[f.end..] == tail;
  }

  /** Editing bottom-up replaces all outermost calls of the original text at once. */
  lemma {:induction false} EditedIsRewritten(d: Doc, before: string)
    requires Disjoint(Outermost(d, |before|), 0, |before + Render(d)|)
    ensures Edited(before + Render(d), Outermost(d, |before|)) == before + Render(Rewrite(d))
    decreases d
  {
    match d
    case End =>
    case Text(s, rest) =>
      assert before + Render(d) == before + s + Render(rest);
      EditedIsRewritten(rest, before + s);
      assert before + s + Render(Rewrite(rest)) == before + (s + Render(Rewrite(rest)));
    case Call(args, last, template, rest) =>
      var call := RenderArgs(args) + last + ")";
      var more := Outermost(rest, |before + call|);
      var f := Found(|before|, |before + call|, Render(Splice(template, args)));
      CallParts(d, before, call, more, f);
      hide Render, RenderArgs, Rewrite, Outermost, Splice, Edited;
      assert before + Render(d) == before + call + Render(rest);
      OutermostDisjoint(rest, |before + call|);
      EditedIsRewritten(rest, before + call);
      EditedStep(before + Render(d), [f] + more, 0);
      assert ([f] + more)[1..] == more && ([f] + more)[0..] == [f] + more;
      ReplaceCall(before, call, Render(Rewrite(rest)), f);
  }

  lemma {:induction false} RenderAppend(d: Doc, e: Doc)
    ensures Render(Append(d, e)) == Render(d) + Render(e)
  {
    match d
    case End =>
    case Text(s, rest) => RenderAppend(rest, e);
    case Call(_, _, _, rest) => RenderAppend(rest, e);
  }

  predicate NotBefore(a: Found, b: Found) {
    a.start >= b.start
  }

  /** The stable sort by descending start. */
  function SortDown(s: seq<Found>): seq<Found> {
    SortBy(NotBefore, s)
  }

  function Reversed(s: seq<Found>): (r: seq<Found>)
    ensures |r| == |s| && forall k :: 0 <= k < |r| ==> r[k] == s[|s| - 1 - k]
  {
    if s == [] then [] else Reversed(s[1..]) + [s[0]]
  }

  ghost predicate Descends(s: seq<Found>) {
    forall i, j :: 0 <= i < j < |s| ==> s[i].start >= s[j].start
  }

  ghost predicate StrictlyAscends(s: seq<Found>) {
    forall i, j :: 0 <= i < j < |s| ==> s[i].start < s[j].start
  }

  lemma SortDownKeeps(s: seq<Found>)
    ensures multiset(SortDown(s)) == multiset(s) && Descends(SortDown(s))
  {
    assert Orders(NotBefore, s);
    SortByKeeps(NotBefore, s);
    hide SortBy;
    assert forall i, j :: 0 <= i < j < |SortDown(s)| ==> NotBefore(SortDown(s)[i], SortDown(s)[j]);
  }

  lemma HeadsAgree(a: seq<Found>, b: seq<Found>)
    requires a != [] && b != [] && a[0] in b && b[0] in a && Descends(a)
    requires forall j :: 0 < j < |b| ==> b[0].start > b[j].start
    ensures a[0] == b[0]
  {
  }

  lemma TailElements(a: seq<Found>)
    requires a != []
    ensures multiset(a[1..]) == multiset(a) - multiset{a[0]}
  {
    assert a == [a[0]] + a[1..];
  }

  /** There is one way only to list edits with different starts from the last to the first. */
  lemma {:induction false} OneDescent(a: seq<Found>, b: seq<Found>)
    requires multiset(a) == multiset(b) && Descends(a)
    requires forall i, j :: 0 <= i < j < |b| ==> b[i].start > b[j].start
    ensures a == b
  {
    if a == [] {
      assert |b| == |multiset(b)| == 0;
    } else {
      assert |a| == |multiset(a)| == |multiset(b)| == |b|;
      assert a[0] in multiset(b) && b[0] in multiset(a);
      HeadsAgree(a, b);
      TailElements(a);
      TailElements(b);
      assert Descends(a[1..]);
      hide Descends;
      OneDescent(a[1..], b[1..]);
    }
  }

  lemma {:induction false} ReversedElements(s: seq<Found>)
    ensures multiset(Reversed(s)) == multiset(s)
  {
    if s != [] {
      ReversedElements(s[1..]);
      assert s == [s[0]] + s[1..];
    }
  }

  /** Sorting brings edits in any order into descending order. */
  lemma SortDownReverses(s: seq<Found>, ascending: seq<Found>)
    requires multiset(s) == multiset(ascending) && StrictlyAscends(ascending)
    ensures SortDown(s) == Reversed(ascending)
  {
    SortDownKeeps(s);
    ReversedElements(ascending);
    hide SortDown;
    var b := Reversed(ascending);
    forall i, j | 0 <= i < j < |b| ensures b[i].start > b[j].start {
      assert b[i] == ascending[|b| - 1 - i] && b[j] == ascending[|b| - 1 - j];
    }
    OneDescent(SortDown(s), b);
  }

  lemma DisjointStarts(s: seq<Found>, lo: nat, hi: nat)
    requires Disjoint(s, lo, hi)
    ensures StrictlyAscends(s)
  {
    forall i, j | 0 <= i < j < |s| ensures s[i].start < s[j].start {
      assert s[i].start < s[i].end <= s[j].start;
    }
  }

  lemma EditedStep(text: string, edits: seq<Found>, k: nat)
    requires Disjoint(edits, 0, |text|) && k < |edits|
    ensures Disjoint(edits[k..], 0, |text|) && Disjoint(edits[k + 1..], 0, |text|)
    ensures edits[k].start <= edits[k].end <= |Edited(text, edits[k + 1..])|
    ensures Edited(text, edits[k..]) == Replace(Edited(text, edits[k + 1..]), edits[k])
  {
    assert edits[k..][1..] == edits[k + 1..];
    EditedKeepsFront(text, edits[k + 1..], edits[k].end);
  }

  /** Applies edits bottom-up, whatever order they come in; `ascending` is the same edits in order. */
  method ApplyTextEdits(content: string, edits: seq<Found>, ghost ascending: seq<Found>) returns (result: string)
    requires Disjoint(ascending, 0, |content|)
    requires multiset(edits) == multiset(ascending)
    ensures result == Edited(content, ascending)
  {
    DisjointStarts(ascending, 0, |content|);
    SortDownReverses(edits, ascending);
    result := ReplaceInTurn(content, SortDown(edits), ascending);
  }

  method ReplaceInTurn(content: string, sorted: seq<Found>, ghost ascending: seq<Found>) returns (result: string)
    requires Disjoint(ascending, 0, |content|) && sorted == Reversed(ascending)
    ensures result == Edited(content, ascending)
  {
    result := content;
    assert ascending[|ascending|..] == [];
    for k := 0 to |sorted|
      invariant Disjoint(ascending[|ascending| - k..], 0, |content|)
      invariant result == Edited(content, ascending[|ascending| - k..])
    {
      var edit := sorted[k];
      EditedStep(content, ascending, |ascending| - k - 1);
      if edit.start <= edit.end {
        result := result[..edit.start] + edit.replacement + result[edit.end..];
      }
    }
    assert ascending[0..] == ascending;
  }

  // ── The rule ──────────────────────────────────────────────────────────

  /** One pass over a document with deprecated calls. */
  method Pass(d: Doc, found: seq<Found>) returns (current: string, fixes: seq<Found>, enclosed: bool)
    requires Finds(found, d)
    ensures current == Render(Rewrite(d))
    ensures fixes == Outermost(d, 0)
    ensures enclosed <==> Depth(d) > 1
  {
    hide Render, Rewrite, Outermost, All, Depth, Chosen, Dedup, Sort, Edited, Reversed, SortDown;
    var listed := Dedup(Sort(found));
    DedupSortIsAll(found, d);
    fixes, enclosed := ChooseOutermost(listed);
    ChosenAreOutermost(d, 0, 0);
    DepthWithinCount(d, 0);
    OutermostDisjoint(d, 0);
    SortDownKeeps(fixes);
    assert "" + Render(d) == Render(d) && "" + Render(Rewrite(d)) == Render(Rewrite(d));
    EditedIsRewritten(d, "");
    current := ApplyTextEdits(Render(d), SortDown(fixes), fixes);
  }

  /**
   * Rewrites the deprecated calls of the parsed file `parse` until none is left. `find` is
   * the analysis of a parse, which may list a call more than once and in any order; parsing
   * the text of a pass is taken to give the document that pass made.
   */
  method FixDeprecated(parse: Doc, find: Doc -> seq<Found>) returns (current: string, fixes: seq<Found>)
    requires forall d :: Finds(find(d), d)
    ensures current == Render(Normal(parse))
    ensures fixes == [] <==> Depth(parse) == 0
  {
    var ast := parse;
    current, fixes := Render(parse), [];
    var passesLeft: Option<nat> := None;
    while true
      invariant current == Render(ast) && Normal(ast) == Normal(parse)
      invariant passesLeft.Some? ==> passesLeft.value > 0 && passesLeft.value >= Depth(ast)
      invariant fixes == [] ==> ast == parse
      invariant fixes != [] ==> Depth(parse) > 0
      decreases Depth(ast)
    {
      var found := find(ast);
      DedupSortIsAll(found, ast);
      DepthWithinCount(ast, 0);
      if found == [] {
        NormalOfFlat(ast);
        return;
      }
      assert found[0] in All(ast, 0);
      var passes := if passesLeft.Some? then passesLeft.value else |found|;
      var edits, enclosed;
      current, edits, enclosed := Pass(ast, found);
      fixes := fixes + edits;
      RewriteLowersDepth(ast);
      RewriteKeepsNormal(ast);
      passes := passes - 1;
      if !enclosed || passes == 0 {
        NormalOfFlat(Rewrite(ast));
        return;
      }
      passesLeft := Some(passes);
      ast := Rewrite(ast);
    }
  }

  /** Nothing deprecated is left in what the rule leaves. */
  lemma NothingLeft(d: Doc)
    ensures All(Normal(d), 0) == []
  {
    NormalIsFlat(d);
    DepthWithinCount(Normal(d), 0);
  }
}
