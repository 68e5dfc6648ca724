/**
 * The `@phpstan-ignore` comment on a line: a list of identifiers, each with an optional reason
 * in parentheses, split at the commas outside every reason. Offsets count characters of the line.
 */
module PhpstanIgnore {
  import opened TextOps
  import opened Wrappers

  const TAG: string := "@phpstan-ignore"

  datatype Span = Span(start: nat, end: nat)

  datatype Entry = Entry(span: Span, id: Span, hasReason: bool)

  datatype Comment = Comment(tagStart: nat, blanket: bool, list: Span, entries: seq<Entry>, unclosed: bool)

  predicate OccursAt(text: string, what: string, i: nat) {
    i + |what| <= |text| && text[i..i + |what|] == what
  }

  /** The first occurrence of `what` from `i` on. */
  function Find(text: string, what: string, i: nat): (r: Option<nat>)
    requires i <= |text|
    ensures r.Some? ==> r.value >= i && OccursAt(text, what, r.value)
    ensures forall j: nat :: i <= j < (if r.Some? then r.value else |text|) ==> !OccursAt(text, what, j)
    decreases |text| - i
  {
    if OccursAt(text, what, i) then Some(i) else if i == |text| then None else Find(text, what, i + 1)
  }

  // ── One entry ─────────────────────────────────────────────────────────

  predicate IsIdStart(c: char) {
    'a' <= c <= 'z' || 'A' <= c <= 'Z' || '0' <= c <= '9' || c == '_'
  }

  predicate IsIdChar(c: char) {
    IsIdStart(c) || c == '-' || c == '.'
  }

  function IdLength(entry: string, i: nat): (r: nat)
    requires i <= |entry|
    ensures i <= r <= |entry| && (forall k :: i <= k < r ==> IsIdChar(entry[k]))
    ensures r < |entry| ==> !IsIdChar(entry[r])
    decreases |entry| - i
  {
    if i < |entry| && IsIdChar(entry[i]) then IdLength(entry, i + 1) else i
  }

  function ParseEntry(line: string, segment: Span): Entry
    requires segment.start <= segment.end <= |line|
  {
    var text := line[segment.start..segment.end];
    var start := segment.start + (|text| - |TrimStart(text)|);
    var entry := TrimEnd(TrimStart(text));
    Entry(Span(start, start + |entry|), Span(start, start + IdPart(entry)), '(' in entry)
  }

  function IdPart(entry: string): nat {
    if entry != [] && IsIdStart(entry[0]) then IdLength(entry, 0) else 0
  }

  lemma IdPartIs(entry: string)
    ensures IdPart(entry) <= |entry| && (IdPart(entry) > 0 <==> entry != [] && IsIdStart(entry[0]))
    ensures forall k :: 0 <= k < IdPart(entry) ==> IsIdChar(entry[k])
    ensures 0 < IdPart(entry) < |entry| ==> !IsIdChar(entry[IdPart(entry)])
  {
  }

  lemma TrimmedParts(line: string, segment: Span) returns (front: string, entry: string)
    requires segment.start <= segment.end <= |line|
    ensures var text := line[segment.start..segment.end];
            && |entry| <= |front| <= |text| && text[|text| - |front|..] == front && entry == Trim(text) && entry <= front
            && forall k :: 0 <= k < |text| - |front| ==> IsSpace(text[k])
    ensures forall k :: |entry| <= k < |front| ==> IsSpace(front[k])
    ensures ParseEntry(line, segment).span == Span(segment.end - |front|, segment.end - |front| + |entry|)
  {
    var text := line[segment.start..segment.end];
    front := TrimStart(text);
    entry := TrimEnd(front);
    TrimStartDrops(text);
    TrimEndDrops(front);
    hide TrimStart, TrimEnd, IdLength, IsSpace;
  }

  /** An entry's span is its segment without the spaces around it. */
  lemma EntrySpan(line: string, segment: Span)
    requires segment.start <= segment.end <= |line|
    ensures var span := ParseEntry(line, segment).span;
            && segment.start <= span.start <= span.end <= segment.end
            && line[span.start..span.end] == Trim(line[segment.start..segment.end])
            && SpacesAround(line, segment, span)
  {
    hide Trim, ParseEntry, SpacesAround;
    var front, entry := TrimmedParts(line, segment);
    SpanOfTrimmed(line, segment, line[segment.start..segment.end], front, entry);
  }

  /** Outside `span` the segment is blank. */
  ghost predicate SpacesAround(line: string, segment: Span, span: Span)
    requires segment.start <= span.start <= span.end <= segment.end <= |line|
  {
    forall k :: segment.start <= k < span.start || span.end <= k < segment.end ==> IsSpace(line[k])
  }

  lemma SpanOfTrimmed(line: string, segment: Span, text: string, front: string, entry: string)
    requires segment.start <= segment.end <= |line| && text == line[segment.start..segment.end]
    requires |front| <= |text| && text[|text| - |front|..] == front && entry <= front
    requires forall k :: 0 <= k < |text| - |front| ==> IsSpace(text[k])
    requires forall k :: |entry| <= k < |front| ==> IsSpace(front[k])
    ensures var span := Span(segment.end - |front|, segment.end - |front| + |entry|);
            line[span.start..span.end] == entry && SpacesAround(line, segment, span)
  {
    hide IsSpace;
    var start := segment.end - |front|;
    assert forall k :: 0 <= k < |front| ==> front[k] == line[start + k];
    forall k | segment.start <= k < start ensures IsSpace(line[k]) {
      assert line[k] == text[k - segment.start];
    }
    forall k | start + |entry| <= k < segment.end ensures IsSpace(line[k]) {
      assert line[k] == front[k - start];
    }
  }

  /** The same for an entry that stands in a line. */
  lemma IdPartIn(line: string, start: nat, end: nat)
    requires start <= end <= |line|
    ensures var idEnd := start + IdPart(line[start..end]);
            && idEnd <= end && (idEnd > start <==> end > start && IsIdStart(line[start]))
            && (forall k :: start <= k < idEnd ==> IsIdChar(line[k]))
            && (start < idEnd < end ==> !IsIdChar(line[idEnd]))
  {
    hide IdPart, IsIdStart, IsIdChar;
    var entry := line[start..end];
    IdPartIs(entry);
    forall k | start <= k < start + IdPart(entry) ensures IsIdChar(line[k]) {
      assert line[k] == entry[k - start];
    }
  }

  lemma EntryFields(line: string, segment: Span)
    requires segment.start <= segment.end <= |line|
    ensures var e, entry := ParseEntry(line, segment), Trim(line[segment.start..segment.end]);
            e.id == Span(e.span.start, e.span.start + IdPart(entry)) && e.hasReason == ('(' in entry)
  {
    hide TrimStart, TrimEnd, IdPart;
  }

  /** The identifier is the longest prefix of the entry that reads as one; it is empty when the entry cannot start one. */
  lemma EntryId(line: string, segment: Span)
    requires segment.start <= segment.end <= |line|
    ensures var e := ParseEntry(line, segment);
            && e.id.start == e.span.start <= e.id.end <= e.span.end <= |line|
            && (e.id.end > e.id.start <==> e.span.end > e.span.start && IsIdStart(line[e.span.start]))
            && (forall k :: e.id.start <= k < e.id.end ==> IsIdChar(line[k]))
            && (e.id.start < e.id.end < e.span.end ==> !IsIdChar(line[e.id.end]))
            && (e.hasReason <==> '(' in line[e.span.start..e.span.end])
  {
    hide Trim, SpacesAround, IsIdStart, IsIdChar, IdPart, ParseEntry;
    EntrySpan(line, segment);
    EntryFields(line, segment);
    var e := ParseEntry(line, segment);
    IdPartIn(line, e.span.start, e.span.end);
  }

  // ── Splitting the list ────────────────────────────────────────────────

  /** The parentheses open after the first `n` characters; one that closes nothing is ignored. */
  function Depth(text: string, n: nat): nat
    requires n <= |text|
  {
    if n == 0 then 0
    else
      var before := Depth(text, n - 1);
      if text[n - 1] == '(' then before + 1
      else if text[n - 1] == ')' && before > 0 then before - 1
      else before
  }

  predicate SplitsAt(text: string, i: int) {
    0 <= i < |text| && text[i] == ',' && Depth(text, i) == 0
  }

  /** The splitting commas among the first `n` characters. */
  function Cuts(text: string, n: nat): (r: seq<nat>)
    requires n <= |text|
    ensures forall k :: 0 <= k < |r| ==> r[k] < n
    ensures forall j, k :: 0 <= j < k < |r| ==> r[j] < r[k]
  {
    if n == 0 then [] else Cuts(text, n - 1) + if SplitsAt(text, n - 1) then [n - 1] else []
  }

  lemma {:induction false} CutsSplit(text: string, n: nat)
    requires n <= |text|
    ensures forall k :: 0 <= k < |Cuts(text, n)| ==> SplitsAt(text, Cuts(text, n)[k])
  {
    if n > 0 {
      CutsSplit(text, n - 1);
      ReadOne(text, n - 1);
      hide Cuts, Depth;
    }
  }

  /** Opening minus closing parentheses in `text[j..n]`. */
  function Balance(text: string, j: nat, n: nat): int
    requires j <= n <= |text|
  {
    if j == n then 0
    else Balance(text, j, n - 1) + if text[n - 1] == '(' then 1 else if text[n - 1] == ')' then -1 else 0
  }

  /** The depth is the balance of the stretch before `n` that opens the most: zero when none leaves one open. */
  lemma {:induction false} DepthIsWorstBalance(text: string, n: nat)
    requires n <= |text|
    ensures forall j: nat :: j <= n ==> Balance(text, j, n) <= Depth(text, n)
    ensures exists j: nat :: j <= n && Balance(text, j, n) == Depth(text, n)
  {
    if n == 0 {
      assert Balance(text, 0, 0) == Depth(text, 0);
    } else {
      DepthIsWorstBalance(text, n - 1);
      var j: nat :| j <= n - 1 && Balance(text, j, n - 1) == Depth(text, n - 1);
      assert Balance(text, n, n) == 0;
      if Depth(text, n) == 0 {
        assert Balance(text, n, n) == Depth(text, n);
      } else {
        assert Balance(text, j, n) == Depth(text, n);
      }
      forall i: nat | i <= n ensures Balance(text, i, n) <= Depth(text, n) {
        assert i < n ==> Balance(text, i, n - 1) <= Depth(text, n - 1);
      }
    }
  }

  /** The stretch of the line between two cuts of the region that starts at `base`. */
  function Segment(base: nat, cuts: seq<nat>, n: nat, k: nat): Span
    requires k <= |cuts|
  {
    Span(base + if k == 0 then 0 else cuts[k - 1] + 1, base + if k < |cuts| then cuts[k] else n)
  }

  /** Where the entry under way at `n` begins. */
  function EntryStart(text: string, n: nat): (r: nat)
    requires n <= |text|
    ensures r <= n
  {
    if n == 0 then 0 else if SplitsAt(text, n - 1) then n else EntryStart(text, n - 1)
  }

  /** The entries that end among the first `n` characters of the region, which starts at `base`. */
  function EntriesBefore(line: string, base: nat, region: string, n: nat): seq<Entry>
    requires base + |region| <= |line| && n <= |region|
  {
    if n == 0 then []
    else
      EntriesBefore(line, base, region, n - 1)
      + if SplitsAt(region, n - 1) then
          [ParseEntry(line, Span(base + EntryStart(region, n - 1), base + n - 1))]
        else []
  }

  function Entries(line: string, base: nat, region: string): (r: seq<Entry>)
    requires base + |region| <= |line|
    ensures r != []
  {
    EntriesBefore(line, base, region, |region|)
    + [ParseEntry(line, Span(base + EntryStart(region, |region|), base + |region|))]
  }

  lemma {:induction false} EntriesCounted(line: string, base: nat, region: string, n: nat)
    requires base + |region| <= |line| && n <= |region|
    ensures |EntriesBefore(line, base, region, n)| == |Cuts(region, n)|
    ensures EntryStart(region, n) == Segment(0, Cuts(region, n), |region|, |Cuts(region, n)|).start
  {
    if n == 0 {
      NothingRead(line, base, region);
    } else {
      hide Cuts, EntriesBefore, EntryStart, ParseEntry, SplitsAt, Segment;
      var m := n - 1;
      EntriesCounted(line, base, region, m);
      ReadOne(region, m);
      ReadEntry(line, base, region, m);
      if SplitsAt(region, m) {
        SegmentKept(0, Cuts(region, m), m, |region|, 0);
      }
    }
  }

  lemma SegmentKept(base: nat, cuts: seq<nat>, next: nat, n: nat, k: nat)
    requires k <= |cuts|
    ensures k < |cuts| ==> Segment(base, cuts + [next], n, k) == Segment(base, cuts, n, k)
    ensures Segment(base, cuts + [next], n, |cuts|) == Span(base + Segment(0, cuts, n, |cuts|).start, base + next)
    ensures Segment(base, cuts + [next], n, |cuts| + 1).start == base + next + 1
  {
  }

  lemma {:induction false} EntryBefore(line: string, base: nat, region: string, n: nat, k: nat, segment: Span)
    requires base + |region| <= |line| && n <= |region| && k < |Cuts(region, n)|
    requires segment == Segment(base, Cuts(region, n), |region|, k) && segment.start <= segment.end <= |line|
    ensures k < |EntriesBefore(line, base, region, n)|
    ensures EntriesBefore(line, base, region, n)[k] == ParseEntry(line, segment)
  {
    hide *;
    assert Cuts(region, n)[k] < n;
    if k < |Cuts(region, n - 1)| {
      SameSegment(base, region, n, k);
      EntryBefore(line, base, region, n - 1, k, segment);
      SameEntry(line, base, region, n, k);
    } else {
      LastBefore(line, base, region, n);
    }
  }

  /** One character more leaves the stretches between the cuts before it. */
  lemma SameSegment(base: nat, region: string, n: nat, k: nat)
    requires 0 < n <= |region| && k < |Cuts(region, n - 1)|
    ensures k < |Cuts(region, n)|
    ensures Segment(base, Cuts(region, n), |region|, k) == Segment(base, Cuts(region, n - 1), |region|, k)
  {
    hide Cuts, SplitsAt, Segment;
    ReadOne(region, n - 1);
    if SplitsAt(region, n - 1) {
      SegmentKept(base, Cuts(region, n - 1), n - 1, |region|, k);
    }
  }

  lemma SameEntry(line: string, base: nat, region: string, n: nat, k: nat)
    requires base + |region| <= |line| && 0 < n <= |region| && k < |EntriesBefore(line, base, region, n - 1)|
    ensures k < |EntriesBefore(line, base, region, n)|
    ensures EntriesBefore(line, base, region, n)[k] == EntriesBefore(line, base, region, n - 1)[k]
  {
    hide SplitsAt, EntryStart, ParseEntry;
  }

  /** The entry that a splitting comma ends. */
  lemma LastBefore(line: string, base: nat, region: string, n: nat)
    requires base + |region| <= |line| && 0 < n <= |region| && |Cuts(region, n)| > |Cuts(region, n - 1)|
    ensures var k := |Cuts(region, n - 1)|;
            var segment := Segment(base, Cuts(region, n), |region|, k);
            && |Cuts(region, n)| == k + 1 == |EntriesBefore(line, base, region, n)|
            && segment.start <= segment.end <= |line|
            && EntriesBefore(line, base, region, n)[k] == ParseEntry(line, segment)
  {
    hide Cuts, EntriesBefore, EntryStart, ParseEntry, SplitsAt, Segment;
    ReadOne(region, n - 1);
    ReadEntry(line, base, region, n - 1);
    EntriesCounted(line, base, region, n - 1);
    SegmentKept(base, Cuts(region, n - 1), n - 1, |region|, 0);
  }

  /** There is one entry more than there are splitting commas, and each is parsed from what stands between two. */
  lemma EntryBetweenCuts(line: string, base: nat, region: string, k: nat)
    requires base + |region| <= |line|
    ensures |Entries(line, base, region)| == |Cuts(region, |region|)| + 1
    ensures k <= |Cuts(region, |region|)| ==>
              Entries(line, base, region)[k] == ParseEntry(line, Segment(base, Cuts(region, |region|), |region|, k))
  {
    hide Cuts, ParseEntry, EntriesBefore, EntryStart;
    EntriesCounted(line, base, region, |region|);
    if k < |Cuts(region, |region|)| {
      EntryBefore(line, base, region, |region|, k, Segment(base, Cuts(region, |region|), |region|, k));
    }
  }

  function RegionEnd(line: string, base: nat): (r: nat)
    requires base <= |line|
    ensures base <= r <= |line|
  {
    var close := Find(line, "*/", base);
    if close.Some? then close.value else |line|
  }

  predicate Blanket(line: string, tagEnd: nat) {
    OccursAt(line, "-line", tagEnd) || OccursAt(line, "-next-line", tagEnd)
  }

  function Parse(line: string): Option<Comment> {
    var tag := Find(line, TAG, 0);
    if tag.None? then None
    else
      var tagEnd := tag.value + |TAG|;
      if Blanket(line, tagEnd) then Some(Comment(tag.value, true, Span(tagEnd, tagEnd), [], false))
      else
        var end := RegionEnd(line, tagEnd);
        var entries := Entries(line, tagEnd, line[tagEnd..end]);
        var first, last := entries[0].span.start, entries[|entries| - 1].span.end;
        Some(Comment(tag.value, false, Span(first, if last < first then first else last), entries,
                     Depth(line[tagEnd..end], end - tagEnd) > 0))
  }

  method ParseIgnoreComment(line: string) returns (r: Option<Comment>)
    ensures r == Parse(line)
  {
    hide Find, Cuts, Depth, ParseEntry;
    var tag := Find(line, TAG, 0);
    if tag.None? {
      return None;
    }
    var tagEnd := tag.value + |TAG|;
    if Blanket(line, tagEnd) {
      return Some(Comment(tag.value, true, Span(tagEnd, tagEnd), [], false));
    }
    var end := RegionEnd(line, tagEnd);
    var entries, depth := SplitRegion(line, tagEnd, line[tagEnd..end]);
    var listStart, listEnd := entries[0].span.start, entries[|entries| - 1].span.end;
    var list := Span(listStart, if listEnd < listStart then listStart else listEnd);
    r := Some(Comment(tag.value, false, list, entries, depth > 0));
  }

  /** The loop over the region's characters. */
  method SplitRegion(line: string, base: nat, region: string) returns (entries: seq<Entry>, depth: nat)
    requires base + |region| <= |line|
    ensures entries == Entries(line, base, region)
    ensures depth == Depth(region, |region|)
  {
    hide ParseEntry, Depth, EntriesBefore, EntryStart;
    var segmentStart := base;
    entries, depth := [], 0;
    NothingRead(line, base, region);
    for i := 0 to |region|
      invariant depth == Depth(region, i)
      invariant segmentStart == base + EntryStart(region, i)
      invariant entries == EntriesBefore(line, base, region, i)
    {
      ReadOne(region, i);
      ReadEntry(line, base, region, i);
      match region[i]
      case '(' => depth := depth + 1;
      case ')' => depth := if depth == 0 then 0 else depth - 1;
      case ',' =>
        if depth == 0 {
          entries := entries + [ParseEntry(line, Span(segmentStart, base + i))];
          segmentStart := base + i + 1;
        }
      case _ =>
    }
    entries := entries + [ParseEntry(line, Span(segmentStart, base + |region|))];
  }

  lemma NothingRead(line: string, base: nat, region: string)
    requires base + |region| <= |line|
    ensures Depth(region, 0) == 0 && EntryStart(region, 0) == 0 && Cuts(region, 0) == []
    ensures EntriesBefore(line, base, region, 0) == []
  {
  }

  lemma ReadEntry(line: string, base: nat, region: string, i: nat)
    requires base + |region| <= |line| && i < |region|
    ensures EntryStart(region, i + 1) == if SplitsAt(region, i) then i + 1 else EntryStart(region, i)
    ensures EntriesBefore(line, base, region, i + 1)
         == if SplitsAt(region, i) then
              EntriesBefore(line, base, region, i)
              + [ParseEntry(line, Span(base + EntryStart(region, i), base + i))]
            else EntriesBefore(line, base, region, i)
  {
    hide ParseEntry, SplitsAt;
  }

  lemma ReadOne(text: string, i: nat)
    requires i < |text|
    ensures Depth(text, i + 1)
         == if text[i] == '(' then Depth(text, i) + 1
            else if text[i] == ')' && Depth(text, i) > 0 then Depth(text, i) - 1
            else Depth(text, i)
    ensures Cuts(text, i + 1) == if SplitsAt(text, i) then Cuts(text, i) + [i] else Cuts(text, i)
  {
  }

  // ── What a parsed comment is ──────────────────────────────────────────

  /** A comma splits exactly when no parenthesis before it is open: no stretch up to it opens more than it closes. */
  lemma SplitsIff(text: string, i: nat)
    requires i < |text|
    ensures SplitsAt(text, i) <==> text[i] == ',' && forall j: nat :: j <= i ==> Balance(text, j, i) <= 0
  {
    DepthIsWorstBalance(text, i);
    hide Balance, Depth;
  }

  lemma EntryInSegment(line: string, base: nat, region: string, k: nat)
    requires base + |region| <= |line| && k < |Entries(line, base, region)|
    ensures k <= |Cuts(region, |region|)|
    ensures var segment, span := Segment(base, Cuts(region, |region|), |region|, k), Entries(line, base, region)[k].span;
            base <= segment.start <= span.start <= span.end <= segment.end <= base + |region|
    ensures var segment, span := Segment(base, Cuts(region, |region|), |region|, k), Entries(line, base, region)[k].span;
            SpacesAround(line, segment, span)
  {
    hide Cuts, Entries, ParseEntry, SpacesAround, Trim;
    EntryBetweenCuts(line, base, region, k);
    EntrySpan(line, Segment(base, Cuts(region, |region|), |region|, k));
  }

  /** The spans increase, and a splitting comma stands between any two. */
  lemma EntriesApart(line: string, base: nat, region: string, j: nat, k: nat)
    requires base + |region| <= |line| && j < k < |Entries(line, base, region)|
    ensures Entries(line, base, region)[j].span.end < Entries(line, base, region)[k].span.start
  {
    hide Entries, Cuts, SpacesAround;
    EntryInSegment(line, base, region, j);
    EntryInSegment(line, base, region, k);
  }

  /** The segment a character that is no cut stands in. */
  lemma {:induction false} SegmentOf(cuts: seq<nat>, n: nat, i: nat, k: nat) returns (l: nat)
    requires k <= |cuts| && i < n && i !in cuts
    requires k == 0 || cuts[k - 1] < i
    ensures k <= l <= |cuts| && Segment(0, cuts, n, l).start <= i < Segment(0, cuts, n, l).end
    decreases |cuts| - k
  {
    if k == |cuts| || i < cuts[k] {
      l := k;
    } else {
      l := SegmentOf(cuts, n, i, k + 1);
    }
  }

  /** Nothing is lost: outside the entries the region holds only spaces and the splitting commas. */
  lemma OutsideEntries(line: string, base: nat, region: string, i: nat)
    requires base + |region| <= |line| && region == line[base..base + |region|] && i < |region|
    requires forall k :: 0 <= k < |Entries(line, base, region)| ==>
               !(Entries(line, base, region)[k].span.start <= base + i < Entries(line, base, region)[k].span.end)
    ensures IsSpace(region[i]) || SplitsAt(region, i)
  {
    hide Entries, Cuts, SplitsAt, IsSpace;
    var cuts := Cuts(region, |region|);
    CutsSplit(region, |region|);
    if i !in cuts {
      var k := SegmentOf(cuts, |region|, i, 0);
      EntryBetweenCuts(line, base, region, k);
      EntryInSegment(line, base, region, k);
      assert region[i] == line[base + i];
    }
  }

  lemma {:induction false} CutsAreAll(text: string, n: nat, i: nat)
    requires i < n <= |text| && SplitsAt(text, i)
    ensures i in Cuts(text, n)
  {
    if i < n - 1 {
      CutsAreAll(text, n - 1, i);
    }
  }

  /** No entry holds a splitting comma, so a comma inside a reason stays in its entry. */
  lemma InsideEntry(line: string, base: nat, region: string, k: nat, i: nat)
    requires base + |region| <= |line| && k < |Entries(line, base, region)| && i < |region|
    requires Entries(line, base, region)[k].span.start <= base + i < Entries(line, base, region)[k].span.end
    ensures !SplitsAt(region, i)
  {
    hide Entries, Cuts, SplitsAt, SpacesAround;
    var cuts := Cuts(region, |region|);
    EntryInSegment(line, base, region, k);
    assert forall j :: 0 <= j < |cuts| ==> cuts[j] != i;
    if SplitsAt(region, i) {
      CutsAreAll(region, |region|, i);
    }
  }

  /** The comment is found exactly on a line that holds the tag, and its first occurrence is taken. */
  lemma FoundIff(line: string)
    ensures Parse(line).None? <==> forall i: nat :: i < |line| ==> !OccursAt(line, TAG, i)
    ensures Parse(line).Some? ==>
              && OccursAt(line, TAG, Parse(line).value.tagStart)
              && forall i: nat :: i < Parse(line).value.tagStart ==> !OccursAt(line, TAG, i)
  {
    hide Entries, Depth;
  }

  lemma ParsedParts(line: string) returns (base: nat, region: string)
    requires Parse(line).Some? && !Parse(line).value.blanket
    ensures var c := Parse(line).value;
            && base == c.tagStart + |TAG| <= |line|
            && region == line[base..RegionEnd(line, base)]
            && c.entries == Entries(line, base, region)
            && (c.unclosed <==> Depth(region, |region|) > 0)
            && c.list.start == c.entries[0].span.start <= c.list.end
            && c.entries[|c.entries| - 1].span.end <= c.list.end
            && (c.list.end == c.list.start || c.list.end == c.entries[|c.entries| - 1].span.end)
  {
    hide Find, Entries, Depth, Blanket, RegionEnd;
    base := Parse(line).value.tagStart + |TAG|;
    region := line[base..RegionEnd(line, base)];
  }

  /** The list runs from the first entry to the last and holds all of them, before the comment's closing mark. */
  lemma ListHolds(line: string, k: nat)
    requires Parse(line).Some? && k < |Parse(line).value.entries| && !Parse(line).value.blanket
    ensures var c := Parse(line).value;
            && c.tagStart + |TAG| <= c.list.start <= c.entries[k].span.start
            && c.entries[k].span.end <= c.list.end <= RegionEnd(line, c.tagStart + |TAG|)
  {
    hide Parse, Entries, SpacesAround, RegionEnd, Segment, Depth;
    var base, region := ParsedParts(line);
    var last := |Entries(line, base, region)| - 1;
    EntryInSegment(line, base, region, 0);
    EntryInSegment(line, base, region, k);
    EntryInSegment(line, base, region, last);
    if k > 0 {
      EntriesApart(line, base, region, 0, k);
    }
    if k < last {
      EntriesApart(line, base, region, k, last);
    }
  }

  /** An entry's identifier is the longest prefix of it that reads as one, or empty. */
  lemma IdHolds(line: string, k: nat)
    requires Parse(line).Some? && k < |Parse(line).value.entries| && !Parse(line).value.blanket
    ensures var e := Parse(line).value.entries[k];
            && e.id.start == e.span.start <= e.id.end <= e.span.end <= |line|
            && (e.id.end > e.id.start <==> e.span.end > e.span.start && IsIdStart(line[e.span.start]))
            && (forall i :: e.id.start <= i < e.id.end ==> IsIdChar(line[i]))
            && (e.id.start < e.id.end < e.span.end ==> !IsIdChar(line[e.id.end]))
            && (e.hasReason <==> '(' in line[e.span.start..e.span.end])
  {
    hide Parse, Entries, SpacesAround, RegionEnd, ParseEntry, Depth, IsIdStart, IsIdChar, Cuts;
    var base, region := ParsedParts(line);
    EntryBetweenCuts(line, base, region, k);
    EntryId(line, Segment(base, Cuts(region, |region|), |region|, k));
  }

  /** The list ends inside a reason exactly when some stretch to its end opens more than it closes. */
  lemma UnclosedIff(line: string)
    requires Parse(line).Some? && !Parse(line).value.blanket
    ensures var base := Parse(line).value.tagStart + |TAG|;
            var region := line[base..RegionEnd(line, base)];
            Parse(line).value.unclosed <==> exists j: nat :: j <= |region| && Balance(region, j, |region|) > 0
  {
    hide Parse, Depth, Balance, RegionEnd;
    var base, region := ParsedParts(line);
    DepthIsWorstBalance(region, |region|);
  }

  // ── The identifiers of a whole file ───────────────────────────────────

  datatype Line = Line(start: nat, text: string)

  /** A line without its terminator, `\n` or `\r\n`. */
  function Strip(raw: string): (r: string)
    ensures r <= raw
  {
    if raw == [] || raw[|raw| - 1] != '\n' then raw
    else if |raw| > 1 && raw[|raw| - 2] == '\r' then raw[..|raw| - 2]
    else raw[..|raw| - 1]
  }

  function RawEnd(content: string, at: nat): (r: nat)
    requires at < |content|
    ensures at < r <= |content|
  {
    var newline := Find(content, "\n", at);
    if newline.Some? then newline.value + 1 else |content|
  }

  function LinesFrom(content: string, at: nat): seq<Line>
    requires at <= |content|
    decreases |content| - at
  {
    if at == |content| then []
    else [Line(at, Strip(content[at..RawEnd(content, at)]))] + LinesFrom(content, RawEnd(content, at))
  }

  function IdSpans(entries: seq<Entry>, at: nat): seq<Span> {
    if entries == [] then []
    else
      var last := entries[|entries| - 1].id;
      IdSpans(entries[..|entries| - 1], at) + if last.start < last.end then [Span(at + last.start, at + last.end)] else []
  }

  function LineSpans(line: Line): seq<Span> {
    var comment := Parse(line.text);
    if comment.None? then [] else IdSpans(comment.value.entries, line.start)
  }

  function AllSpans(lines: seq<Line>): seq<Span> {
    if lines == [] then [] else LineSpans(lines[0]) + AllSpans(lines[1..])
  }

  method CodeSpans(content: string) returns (spans: seq<Span>)
    ensures spans == AllSpans(LinesFrom(content, 0))
  {
    hide LinesFrom, LineSpans, AllSpans;
    spans := [];
    var lines := LinesFrom(content, 0);
    for i := 0 to |lines|
      invariant spans + AllSpans(lines[i..]) == AllSpans(lines)
    {
      SpansNext(lines, i);
      spans := spans + LineSpans(lines[i]);
    }
    SpansNext(lines, |lines|);
  }

  lemma SpansNext(lines: seq<Line>, i: nat)
    requires i <= |lines|
    ensures i < |lines| ==> AllSpans(lines[i..]) == LineSpans(lines[i]) + AllSpans(lines[i + 1..])
    ensures i == |lines| ==> AllSpans(lines[i..]) == []
  {
    if i < |lines| {
      assert lines[i..][1..] == lines[i + 1..];
    }
  }

  ghost predicate IsId(content: string, span: Span) {
    && span.start < span.end <= |content|
    && IsIdStart(content[span.start])
    && forall i :: span.start <= i < span.end ==> IsIdChar(content[i])
  }

  /** The spans lie in `lo..hi` and do not overlap, and each one is an identifier of the text. */
  ghost predicate Marks(content: string, spans: seq<Span>, lo: nat, hi: nat) {
    && (forall k :: 0 <= k < |spans| ==> lo <= spans[k].start && spans[k].end <= hi && IsId(content, spans[k]))
    && (forall j, k :: 0 <= j < k < |spans| ==> spans[j].end <= spans[k].start)
  }

  lemma MarksConcat(content: string, a: seq<Span>, b: seq<Span>, lo: nat, mid: nat, hi: nat)
    requires lo <= mid <= hi && Marks(content, a, lo, mid) && Marks(content, b, mid, hi)
    ensures Marks(content, a + b, lo, hi)
  {
    hide IsId;
    forall j, k | 0 <= j < k < |a + b| ensures (a + b)[j].end <= (a + b)[k].start {
      assert j < |a| <= k ==> a[j].end <= mid <= b[k - |a|].start;
    }
  }

  lemma {:induction false} IdSpansMark(content: string, line: Line, n: nat)
    requires line.start + |line.text| <= |content|
    requires content[line.start..line.start + |line.text|] == line.text
    requires Parse(line.text).Some? && !Parse(line.text).value.blanket && n <= |Parse(line.text).value.entries|
    ensures var entries := Parse(line.text).value.entries;
            && (n > 0 ==> entries[n - 1].span.end <= |line.text|)
            && Marks(content, IdSpans(entries[..n], line.start), line.start,
                     line.start + if n == 0 then 0 else entries[n - 1].span.end)
  {
    hide Parse, IsId, Marks;
    var entries := Parse(line.text).value.entries;
    if n == 0 {
      NoMarks(content, line.start, line.start);
    } else {
      var before := IdSpans(entries[..n - 1], line.start);
      IdSpansMark(content, line, n - 1);
      assert entries[..n][..n - 1] == entries[..n - 1];
      LastMark(content, line, n - 1);
    }
  }

  lemma NoMarks(content: string, lo: nat, hi: nat)
    ensures Marks(content, [], lo, hi)
  {
  }

  lemma LastMark(content: string, line: Line, k: nat)
    requires line.start + |line.text| <= |content|
    requires content[line.start..line.start + |line.text|] == line.text
    requires Parse(line.text).Some? && !Parse(line.text).value.blanket && k < |Parse(line.text).value.entries|
    requires var entries := Parse(line.text).value.entries;
             Marks(content, IdSpans(entries[..k], line.start), line.start,
                   line.start + if k == 0 then 0 else entries[k - 1].span.end)
    ensures var entries := Parse(line.text).value.entries;
            entries[k].span.end <= |line.text| &&
            Marks(content, IdSpans(entries[..k], line.start)
                           + (if entries[k].id.start < entries[k].id.end then
                                [Span(line.start + entries[k].id.start, line.start + entries[k].id.end)]
                              else []),
                  line.start, line.start + entries[k].span.end)
  {
    hide Parse, IdSpans, IsIdStart, IsIdChar, Marks;
    var entries := Parse(line.text).value.entries;
    var e := entries[k];
    var at, lo := line.start, if k == 0 then 0 else entries[k - 1].span.end;
    IdHolds(line.text, k);
    if k > 0 {
      ParsedApart(line.text, k - 1, k);
    }
    MarkOne(content, line.text, at, e, lo, IdSpans(entries[..k], at));
  }

  lemma MarkOne(content: string, text: string, at: nat, e: Entry, lo: nat, before: seq<Span>)
    requires at + |text| <= |content| && content[at..at + |text|] == text
    requires lo <= e.span.start == e.id.start <= e.id.end <= e.span.end <= |text|
    requires e.id.start < e.id.end ==> IsIdStart(text[e.id.start])
    requires forall i :: e.id.start <= i < e.id.end ==> IsIdChar(text[i])
    requires Marks(content, before, at, at + lo)
    ensures Marks(content, before + (if e.id.start < e.id.end then [Span(at + e.id.start, at + e.id.end)] else []),
                  at, at + e.span.end)
  {
    hide IsIdStart, IsIdChar;
    var more := if e.id.start < e.id.end then [Span(at + e.id.start, at + e.id.end)] else [];
    assert forall i :: at <= i < at + |text| ==> content[i] == text[i - at];
    MarksConcat(content, before, more, at, at + lo, at + e.span.end);
  }

  lemma ParsedApart(line: string, j: nat, k: nat)
    requires Parse(line).Some? && j < k < |Parse(line).value.entries| && !Parse(line).value.blanket
    ensures Parse(line).value.entries[j].span.end < Parse(line).value.entries[k].span.start
  {
    hide Parse, Entries, RegionEnd, Depth;
    var base, region := ParsedParts(line);
    EntriesApart(line, base, region, j, k);
  }

  /** What is marked in a file are identifiers, in order and without overlap, whatever ends its lines. */
  lemma {:induction false} CodeSpansMark(content: string, at: nat)
    requires at <= |content|
    ensures Marks(content, AllSpans(LinesFrom(content, at)), at, |content|)
    decreases |content| - at
  {
    hide Marks, IdSpans, Parse, Strip;
    if at < |content| {
      var end := RawEnd(content, at);
      var line := Line(at, Strip(content[at..end]));
      CodeSpansMark(content, end);
      hide RawEnd;
      LineMarks(content, line, end);
      MarksConcat(content, LineSpans(line), AllSpans(LinesFrom(content, end)), at, end, |content|);
      assert LinesFrom(content, at)[1..] == LinesFrom(content, end);
    } else {
      NoMarks(content, at, |content|);
    }
  }

  lemma LineMarks(content: string, line: Line, end: nat)
    requires line.start <= end <= |content| && line.text <= content[line.start..end]
    ensures Marks(content, LineSpans(line), line.start, end)
  {
    hide Parse, Marks;
    assert content[line.start..line.start + |line.text|] == line.text;
    var comment := Parse(line.text);
    NoMarks(content, line.start, end);
    if comment.Some? {
      if comment.value.blanket {
        BlanketIsEmpty(line.text);
      } else {
        var entries := comment.value.entries;
        IdSpansMark(content, line, |entries|);
        var used := if |entries| == 0 then 0 else entries[|entries| - 1].span.end;
        assert entries[..|entries|] == entries;
        NoMarks(content, line.start + used, end);
        MarksConcat(content, LineSpans(line), [], line.start, line.start + used, end);
        assert LineSpans(line) + [] == LineSpans(line);
      }
    }
  }

  lemma BlanketIsEmpty(line: string)
    ensures Parse(line).Some? && Parse(line).value.blanket ==> Parse(line).value.entries == []
  {
    hide Find, Entries, Depth;
  }
}
