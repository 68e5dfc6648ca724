/** What an ignore comment reaches, when it names nothing, and that every identifier of a file is marked. */
module IgnoreMarks {
  import opened PhpstanIgnore
  import opened TextOps
  import opened Wrappers

  lemma IdCharsAre(c: char)
    ensures IsIdStart(c) <==> c in LOWER || c in UPPER || c in DIGITS || c == '_'
    ensures IsIdChar(c) <==> c in LOWER || c in UPPER || c in DIGITS || c in ['_', '-', '.']
  {
    LowerIff(c);
    UpperIff(c);
    DigitIff(c);
    hide LOWER, UPPER, DIGITS;
  }

  // ── One comment ───────────────────────────────────────────────────────

  /** Where the text behind the tag starts. */
  function Behind(c: Comment): nat {
    c.tagStart + 15
  }

  /** Of the forms with `-line` and `-next-line` no identifier is read: they ignore everything. */
  lemma BlanketIff(line: string)
    requires Parse(line).Some?
    ensures var c := Parse(line).value;
            && Behind(c) <= |line| && line[c.tagStart..Behind(c)] == "@phpstan-ignore"
            && (c.blanket <==> "-line" <= line[Behind(c)..] || "-next-line" <= line[Behind(c)..])
            && (c.blanket ==> c.entries == [])
  {
    hide Entries, Depth;
    var at := Behind(Parse(line).value);
    PrefixIff(line, "-line", at);
    PrefixIff(line, "-next-line", at);
  }

  lemma PrefixIff(line: string, what: string, at: nat)
    requires at <= |line|
    ensures OccursAt(line, what, at) <==> what <= line[at..]
  {
    if at + |what| <= |line| {
      assert line[at..][..|what|] == line[at..at + |what|];
    }
  }

  /** The list ends at the first closing mark, or with the line. */
  lemma RegionEndIs(line: string, base: nat)
    requires base <= |line|
    ensures var end := RegionEnd(line, base);
            && base <= end <= |line| && (end < |line| ==> "*/" <= line[end..])
            && forall j: nat :: base <= j < end ==> !OccursAt(line, "*/", j)
  {
    PrefixIff(line, "*/", RegionEnd(line, base));
  }

  /** No entry reaches past a closing mark behind the tag. */
  lemma EntriesEndBefore(line: string, k: nat, j: nat)
    requires Parse(line).Some? && !Parse(line).value.blanket && k < |Parse(line).value.entries|
    requires Behind(Parse(line).value) <= j && OccursAt(line, "*/", j)
    ensures Parse(line).value.entries[k].span.end <= j
  {
    ListHolds(line, k);
    hide Parse, OccursAt;
  }

  lemma BeforeTheMark(line: string, base: nat, i: nat)
    requires base <= i < |line| && forall j: nat :: base <= j <= i ==> !OccursAt(line, "*/", j)
    ensures i < RegionEnd(line, base)
  {
  }

  lemma ReachedIn(line: string, base: nat, region: string, i: nat)
    requires base + |region| <= |line| && region == line[base..base + |region|] && base <= i < base + |region|
    ensures IsSpace(line[i]) || line[i] == ','
            || exists e :: e in Entries(line, base, region) && e.span.start <= i < e.span.end
  {
    hide Entries, Depth, IsSpace;
    assert region[i - base] == line[i];
    var entries := Entries(line, base, region);
    if k :| 0 <= k < |entries| && entries[k].span.start <= i < entries[k].span.end {
      assert entries[k] in entries;
    } else {
      OutsideEntries(line, base, region, i - base);
    }
  }

  /** Up to the first closing mark everything is listed: what is in no entry is a space or a comma. */
  lemma EntriesReach(line: string, i: nat)
    requires Parse(line).Some? && !Parse(line).value.blanket
    requires Behind(Parse(line).value) <= i < |line|
    requires forall j: nat :: Behind(Parse(line).value) <= j <= i ==> !OccursAt(line, "*/", j)
    ensures IsSpace(line[i]) || line[i] == ','
            || exists e :: e in Parse(line).value.entries && e.span.start <= i < e.span.end
  {
    var base, region := ParsedParts(line);
    hide Parse, Entries, Depth, IsSpace, OccursAt, RegionEnd;
    BeforeTheMark(line, base, i);
    ReachedIn(line, base, region, i);
  }

  // ── A whole file ──────────────────────────────────────────────────────

  /** `content[s..e]` is a line, without its `\n` if it has one. */
  ghost predicate IsLine(content: string, s: nat, e: nat) {
    && s <= e <= |content| && s < |content|
    && (s > 0 ==> content[s - 1] == '\n')
    && (e < |content| ==> content[e] == '\n')
    && forall k :: s <= k < e ==> content[k] != '\n'
  }

  /** The line's text: a `\r` in front of the `\n` belongs to the terminator. */
  function LineText(content: string, s: nat, e: nat): string
    requires s <= e <= |content|
  {
    if s < e < |content| && content[e - 1] == '\r' then content[s..e - 1] else content[s..e]
  }

  lemma StripIs(content: string, s: nat, e: nat)
    requires IsLine(content, s, e)
    ensures RawEnd(content, s) == if e < |content| then e + 1 else e
    ensures Strip(content[s..RawEnd(content, s)]) == LineText(content, s, e)
  {
    NewlineAt(content, s, e);
    var raw := content[s..RawEnd(content, s)];
    hide RawEnd;
    if e < |content| {
      assert raw[|raw| - 1] == '\n' && raw[..|raw| - 1] == content[s..e];
      if s < e {
        assert raw[|raw| - 2] == content[e - 1] && raw[..|raw| - 2] == content[s..e - 1];
      }
    } else if s < e {
      assert raw[|raw| - 1] == content[e - 1];
    }
  }

  lemma NewlineAt(content: string, s: nat, e: nat)
    requires IsLine(content, s, e)
    ensures RawEnd(content, s) == if e < |content| then e + 1 else e
  {
    var newline := Find(content, "\n", s);
    forall k | s <= k < |content| ensures OccursAt(content, "\n", k) <==> content[k] == '\n' {
      assert content[k..k + 1] == [content[k]];
    }
    if newline.Some? {
      assert newline.value < |content|;
    }
  }

  /** Every line is read, from where it starts. */
  lemma {:induction false} LineIsRead(content: string, at: nat, s: nat, e: nat)
    requires IsLine(content, s, e) && at <= s && (at > 0 ==> content[at - 1] == '\n')
    ensures Line(s, LineText(content, s, e)) in LinesFrom(content, at)
    decreases |content| - at
  {
    hide Strip, LineText;
    if at == s {
      StripIs(content, s, e);
    } else {
      var end := RawEnd(content, at);
      EndsBeforeLine(content, at, s, e);
      LineIsRead(content, end, s, e);
    }
  }

  lemma EndsBeforeLine(content: string, at: nat, s: nat, e: nat)
    requires IsLine(content, s, e) && at < s
    ensures RawEnd(content, at) <= s && content[RawEnd(content, at) - 1] == '\n'
  {
    assert content[s - 1..s] == "\n";
    assert OccursAt(content, "\n", s - 1);
  }

  // ── Every identifier of every line is marked ──────────────────────────

  lemma {:induction false} IdIsMarked(entries: seq<Entry>, at: nat, k: nat)
    requires k < |entries| && entries[k].id.start < entries[k].id.end
    ensures Span(at + entries[k].id.start, at + entries[k].id.end) in IdSpans(entries, at)
  {
    var n := |entries| - 1;
    if k < n {
      IdIsMarked(entries[..n], at, k);
    }
  }

  lemma {:induction false} LineIsMarked(lines: seq<Line>, line: Line, span: Span)
    requires line in lines && span in LineSpans(line)
    ensures span in AllSpans(lines)
  {
    hide LineSpans;
    if lines[0] != line {
      LineIsMarked(lines[1..], line, span);
    }
  }

  /** Each entry of each line's comment has its identifier marked, if it has one. */
  lemma EveryIdIsMarked(content: string, s: nat, e: nat, k: nat)
    requires IsLine(content, s, e) && Parse(LineText(content, s, e)).Some?
    requires k < |Parse(LineText(content, s, e)).value.entries|
    requires var id := Parse(LineText(content, s, e)).value.entries[k].id; id.start < id.end
    ensures var id := Parse(LineText(content, s, e)).value.entries[k].id;
            Span(s + id.start, s + id.end) in AllSpans(LinesFrom(content, 0))
  {
    hide Parse, LineText, IdSpans, AllSpans, LinesFrom;
    var line := Line(s, LineText(content, s, e));
    LineIsRead(content, 0, s, e);
    IdIsMarked(Parse(line.text).value.entries, s, k);
    var id := Parse(line.text).value.entries[k].id;
    LineIsMarked(LinesFrom(content, 0), line, Span(s + id.start, s + id.end));
  }

  lemma {:induction false} MarkedId(entries: seq<Entry>, at: nat, span: Span) returns (k: nat)
    requires span in IdSpans(entries, at)
    ensures k < |entries| && entries[k].id.start < entries[k].id.end
    ensures span == Span(at + entries[k].id.start, at + entries[k].id.end)
  {
    var n := |entries| - 1;
    if span in IdSpans(entries[..n], at) {
      k := MarkedId(entries[..n], at, span);
    } else {
      k := n;
    }
  }

  lemma LineAt(content: string, s: nat) returns (e: nat)
    requires s < |content| && (s > 0 ==> content[s - 1] == '\n')
    ensures IsLine(content, s, e)
  {
    var newline := Find(content, "\n", s);
    e := if newline.Some? then newline.value else |content|;
    forall k | s <= k < e ensures content[k] != '\n' {
      assert content[k..k + 1] == [content[k]] && !OccursAt(content, "\n", k);
    }
  }

  /** And nothing else is marked. */
  lemma {:induction false} MarkedIsEntry(content: string, at: nat, span: Span) returns (s: nat, e: nat, k: nat)
    requires at <= |content| && (at > 0 ==> content[at - 1] == '\n')
    requires span in AllSpans(LinesFrom(content, at))
    ensures IsLine(content, s, e) && Parse(LineText(content, s, e)).Some?
    ensures k < |Parse(LineText(content, s, e)).value.entries|
    ensures var id := Parse(LineText(content, s, e)).value.entries[k].id;
            id.start < id.end && span == Span(s + id.start, s + id.end)
    decreases |content| - at
  {
    hide Parse, LineText, Strip, RawEnd, IdSpans;
    s := at;
    e := LineAt(content, s);
    StripIs(content, s, e);
    var line, rest := Line(s, LineText(content, s, e)), LinesFrom(content, RawEnd(content, s));
    assert LinesFrom(content, s) == [line] + rest;
    if span in LineSpans(line) {
      k := MarkedId(Parse(line.text).value.entries, s, span);
    } else {
      assert ([line] + rest)[1..] == rest;
      s, e, k := MarkedIsEntry(content, RawEnd(content, s), span);
    }
  }
}
