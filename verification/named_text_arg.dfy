/** Telling a `name: value` argument from a bare one in argument text. */
module NamedTextArg {
  import opened TextOps
  import opened Wrappers

  predicate IsNameStart(c: char) {
    'a' <= c <= 'z' || 'A' <= c <= 'Z' || c == '_'
  }

  predicate IsNameChar(c: char) {
    IsNameStart(c) || '0' <= c <= '9'
  }

  ghost predicate IsName(s: string) {
    s != [] && IsNameStart(s[0]) && forall k :: 0 <= k < |s| ==> IsNameChar(s[k])
  }

  /** The first index from `i` on that is no name character. */
  function NameEnd(s: string, i: nat): (r: nat)
    requires i <= |s|
    ensures i <= r <= |s| && forall k :: i <= k < r ==> IsNameChar(s[k])
    ensures r < |s| ==> !IsNameChar(s[r])
    decreases |s| - i
  {
    if i < |s| && IsNameChar(s[i]) then NameEnd(s, i + 1) else i
  }

  function BlanksEnd(s: string, i: nat): (r: nat)
    requires i <= |s|
    ensures i <= r <= |s| && forall k :: i <= k < r ==> s[k] == ' '
    ensures r < |s| ==> s[r] != ' '
    decreases |s| - i
  {
    if i < |s| && s[i] == ' ' then BlanksEnd(s, i + 1) else i
  }

  datatype TextArg = TextArg(name: Option<string>, value: string)

  function Split(arg: string): TextArg {
    var text := Trim(arg);
    if text == [] || !IsNameStart(text[0]) then TextArg(None, text)
    else
      var end := NameEnd(text, 1);
      var colon := BlanksEnd(text, end);
      if colon < |text| && text[colon] == ':' && (colon + 1 >= |text| || text[colon + 1] != ':') then
        TextArg(Some(text[..end]), Trim(text[colon + 1..]))
      else TextArg(None, text)
  }

  method SplitNamedTextArg(arg: string) returns (r: TextArg)
    ensures r == Split(arg)
  {
    hide Trim, IsNameStart, IsNameChar;
    var text := Trim(arg);
    var i := 0;
    if i < |text| && IsNameStart(text[i]) {
      i := i + 1;
      while i < |text| && IsNameChar(text[i])
        invariant 1 <= i <= |text| && NameEnd(text, 1) == NameEnd(text, i)
      {
        i := i + 1;
      }
      var nameEnd := i;
      while i < |text| && text[i] == ' '
        invariant nameEnd <= i <= |text| && BlanksEnd(text, nameEnd) == BlanksEnd(text, i)
      {
        i := i + 1;
      }
      if i < |text| && text[i] == ':' && (i + 1 >= |text| || text[i + 1] != ':') {
        return TextArg(Some(text[..nameEnd]), Trim(text[i + 1..]));
      }
    }
    r := TextArg(None, text);
  }

  /** How an argument of a combined partial application is written out again. */
  function Written(arg: TextArg): string {
    if arg.name.Some? then arg.name.value + ": " + arg.value else arg.value
  }

  lemma NameEndAt(s: string, name: string, i: nat)
    requires name <= s && i <= |name| && forall k :: i <= k < |name| ==> IsNameChar(name[k])
    requires |name| < |s| && !IsNameChar(s[|name|])
    ensures NameEnd(s, i) == |name|
  {
    assert forall k :: i <= k < |name| ==> s[k] == name[k] && IsNameChar(s[k]);
    assert !(NameEnd(s, i) < |name|);
  }

  lemma TrimWritten(name: string, value: string)
    requires IsName(name) && Trimmed(value)
    ensures Trim(name + ": " + value) == if value == [] then name + ":" else name + ": " + value
  {
    var written := name + ": " + value;
    assert written[0] == name[0];
    assert TrimStart(written) == written;
    if value == [] {
      assert written[..|written| - 1] == name + ":" && IsSpace(written[|written| - 1]);
      assert TrimEnd(written) == TrimEnd(name + ":") == name + ":";
    } else {
      assert written[|written| - 1] == value[|value| - 1];
    }
  }

  /** What `Split` finds in trimmed text that starts with a name and a colon. */
  lemma SplitNamed(arg: string, name: string, rest: string)
    requires IsName(name) && Trim(arg) == name + ":" + rest && (rest != [] ==> rest[0] != ':')
    ensures Split(arg) == TextArg(Some(name), Trim(rest))
  {
    var text, n := name + ":" + rest, |name|;
    assert text[..n] == name && text[0] == name[0] && text[n] == ':' && text[n + 1..] == rest;
    NameEndAt(text, name, 1);
    hide Trim, NameEnd, IsNameStart, IsNameChar;
    assert BlanksEnd(text, n) == n;
    assert rest != [] ==> text[n + 1] == rest[0];
  }

  lemma TrimBlank(value: string)
    requires Trimmed(value)
    ensures Trim([' '] + value) == value
  {
    assert ([' '] + value)[1..] == value;
    assert TrimStart([' '] + value) == TrimStart(value);
  }

  lemma NamedRereads(name: string, value: string)
    requires IsName(name) && Trimmed(value)
    ensures Split(name + ": " + value) == TextArg(Some(name), value)
  {
    TrimWritten(name, value);
    hide Trim, Split, IsName;
    if value == [] {
      assert name + ":" + [] == name + ":";
      SplitNamed(name + ": " + value, name, []);
      assert Trimmed([]);
    } else {
      assert name + ": " + value == name + ":" + ([' '] + value);
      SplitNamed(name + ": " + value, name, [' '] + value);
      TrimBlank(value);
    }
  }

  lemma SplitShape(arg: string)
    ensures Split(arg).name.Some? ==> IsName(Split(arg).name.value)
    ensures Split(arg).name.None? ==> Split(arg).value == Trim(arg)
    ensures Trimmed(Split(arg).value)
  {
  }

  /** Writing a split argument out and splitting it again changes nothing. */
  lemma SplitRereads(arg: string)
    ensures Split(Written(Split(arg))) == Split(arg)
  {
    SplitShape(arg);
    var split := Split(arg);
    if split.name.Some? {
      NamedRereads(split.name.value, split.value);
    }
  }

  // ── When a name is found ──────────────────────────────────────────────

  /** The characters a name may start with, and those that may follow. */
  lemma NameCharsAre(c: char)
    ensures IsNameStart(c) <==> c in LOWER || c in UPPER || c == '_'
    ensures IsNameChar(c) <==> c in LOWER || c in UPPER || c in DIGITS || c == '_'
  {
    LowerIff(c);
    UpperIff(c);
    DigitIff(c);
    hide LOWER, UPPER, DIGITS;
  }

  /** `text` is a name, spaces or none, one colon that is not half of `::`, and `rest`. */
  ghost predicate Labelled(text: string, name: string, spaces: string, rest: string) {
    && text == name + spaces + ":" + rest && IsName(name)
    && (forall k :: 0 <= k < |spaces| ==> spaces[k] == ' ')
    && (rest != [] ==> rest[0] != ':')
  }

  lemma LabelledSplits(arg: string, name: string, spaces: string, rest: string)
    requires Labelled(Trim(arg), name, spaces, rest)
    ensures Split(arg) == TextArg(Some(name), Trim(rest))
  {
    var text, end, colon := Trim(arg), |name|, |name| + |spaces|;
    assert text[..end] == name && text[0] == name[0] && text[colon] == ':' && text[colon + 1..] == rest;
    forall k | end <= k < colon ensures text[k] == ' ' {
      assert text[k] == spaces[k - end];
    }
    assert !IsNameChar(text[end]);
    NameEndAt(text, name, 1);
    hide Trim, NameEnd, IsNameStart, IsNameChar;
    assert !(BlanksEnd(text, end) < colon);
    assert rest != [] ==> text[colon + 1] == rest[0];
  }

  lemma LabelParts(text: string, end: nat, colon: nat)
    requires end <= colon < |text| && text[colon] == ':'
    ensures text == text[..end] + text[end..colon] + ":" + text[colon + 1..]
  {
  }

  lemma SplitFacts(arg: string) returns (end: nat, colon: nat)
    requires Split(arg).name.Some?
    ensures end <= colon < |Trim(arg)| && Trim(arg)[colon] == ':'
    ensures forall k :: end <= k < colon ==> Trim(arg)[k] == ' '
    ensures colon + 1 < |Trim(arg)| ==> Trim(arg)[colon + 1] != ':'
    ensures Split(arg) == TextArg(Some(Trim(arg)[..end]), Trim(Trim(arg)[colon + 1..]))
  {
    hide Trim, IsNameStart, IsNameChar;
    end := NameEnd(Trim(arg), 1);
    colon := BlanksEnd(Trim(arg), end);
  }

  lemma SplitLabelled(arg: string) returns (spaces: string, rest: string)
    requires Split(arg).name.Some?
    ensures Labelled(Trim(arg), Split(arg).name.value, spaces, rest) && Split(arg).value == Trim(rest)
  {
    SplitShape(arg);
    hide Split, Trim, IsName;
    var text := Trim(arg);
    var end, colon := SplitFacts(arg);
    spaces, rest := text[end..colon], text[colon + 1..];
    LabelParts(text, end, colon);
  }

  /** A name is found exactly where the argument is labelled with it; `Foo::class` and `a ? b : c` are not. */
  lemma NamedIff(arg: string, name: string, value: string)
    ensures Split(arg) == TextArg(Some(name), value) <==>
              exists spaces, rest :: Labelled(Trim(arg), name, spaces, rest) && value == Trim(rest)
    ensures Split(arg) == TextArg(None, value) <==>
              value == Trim(arg) && forall other, spaces, rest :: !Labelled(Trim(arg), other, spaces, rest)
  {
    SplitShape(arg);
    hide Split, Labelled, Trim;
    if Split(arg).name.Some? {
      var spaces, rest := SplitLabelled(arg);
    }
    forall other, spaces, rest | Labelled(Trim(arg), other, spaces, rest)
      ensures Split(arg) == TextArg(Some(other), Trim(rest))
    {
      LabelledSplits(arg, other, spaces, rest);
    }
  }
}
