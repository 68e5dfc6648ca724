/**
 * Which values rewritten for a directory rename lead to the moved target: an exact condition
 * on the inputs for each of the three spellings.
 */
module RenamedValues {
  import opened DirectoryRenames
  import opened FrameworkPaths
  import opened PathChars
  import opened PathEnds
  import opened PathText
  import opened TextOps
  import opened Wrappers

  predicate StartsWith(c: Component, s: string) {
    c.Normal? && s <= c.name
  }

  /** No space stands at the end, where it will be trimmed. */
  predicate EndKept(original: string, target: Path) {
    EndsInSlash(original) || target == [] || !EndsInSpace(target[|target| - 1])
  }

  lemma PlainShaped(p: Path)
    requires Plain(p) && GoodNames(p)
    ensures Shaped(p)
  {
  }

  // ── The absolute spelling ─────────────────────────────────────────────

  lemma AbsoluteText(target: Path, slash: bool)
    requires Shaped(target) && Absolute(target) && (|target| == 1 ==> !slash)
    ensures var text := Render(target) + Tail(slash);
            text != "" && text[0] == '/' && (Trimmed(text) <==> slash || !EndsInSpace(target[|target| - 1]))
    ensures EndsIn(Render(target), '/') <==> |target| == 1
  {
    hide WithSlashes, Shaped, EndsInSpace, Text, IsSpace;
    TailEnds("/", false);
    if |target| > 1 {
      var below := target[1..];
      BelowRootShaped(target);
      TextEnds(below, slash);
      assert Render(target) == "/" + WithSlashes(below);
      assert Render(target) + Tail(slash) == "/" + (WithSlashes(below) + Tail(slash));
      LastOf("/", WithSlashes(below) + Tail(slash));
      LastOf("/", WithSlashes(below));
    } else {
      RootText(target);
    }
  }

  lemma BelowRootShaped(p: Path)
    requires Shaped(p) && Absolute(p) && |p| > 1
    ensures Shaped(p[1..]) && !Absolute(p[1..]) && p[1..][|p| - 2] == p[|p| - 1]
  {
  }

  lemma RootText(p: Path)
    requires Absolute(p) && |p| == 1
    ensures Render(p) == "/" && !EndsInSpace(p[0])
  {
    assert WithSlashes(p[1..]) == "";
  }

  lemma AbsoluteChars(target: Path, slash: bool)
    requires Plain(target) && GoodNames(target) && Absolute(target)
    ensures NonSlashes(Render(target) + Tail(slash)) == Chars(target)
  {
    var below := target[1..];
    NamesFrom(target, 1);
    NamesText(below, slash);
    assert target == [RootDir] + below && [RootDir][..0] == [];
    CharsConcat([RootDir], below);
    hide WithSlashes, Chars, NonSlashes, GoodNames, OnlyNames;
    var rest := WithSlashes(below) + Tail(slash);
    assert Render(target) + Tail(slash) == "/" + rest;
    SlashIsNone(rest);
    assert Chars([RootDir]) == 0 by {
      OneRoot();
    }
  }

  lemma SlashIsNone(rest: string)
    ensures NonSlashes("/" + rest) == NonSlashes(rest)
  {
    assert ("/" + rest)[1..] == rest;
  }

  lemma OneRoot()
    ensures Chars([RootDir]) == 0
  {
    assert [RootDir][..0] == [];
  }

  lemma ResolveAbsolute(text: string, fileDir: Path, root: Option<Path>)
    requires text != "" && text[0] == '/'
    ensures Resolve(text, fileDir, root) == Some(Normalize(Components(Trim(text))))
  {
    TrimKeepsFirst(text);
    hide Normalize, Components, Trim;
  }

  /** The absolute spelling leads to the target if and only if no space at its end is trimmed. */
  lemma AbsoluteResolvesIff(original: string, fileDir: Path, root: Option<Path>, target: Path)
    requires Plain(target) && GoodNames(target) && Absolute(target)
    requires !(MARKER <= Trim(original)) && Trim(original) != "" && Trim(original)[0] == '/'
    ensures Format(original, fileDir, root, target).Some?
    ensures Resolve(Format(original, fileDir, root, target).value, fileDir, root) == Some(target)
       <==> EndKept(original, target)
  {
    assert Spelled(original, fileDir, root, target) == Some(Render(target)) by {
      hide Trim, Render;
    }
    hide Format, Spelled, Resolve, Components, Normalize, Render, Trim, Plain, Shaped, GoodNames, EndsInSpace;
    PlainShaped(target);
    AbsoluteText(target, false);
    var slash := EndsInSlash(original) && !EndsIn(Render(target), '/');
    var text := Render(target) + Tail(slash);
    AbsoluteText(target, slash);
    FormatIs(original, fileDir, root, target, Render(target));
    ResolveAbsolute(text, fileDir, root);
    if Trimmed(text) {
      ComponentsOfRender(target, slash);
      NormalizePlain(target);
    } else {
      AbsoluteChars(target, slash);
      TrimChars(text);
      ComponentsChars(Trim(text));
      NormalizeAddsNoChars([], Components(Trim(text)));
    }
  }

  // ── The spelling from the workspace root ──────────────────────────────

  /** Besides, a backslash behind the marker's slash is taken for another slash. */
  predicate MarkedReadable(original: string, root: Path, target: Path)
    requires root <= target
  {
    root == target || (EndKept(original, target) && !StartsWith(target[|root|], "\\"))
  }

  lemma StripBackslash(s: string)
    requires s != "" && s[0] == '\\'
    ensures NonSlashes(StripSlashes(s)) < NonSlashes(s)
  {
    StripSlashesChars(s[1..]);
  }

  /** What trimming or the marker's slashes take is missing from the rest. */
  lemma RestLosesChars(rest: string)
    requires rest != "" && (IsSpace(rest[|rest| - 1]) || rest[0] == '\\')
    ensures NonSlashes(StripSlashes(TrimEnd(rest))) < NonSlashes(rest)
  {
    TrimEndChars(rest);
    StripSlashesChars(TrimEnd(rest));
    if rest[0] == '\\' && !IsSpace(rest[|rest| - 1]) {
      StripBackslash(rest);
    }
  }

  lemma Behind(m: string, rest: string)
    ensures m <= m + rest && (m + rest)[|m|..] == rest
  {
  }

  /** Trimming what stands behind `m` and a slash. */
  lemma TrimBehind(m: string, rest: string)
    requires m != "" && !IsSpace(m[0])
    ensures Trim(m + "/" + rest) == m + "/" + TrimEnd(rest) != ""
    ensures (m + "/" + rest)[|m|..] == "/" + rest && m <= m + "/" + rest
  {
    hide Trim, TrimEnd, IsSpace;
    TailEnds(m, true);
    assert Tail(true) == "/";
    TrimKeepsFirst(m + "/" + rest);
    TrimEndBehind(m + "/", rest);
    Behind(m, "/" + rest);
    assert m + "/" + rest == m + ("/" + rest);
  }

  lemma ResolveMarked(text: string, fileDir: Path, root: Path, rest: string)
    requires text == MARKER + "/" + rest
    ensures Resolve(text, fileDir, Some(root))
         == Some(Normalize(Join(root, Components(StripSlashes(TrimEnd(rest))))))
  {
    MarkerIs();
    TrimBehind(MARKER, rest);
    TrimBehind(MARKER, TrimEnd(rest));
    hide Normalize, Components, TrimEnd, Trim, Join, MARKER;
    StripFirstSlash(TrimEnd(rest));
  }

  lemma StripFirstSlash(rest: string)
    ensures StripSlashes("/" + rest) == StripSlashes(rest)
  {
    assert ("/" + rest)[1..] == rest;
  }

  lemma ResolveMarker(text: string, fileDir: Path, root: Path, slash: bool)
    requires Plain(root) && text == MARKER + Tail(slash)
    ensures Resolve(text, fileDir, Some(root)) == Some(root)
  {
    hide MARKER, Normalize, Components, Trim;
    MarkerIs();
    TailEnds(MARKER, slash);
    assert Trim(text) == text;
    Behind(MARKER, Tail(slash));
    StripFirstSlash("");
    assert "/" + "" == "/";
    assert StripSlashes(Tail(slash)) == "";
    hide StripSlashes, Tail;
    NothingReadsBack();
    NormalizePlain(root);
    assert root + [] == root;
  }

  lemma RootAlone(original: string, fileDir: Path, root: Path)
    requires Plain(root) && MARKER <= Trim(original)
    ensures Format(original, fileDir, Some(root), root).Some?
    ensures Resolve(Format(original, fileDir, Some(root), root).value, fileDir, Some(root)) == Some(root)
  {
    hide MARKER, Resolve, Trim, Render, Relative;
    MarkerIs();
    FormatIs(original, fileDir, Some(root), root, MARKER);
    ResolveMarker(MARKER + Tail(EndsInSlash(original)), fileDir, root, EndsInSlash(original));
  }

  /** What stands behind the marker and a slash reads as the path below the root, or as too little. */
  lemma MarkedRest(below: Path, slash: bool, rest: string)
    requires Shaped(below) && OnlyNames(below) && below != [] && rest == WithSlashes(below) + Tail(slash)
    ensures (slash || !EndsInSpace(below[|below| - 1])) && !StartsWith(below[0], "\\") ==>
              Components(StripSlashes(TrimEnd(rest))) == below
    ensures !((slash || !EndsInSpace(below[|below| - 1])) && !StartsWith(below[0], "\\")) ==>
              Chars(Components(StripSlashes(TrimEnd(rest)))) < Chars(below)
  {
    TextEnds(below, slash);
    BackslashFirst(below[0]);
    hide WithSlashes, Shaped, GoodNames, Components, EndsInSpace, Chars, NonSlashes, Text, StartsWith, StripSlashes;
    if !IsSpace(rest[|rest| - 1]) && rest[0] != '\\' {
      StripFirst(rest);
      ComponentsOfRender(below, slash);
      assert Render(below) == WithSlashes(below);
    } else {
      RestLosesChars(rest);
      ComponentsChars(StripSlashes(TrimEnd(rest)));
      NamesText(below, slash);
    }
  }

  lemma BackslashFirst(c: Component)
    requires c.Normal? && GoodName(c.name)
    ensures Text(c) != "" && (StartsWith(c, "\\") <==> Text(c)[0] == '\\')
  {
  }

  /** The spelling from the root leads to the target if and only if no space and no backslash is taken off. */
  lemma MarkedResolvesIff(original: string, fileDir: Path, root: Path, target: Path)
    requires Plain(target) && GoodNames(target) && Absolute(root) && root <= target
    requires MARKER <= Trim(original)
    ensures Format(original, fileDir, Some(root), target).Some?
    ensures Resolve(Format(original, fileDir, Some(root), target).value, fileDir, Some(root)) == Some(target)
       <==> MarkedReadable(original, root, target)
  {
    if root == target {
      RootAlone(original, fileDir, root);
    } else {
      BelowRoot(original, fileDir, root, target);
    }
  }

  lemma BelowRoot(original: string, fileDir: Path, root: Path, target: Path)
    requires Plain(target) && GoodNames(target) && Absolute(root) && root < target
    requires MARKER <= Trim(original)
    ensures Format(original, fileDir, Some(root), target).Some?
    ensures Resolve(Format(original, fileDir, Some(root), target).value, fileDir, Some(root)) == Some(target)
       <==> MarkedReadable(original, root, target)
  {
    hide MARKER, Trim, Components, StripSlashes, TrimEnd, Chars, Text, WithSlashes, Normalize, EndsInSpace;
    var below, slash := target[|root|..], EndsInSlash(original);
    NamesFrom(target, |root|);
    TextEnds(below, false);
    hide Plain, Shaped, GoodNames;
    SpelledBelow(original, fileDir, root, target, below);
    hide Spelled, Format, Resolve;
    var spelled, rest := MARKER + "/" + WithSlashes(below), WithSlashes(below) + Tail(slash);
    LastOf(MARKER + "/", WithSlashes(below));
    FormatIs(original, fileDir, Some(root), target, spelled);
    assert spelled + Tail(slash) == MARKER + "/" + rest;
    ResolveMarked(spelled + Tail(slash), fileDir, root, rest);
    MarkedRest(below, slash, rest);
    ReadBelow(root, below, rest);
    assert target == root + below && below[|below| - 1] == target[|target| - 1] && below[0] == target[|root|];
  }

  lemma SpelledBelow(original: string, fileDir: Path, root: Path, target: Path, below: Path)
    requires MARKER <= Trim(original) && root < target && below == target[|root|..] && !Absolute(below)
    ensures Spelled(original, fileDir, Some(root), target) == Some(MARKER + "/" + WithSlashes(below))
  {
    hide MARKER, Trim, WithSlashes, Relative;
  }

  /** Reading what is behind the marker leads below the root as far as it reads as the path there. */
  lemma ReadBelow(root: Path, below: Path, rest: string)
    requires Plain(root + below) && !Absolute(below)
    ensures var read := Components(StripSlashes(TrimEnd(rest)));
            && (read == below ==> Normalize(Join(root, read)) == root + below)
            && (Chars(read) < Chars(below) ==> Normalize(Join(root, read)) != root + below)
  {
    hide Components, StripSlashes, TrimEnd, Chars, Normalize;
    var read := Components(StripSlashes(TrimEnd(rest)));
    if read == below {
      NormalizePlain(root + below);
    } else if Chars(read) < Chars(below) {
      StripSlashesChars(TrimEnd(rest));
      FewerChars(root, root, below, StripSlashes(TrimEnd(rest)));
    }
  }

  // ── The relative spelling ─────────────────────────────────────────────

  /**
   * Going only down, the first name must not start in a space or like the marker. A value
   * that does not go down ends in dots.
   */
  predicate RelativeReadable(original: string, fileDir: Path, root: Option<Path>, target: Path) {
    var f := Normalize(fileDir);
    && (target <= f || EndKept(original, target))
    && (f < target ==> !StartsInSpace(target[|f|]) && !(root.Some? && StartsWith(target[|f|], MARKER)))
  }

  predicate InWorkspace(fileDir: Path, root: Option<Path>) {
    root.Some? ==> root.value <= Normalize(fileDir)
  }

  /** Text of names with `m` in front has it in front of the first name. */
  lemma {:induction false} FirstHolds(m: string, p: Path, tail: string)
    requires '/' !in m && Shaped(p) && OnlyNames(p) && p != [] && (tail == "" || tail[0] == '/')
    ensures m <= WithSlashes(p) + tail <==> StartsWith(p[0], m)
  {
    if |p| == 1 {
      FrontHolds(m, Text(p[0]), tail);
    } else {
      var rest := "/" + (WithSlashes(p[1..]) + tail);
      assert WithSlashes(p) + tail == Text(p[0]) + rest;
      FrontHolds(m, Text(p[0]), rest);
    }
  }

  lemma FrontHolds(m: string, a: string, rest: string)
    requires '/' !in m && (rest == "" || rest[0] == '/')
    ensures m <= a + rest <==> m <= a
  {
    if |a| < |m| {
      assert m[|a|] in m;
    }
  }

  lemma ResolveRelative(text: string, fileDir: Path, root: Option<Path>)
    requires text != "" && text[0] != '/' && Trimmed(text) && !(root.Some? && MARKER <= text)
    ensures Resolve(text, fileDir, root) == Some(Normalize(Join(fileDir, Components(text))))
  {
    hide Normalize, Components, Trim, Join;
    assert Trim(text) == text;
  }

  /** Text that is read whole leads to the target. */
  lemma RelativeReads(text: string, fileDir: Path, root: Option<Path>, target: Path, slash: bool)
    requires Plain(target) && GoodNames(target) && Relative(fileDir, target).Some?
    requires text == WithSlashes(Relative(fileDir, target).value) + Tail(slash)
    requires Trimmed(text) && !(root.Some? && MARKER <= text)
    ensures Resolve(text, fileDir, root) == Some(target)
  {
    hide MARKER, Resolve, Relative, Normalize, Components, WithSlashes, GoodNames, Shaped, Plain;
    var p := Relative(fileDir, target).value;
    RelativeParts(fileDir, target);
    TextEnds(p, slash);
    ResolveRelative(text, fileDir, root);
    assert Render(p) == WithSlashes(p);
    ComponentsOfRender(p, slash);
    RelativeLeadsBack(fileDir, target);
    NormalizePlain(target);
  }

  /** Text that only goes down and loses characters does not lead as far down. */
  lemma DownMisread(text: string, fileDir: Path, root: Option<Path>, p: Path)
    requires InWorkspace(fileDir, root)
    requires NonSlashes(text) == Chars(p) && (!Trimmed(text) || (root.Some? && MARKER <= text))
    ensures Resolve(text, fileDir, root) != Some(Normalize(fileDir) + p)
  {
    hide MARKER, Chars, NonSlashes, Trim, StripSlashes, Components, Normalize;
    TrimChars(text);
    var s, f := Trim(text), Normalize(fileDir);
    if s != "" {
      if root.Some? && MARKER <= s {
        var rest := StripSlashes(s[|MARKER|..]);
        MarkerLosesChars(s);
        FewerChars(root.value, f, p, rest);
      } else if s[0] == '/' {
        AbsoluteFewer(s, f, p);
      } else {
        RelativeFewer(s, fileDir, p);
      }
    }
  }

  lemma MarkerLosesChars(s: string)
    requires MARKER <= s
    ensures Chars(Components(StripSlashes(s[|MARKER|..]))) < NonSlashes(s)
    ensures StripSlashes(s[|MARKER|..]) != "" ==> StripSlashes(s[|MARKER|..])[0] != '/'
  {
    MarkerIs();
    hide MARKER, Chars, NonSlashes, StripSlashes, Components;
    var behind := s[|MARKER|..];
    assert s == MARKER + behind;
    NonSlashesConcat(MARKER, behind);
    NonSlashesOfName(MARKER);
    StripSlashesChars(behind);
    ComponentsChars(StripSlashes(behind));
  }

  lemma AbsoluteFewer(s: string, f: Path, p: Path)
    requires NonSlashes(s) < Chars(p)
    ensures Normalize(Components(s)) != f + p
  {
    hide Chars, NonSlashes, Components, NormalizeFrom;
    ComponentsChars(s);
    NormalizeAddsNoChars([], Components(s));
    NoChars();
    CharsConcat(f, p);
  }

  lemma NoChars()
    ensures Chars([]) == 0
  {
  }

  lemma RelativeFewer(s: string, fileDir: Path, p: Path)
    requires s != "" && s[0] != '/' && NonSlashes(s) < Chars(p)
    ensures Normalize(Join(fileDir, Components(s))) != Normalize(fileDir) + p
  {
    hide Chars, NonSlashes, Components, NormalizeFrom;
    ComponentsChars(s);
    NotAbsolute(s);
    NormalizeConcat([], fileDir, Components(s));
    NormalizeAddsNoChars(Normalize(fileDir), Components(s));
    CharsConcat(Normalize(fileDir), p);
  }

  /** Text that goes up `n` times and loses a space at its end does not lead as far down. */
  lemma UpMisread(text: string, fileDir: Path, root: Option<Path>, n: nat, down: Path)
    requires n > 0 && n <= |Normalize(fileDir)| && down != [] && OnlyNames(down) && GoodNames(down)
    requires forall i :: |Normalize(fileDir)| - n <= i < |Normalize(fileDir)| ==> Normalize(fileDir)[i].Normal?
    requires text == WithSlashes(Parents(n)) + "/" + WithSlashes(down)
    requires text[|text| - 1] != '/' && IsSpace(text[|text| - 1])
    ensures Resolve(text, fileDir, root) != Some(Normalize(fileDir)[..|Normalize(fileDir)| - n] + down)
  {
    hide MARKER, Chars, NonSlashes, Trim, TrimEnd, Components, NormalizeFrom, WithSlashes, ReadAll, Pieces, Parents;
    var f, u, d := Normalize(fileDir), WithSlashes(Parents(n)), WithSlashes(down);
    ComponentsUp(n, TrimEnd(d));
    DotNoMarker(u, TrimEnd(d));
    TrimBehind(u, d);
    var c := ReadAll(Pieces(TrimEnd(d)), false);
    assert Resolve(text, fileDir, root) == Some(Normalize(Join(fileDir, Parents(n) + c)));
    ClimbThen(fileDir, n, c);
    assert d != "" && IsSpace(d[|d| - 1]);
    TrimEndChars(d);
    NamesText(down, false);
    assert d + "" == d;
    PiecesChars(TrimEnd(d), false);
    NormalizeAddsNoChars(f[..|f| - n], c);
    CharsConcat(f[..|f| - n], down);
  }

  lemma DotNoMarker(u: string, rest: string)
    requires u != "" && u[0] == '.'
    ensures !(MARKER <= u + "/" + rest) && (u + "/" + rest)[0] == '.' && !IsSpace('.')
  {
    MarkerIs();
    hide MARKER;
  }

  lemma ClimbThen(fileDir: Path, n: nat, c: Path)
    requires 0 < n <= |Normalize(fileDir)|
    requires forall i :: |Normalize(fileDir)| - n <= i < |Normalize(fileDir)| ==> Normalize(fileDir)[i].Normal?
    ensures Normalize(Join(fileDir, Parents(n) + c)) == NormalizeFrom(Normalize(fileDir)[..|Normalize(fileDir)| - n], c)
  {
    hide NormalizeFrom;
    assert !Absolute(Parents(n) + c);
    NormalizeConcat([], fileDir, Parents(n) + c);
    NormalizeConcat(Normalize(fileDir), Parents(n), c);
    PopNames(Normalize(fileDir), n);
  }

  /** In a file at the target or below it, the value is dots. */
  lemma DotsResolve(fileDir: Path, root: Option<Path>, target: Path, slash: bool)
    requires Plain(target) && GoodNames(target) && Relative(fileDir, target).Some? && target <= Normalize(fileDir)
    ensures Resolve(WithSlashes(Relative(fileDir, target).value) + Tail(slash), fileDir, root) == Some(target)
  {
    hide MARKER, Relative, Normalize, WithSlashes, GoodNames, Shaped, Plain, Resolve, CommonLength;
    var p, f := Relative(fileDir, target).value, Normalize(fileDir);
    var text := WithSlashes(p) + Tail(slash);
    RelativeParts(fileDir, target);
    CommonOfPrefix(f, target);
    assert target[CommonLength(f, target)..] == [];
    assert p[0] == p[|p| - 1] && (p[0] == CurDir || p[0] == ParentDir) by {
      assert Parents(|f| - CommonLength(f, target)) + [] == Parents(|f| - CommonLength(f, target));
    }
    TextEnds(p, slash);
    MarkerIs();
    assert Text(p[0])[0] == '.';
    RelativeReads(text, fileDir, root, target, slash);
  }

  lemma DownParts(fileDir: Path, target: Path)
    requires Plain(target) && GoodNames(target) && Relative(fileDir, target).Some? && Normalize(fileDir) < target
    ensures var p, f := Relative(fileDir, target).value, Normalize(fileDir);
            && p != [] && target == f + p && p[0] == target[|f|] && p[|p| - 1] == target[|target| - 1]
            && OnlyNames(p) && GoodNames(p) && Shaped(p) && !Absolute(p)
  {
    hide Relative, Normalize, GoodNames, Shaped, Plain, CommonLength, OnlyNames, Parents;
    var p, f := Relative(fileDir, target).value, Normalize(fileDir);
    BehindPrefix(f, target);
    assert p == target[|f|..] && OnlyNames(p) && GoodNames(p) && Shaped(p) && !Absolute(p) by {
      RelativeParts(fileDir, target);
      CommonIsFront(f, target);
      NothingUp(target[|f|..]);
    }
  }

  lemma CommonIsFront(f: Path, target: Path)
    requires f <= target
    ensures CommonLength(f, target) == |f|
  {
    CommonOfPrefix(f, target);
  }

  lemma NothingUp(down: Path)
    ensures Parents(0) + down == down
  {
  }

  lemma BehindPrefix(f: Path, target: Path)
    requires f < target
    ensures var p := target[|f|..];
            p != [] && target == f + p && p[0] == target[|f|] && p[|p| - 1] == target[|target| - 1]
  {
  }

  /** Text that only goes down is read whole, or has too few characters. */
  lemma DownReads(text: string, fileDir: Path, root: Option<Path>, target: Path, slash: bool)
    requires Plain(target) && GoodNames(target) && Relative(fileDir, target).Some? && Normalize(fileDir) < target
    requires text == WithSlashes(Relative(fileDir, target).value) + Tail(slash)
    ensures Trimmed(text) && !(root.Some? && MARKER <= text) ==> Resolve(text, fileDir, root) == Some(target)
    ensures InWorkspace(fileDir, root) && Resolve(text, fileDir, root) == Some(target) ==>
              Trimmed(text) && !(root.Some? && MARKER <= text)
  {
    hide MARKER, Relative, Normalize, WithSlashes, GoodNames, Shaped, Plain, Resolve, OnlyNames, IsSpace,
         NonSlashes, Chars;
    DownParts(fileDir, target);
    var p := Relative(fileDir, target).value;
    if Trimmed(text) && !(root.Some? && MARKER <= text) {
      RelativeReads(text, fileDir, root, target, slash);
    } else if InWorkspace(fileDir, root) {
      NamesText(p, slash);
      DownMisread(text, fileDir, root, p);
    }
  }

  /** The target lies below the file's directory. */
  lemma DownResolvesIff(fileDir: Path, root: Option<Path>, target: Path, slash: bool)
    requires Plain(target) && GoodNames(target) && Relative(fileDir, target).Some? && Normalize(fileDir) < target
    ensures var read := Resolve(WithSlashes(Relative(fileDir, target).value) + Tail(slash), fileDir, root);
            var kept := && (slash || !EndsInSpace(target[|target| - 1])) && !StartsInSpace(target[|Normalize(fileDir)|])
                        && !(root.Some? && StartsWith(target[|Normalize(fileDir)|], MARKER));
            (kept ==> read == Some(target)) && (InWorkspace(fileDir, root) && read == Some(target) ==> kept)
  {
    hide MARKER, Relative, Normalize, WithSlashes, GoodNames, Shaped, Plain, Resolve, OnlyNames,
         StartsInSpace, EndsInSpace, StartsWith, IsSpace, Text;
    var p := Relative(fileDir, target).value;
    DownParts(fileDir, target);
    TextEnds(p, slash);
    MarkerIs();
    FirstHolds(MARKER, p, Tail(slash));
    DownReads(WithSlashes(p) + Tail(slash), fileDir, root, target, slash);
  }

  lemma AcrossParts(fileDir: Path, target: Path)
    requires Plain(target) && GoodNames(target) && Relative(fileDir, target).Some?
    requires !(Normalize(fileDir) <= target) && !(target <= Normalize(fileDir))
    ensures var p, f := Relative(fileDir, target).value, Normalize(fileDir);
            var n := CommonLength(f, target);
            && n < |f| && n < |target| && p == Parents(|f| - n) + target[n..] && p != []
            && p[0] == ParentDir && p[|p| - 1] == target[|target| - 1] && Shaped(p) && !Absolute(p)
            && OnlyNames(target[n..]) && GoodNames(target[n..])
    ensures var f := Normalize(fileDir);
            var n := CommonLength(f, target);
            && target == f[..n] + target[n..] && f[..|f| - (|f| - n)] == f[..n]
            && forall i :: n <= i < |f| ==> f[i].Normal?
  {
    hide Normalize, GoodNames, Shaped, Plain, CommonLength, OnlyNames;
    RelativeParts(fileDir, target);
    hide Relative;
    CommonOfPrefix(Normalize(fileDir), target);
    NamesBehind(fileDir, CommonLength(Normalize(fileDir), target));
  }

  /** Neither of the file's directory and the target lies in the other. */
  lemma AcrossResolvesIff(fileDir: Path, root: Option<Path>, target: Path, slash: bool)
    requires Plain(target) && GoodNames(target) && Relative(fileDir, target).Some?
    requires !(Normalize(fileDir) <= target) && !(target <= Normalize(fileDir))
    ensures Resolve(WithSlashes(Relative(fileDir, target).value) + Tail(slash), fileDir, root) == Some(target)
       <==> slash || !EndsInSpace(target[|target| - 1])
  {
    hide MARKER, Relative, Normalize, WithSlashes, GoodNames, Shaped, Plain, Resolve, CommonLength, OnlyNames,
         StartsInSpace, EndsInSpace, IsSpace, Text, NormalizeFrom, Parents;
    var p, f := Relative(fileDir, target).value, Normalize(fileDir);
    var n := CommonLength(f, target);
    AcrossParts(fileDir, target);
    TextEnds(p, slash);
    DotsFirst(p[0]);
    MarkerIs();
    if slash || !EndsInSpace(target[|target| - 1]) {
      RelativeReads(WithSlashes(p) + Tail(slash), fileDir, root, target, slash);
    } else {
      WithSlashesConcat(Parents(|f| - n), target[n..]);
      assert WithSlashes(p) + "" == WithSlashes(p);
      UpMisread(WithSlashes(p), fileDir, root, |f| - n, target[n..]);
    }
  }

  lemma DotsFirst(c: Component)
    requires c == ParentDir
    ensures Text(c) != "" && Text(c)[0] == '.' && !StartsInSpace(c)
  {
  }

  /**
   * A rewritten relative value leads to the target if no space at its ends is trimmed and it
   * does not start like the marker; in a file of the workspace, only then.
   */
  lemma RelativeResolvesIff(original: string, fileDir: Path, root: Option<Path>, target: Path)
    requires Plain(target) && GoodNames(target)
    requires !(MARKER <= Trim(original)) && Trim(original) != "" && Trim(original)[0] != '/'
    requires Format(original, fileDir, root, target).Some?
    ensures var read := Resolve(Format(original, fileDir, root, target).value, fileDir, root);
            && (RelativeReadable(original, fileDir, root, target) ==> read == Some(target))
            && (InWorkspace(fileDir, root) && read == Some(target) ==>
                  RelativeReadable(original, fileDir, root, target))
  {
    SpelledRelative(original, fileDir, root, target);
    hide MARKER, Relative, Normalize, WithSlashes, GoodNames, Shaped, Plain, Resolve, Trim, Spelled, Format,
         StartsInSpace, EndsInSpace, StartsWith;
    RelativeParts(fileDir, target);
    var p, slash := Relative(fileDir, target).value, EndsInSlash(original);
    TextEnds(p, slash);
    FormatIs(original, fileDir, root, target, WithSlashes(p));
    if target <= Normalize(fileDir) {
      DotsResolve(fileDir, root, target, slash);
    } else if Normalize(fileDir) <= target {
      DownResolvesIff(fileDir, root, target, slash);
    } else {
      AcrossResolvesIff(fileDir, root, target, slash);
    }
  }

  lemma SpelledRelative(original: string, fileDir: Path, root: Option<Path>, target: Path)
    requires Plain(target) && GoodNames(target) && Format(original, fileDir, root, target).Some?
    requires !(MARKER <= Trim(original)) && Trim(original) != "" && Trim(original)[0] != '/'
    ensures Relative(fileDir, target).Some?
    ensures Spelled(original, fileDir, root, target) == Some(WithSlashes(Relative(fileDir, target).value))
  {
    hide MARKER, Relative, WithSlashes, GoodNames, Shaped, Plain, Trim;
    RelativeParts(fileDir, target);
  }

  // ── The rewriting as a whole ──────────────────────────────────────────

  /** The condition for the spelling that `value` has. */
  predicate Readable(value: string, fileDir: Path, root: Option<Path>, target: Path) {
    if MARKER <= Trim(value) then root.Some? && root.value <= target && MarkedReadable(value, root.value, target)
    else if Trim(value) != "" && Trim(value)[0] == '/' then EndKept(value, target)
    else RelativeReadable(value, fileDir, root, target)
  }

  lemma {:induction false} PiecesHaveNoSlash(s: string)
    ensures forall k :: 0 <= k < |Pieces(s)| ==> '/' !in Pieces(s)[k]
    decreases |s|
  {
    if Cut(s) < |s| {
      PiecesHaveNoSlash(s[Cut(s) + 1..]);
    } else {
      assert s[..Cut(s)] == s;
    }
  }

  lemma {:induction false} ReadsGoodNames(pieces: seq<string>, first: bool)
    requires forall k :: 0 <= k < |pieces| ==> '/' !in pieces[k]
    ensures GoodNames(ReadAll(pieces, first))
  {
    if pieces != [] {
      ReadsGoodNames(pieces[1..], false);
    }
  }

  lemma ComponentsAreGood(s: string)
    ensures GoodNames(Components(s))
  {
    PiecesHaveNoSlash(s);
    ReadsGoodNames(Pieces(s), true);
  }

  lemma {:induction false} NormalizeKeepsGood(before: Path, p: Path)
    requires GoodNames(before) && GoodNames(p)
    ensures GoodNames(NormalizeFrom(before, p))
  {
    if p != [] {
      NormalizeKeepsGood(before, p[..|p| - 1]);
    }
  }

  lemma ResolvedIsGood(value: string, fileDir: Path, root: Option<Path>)
    requires Resolve(value, fileDir, root).Some? && GoodNames(fileDir) && (root.Some? ==> GoodNames(root.value))
    ensures GoodNames(Resolve(value, fileDir, root).value)
  {
    hide MARKER, Components, NormalizeFrom, Trim, StripSlashes, GoodName;
    var text := Trim(value);
    if root.Some? && MARKER <= text {
      var rest := Components(StripSlashes(text[|MARKER|..]));
      ComponentsAreGood(StripSlashes(text[|MARKER|..]));
      NormalizeKeepsGood([], Join(root.value, rest));
    } else {
      ComponentsAreGood(text);
      NormalizeKeepsGood([], Components(text));
      NormalizeKeepsGood([], Join(fileDir, Components(text)));
    }
  }

  /**
   * What is written back leads to where the renamed directory took the old target if the
   * spelling can be read back; in a file of the workspace, only then.
   */
  lemma RewrittenResolvesIff(value: string, fileDir: Path, root: Option<Path>, renames: seq<Rename>)
    requires Rewritten(value, fileDir, root, renames).Some?
    requires GoodNames(fileDir)
    requires root.Some? ==> Absolute(root.value) && GoodNames(root.value)
    requires forall k :: 0 <= k < |renames| ==>
               Absolute(renames[k].from) && Absolute(Normalize(renames[k].to)) && GoodNames(renames[k].to)
    ensures var resolved := Resolve(value, fileDir, root).value;
            var rename := renames[FirstRename(resolved, renames).value];
            var target := Normalize(rename.to) + resolved[|rename.from|..];
            var read := Resolve(Rewritten(value, fileDir, root, renames).value, fileDir, root);
            && (Readable(value, fileDir, root, target) ==> read == Some(target))
            && (InWorkspace(fileDir, root) && read == Some(target) ==> Readable(value, fileDir, root, target))
  {
    var resolved := Resolve(value, fileDir, root).value;
    var rename := renames[FirstRename(resolved, renames).value];
    hide MARKER, Resolve, Normalize, FirstRename, GoodNames, Plain, Trim, Format, MarkedReadable,
         RelativeReadable, EndKept;
    MovedIsGood(value, fileDir, root, rename, resolved);
    var target := Moved(resolved, rename);
    hide Moved;
    if MARKER <= Trim(value) {
      MarkedHasRoot(value, fileDir, root, target);
      MarkedResolvesIff(value, fileDir, root.value, target);
    } else {
      BlankResolvesToNone(value, fileDir, root);
      if Trim(value)[0] == '/' {
        AbsoluteResolvesIff(value, fileDir, root, target);
      } else {
        RelativeResolvesIff(value, fileDir, root, target);
      }
    }
  }

  lemma MarkedHasRoot(value: string, fileDir: Path, root: Option<Path>, target: Path)
    requires MARKER <= Trim(value) && Format(value, fileDir, root, target).Some?
    ensures root.Some? && root.value <= target
  {
    hide MARKER, Trim, Render;
  }

  lemma MovedIsGood(value: string, fileDir: Path, root: Option<Path>, rename: Rename, resolved: Path)
    requires GoodNames(fileDir) && (root.Some? ==> GoodNames(root.value))
    requires Resolve(value, fileDir, root) == Some(resolved)
    requires Absolute(rename.from) && Absolute(Normalize(rename.to)) && GoodNames(rename.to) && rename.from <= resolved
    ensures var target := Moved(resolved, rename);
            && Plain(target) && GoodNames(target) && Absolute(target)
            && target == Normalize(rename.to) + resolved[|rename.from|..]
  {
    hide Resolve, NormalizeFrom, Moved, GoodName;
    ResolvedIsPlain(value, fileDir, root);
    ResolvedIsGood(value, fileDir, root);
    MovedKeepsSuffix(resolved, rename);
    NormalizeKeepsGood([], rename.to);
  }

  // ── Values that are not read back ─────────────────────────────────────

  /** A directory that is called like the marker, next to the file. */
  lemma CalledLikeMarker(fileDir: Path, target: Path)
    requires fileDir == [RootDir, Normal("app")] && target == fileDir + [Normal(MARKER)]
    ensures Format("src", fileDir, Some([RootDir]), target).Some?
    ensures Resolve(Format("src", fileDir, Some([RootDir]), target).value, fileDir, Some([RootDir])) != Some(target)
  {
    MarkerIs();
    assert Trim("src") == "src" && !(MARKER <= "src");
    assert GoodName("app") && GoodName(MARKER);
    hide MARKER, Trim;
    NormalizePlain(fileDir);
    NormalizePlain(target);
    hide Normalize, Resolve;
    RelativeSomeIff(fileDir, target);
    assert Format("src", fileDir, Some([RootDir]), target).Some? by {
      hide Relative;
    }
    hide Format;
    assert target[2] == Normal(MARKER);
    RelativeResolvesIff("src", fileDir, Some([RootDir]), target);
  }

  /** A directory whose name ends in a space, with no slash behind it. */
  lemma CalledWithSpace(fileDir: Path, root: Option<Path>, target: Path)
    requires target == [RootDir, Normal("src ")]
    ensures Format("/app", fileDir, root, target).Some?
    ensures Resolve(Format("/app", fileDir, root, target).value, fileDir, root) != Some(target)
  {
    MarkerIs();
    assert Trim("/app") == "/app" && !(MARKER <= "/app");
    assert GoodName("src ");
    AbsoluteResolvesIff("/app", fileDir, root, target);
  }

  /** A directory whose name starts with a backslash, directly below the workspace root. */
  lemma CalledWithBackslash(fileDir: Path, target: Path)
    requires target == [RootDir, Normal("\\src")]
    ensures Format(MARKER, fileDir, Some([RootDir]), target).Some?
    ensures Resolve(Format(MARKER, fileDir, Some([RootDir]), target).value, fileDir, Some([RootDir])) != Some(target)
  {
    MarkerIs();
    assert Trim(MARKER) == MARKER;
    assert GoodName("\\src");
    hide MARKER, Trim;
    MarkedResolvesIff(MARKER, fileDir, [RootDir], target);
  }
}
