/**
 * Rewriting a resource path in a framework's configuration when a directory it lies in is
 * renamed: the value written back must lead to the moved target, in the spelling it had.
 */
module DirectoryRenames {
  import opened FrameworkPaths
  import opened PathChars
  import opened PathEnds
  import opened PathText
  import opened TextOps
  import opened Wrappers

  /** What stands for the workspace root in a value. */
  const MARKER: string := "%kernel.project_dir%"

  lemma MarkerIs()
    ensures MARKER == "%kernel.project_dir%"
    ensures MARKER != "" && MARKER[0] == '%' && MARKER[|MARKER| - 1] == '%' && '/' !in MARKER && !IsSpace('%')
  {
  }

  datatype Rename = Rename(from: Path, to: Path)

  function Resolve(value: string, fileDir: Path, root: Option<Path>): Option<Path> {
    var text := Trim(value);
    if text == "" then None
    else if root.Some? && MARKER <= text then
      Some(Normalize(Join(root.value, Components(StripSlashes(text[|MARKER|..])))))
    else if text[0] == '/' then Some(Normalize(Components(text)))
    else Some(Normalize(Join(fileDir, Components(text))))
  }

  function Spelled(original: string, fileDir: Path, root: Option<Path>, target: Path): Option<string> {
    if MARKER <= Trim(original) then
      if root.None? || !(root.value <= target) then None
      else if root.value == target then Some(MARKER)
      else Some(MARKER + "/" + Render(target[|root.value|..]))
    else if Trim(original) != "" && Trim(original)[0] == '/' then Some(Render(target))
    else
      var relative := Relative(fileDir, target);
      if relative.None? then None else Some(Render(relative.value))
  }

  /** The target written in the original's spelling, with a slash at the end if the original had one. */
  function Format(original: string, fileDir: Path, root: Option<Path>, target: Path): Option<string> {
    var text := Spelled(original, fileDir, root, target);
    if text.Some? && (EndsIn(original, '/') || EndsIn(original, '\\')) && !EndsIn(text.value, '/') then
      Some(text.value + "/")
    else
      text
  }

  /** The first rename of a directory that `resolved` lies in. */
  function FirstRename(resolved: Path, renames: seq<Rename>): (r: Option<nat>)
    ensures r.Some? ==> r.value < |renames| && renames[r.value].from <= resolved
    ensures forall k :: 0 <= k < (if r.Some? then r.value else |renames|) ==> !(renames[k].from <= resolved)
  {
    if renames == [] then None
    else if renames[0].from <= resolved then Some(0)
    else
      var r := FirstRename(resolved, renames[1..]);
      assert forall k :: 1 <= k < |renames| ==> renames[k] == renames[1..][k - 1];
      if r.Some? then Some(r.value + 1) else None
  }

  function Moved(resolved: Path, rename: Rename): Path
    requires rename.from <= resolved
  {
    Normalize(Join(rename.to, resolved[|rename.from|..]))
  }

  function Rewritten(value: string, fileDir: Path, root: Option<Path>, renames: seq<Rename>): Option<string> {
    var resolved := Resolve(value, fileDir, root);
    if resolved.None? then None
    else
      var k := FirstRename(resolved.value, renames);
      if k.None? then None else Format(value, fileDir, root, Moved(resolved.value, renames[k.value]))
  }

  method RewriteForRenames(value: string, fileDir: Path, root: Option<Path>, renames: seq<Rename>)
    returns (r: Option<string>)
    ensures r == Rewritten(value, fileDir, root, renames)
  {
    hide Resolve, Format, Moved;
    var resolved := Resolve(value, fileDir, root);
    if resolved.None? {
      return None;
    }
    ghost var first := FirstRename(resolved.value, renames);
    for i := 0 to |renames|
      invariant first.Some? ==> i <= first.value
    {
      if renames[i].from <= resolved.value {
        return Format(value, fileDir, root, Moved(resolved.value, renames[i]));
      }
    }
    r := None;
  }

  // ── The target ────────────────────────────────────────────────────────

  /** What moved keeps its place below the renamed directory. */
  lemma MovedKeepsSuffix(resolved: Path, rename: Rename)
    requires rename.from <= resolved && rename.from != [] && Plain(resolved)
    ensures Moved(resolved, rename) == Normalize(rename.to) + resolved[|rename.from|..]
    ensures Plain(Moved(resolved, rename))
  {
    var suffix := resolved[|rename.from|..];
    assert forall k :: 0 <= k < |suffix| ==> suffix[k].Normal?;
    NormalizeConcat([], rename.to, suffix);
    TakeNames(Normalize(rename.to), suffix);
    NormalizedIsPlain([], rename.to);
    NormalizedIsPlain([], rename.to + suffix);
  }

  lemma ResolvedIsPlain(value: string, fileDir: Path, root: Option<Path>)
    requires Resolve(value, fileDir, root).Some?
    ensures Plain(Resolve(value, fileDir, root).value)
  {
    hide Components, Trim, NormalizeFrom, StripSlashes;
    var text := Trim(value);
    if root.Some? && MARKER <= text {
      NormalizedIsPlain([], Join(root.value, Components(StripSlashes(text[|MARKER|..]))));
    } else {
      NormalizedIsPlain([], Components(text));
      NormalizedIsPlain([], Join(fileDir, Components(text)));
    }
  }

  // ── Writing back ──────────────────────────────────────────────────────

  predicate EndsInSlash(s: string) {
    EndsIn(s, '/') || EndsIn(s, '\\')
  }

  lemma FormatIs(original: string, fileDir: Path, root: Option<Path>, target: Path, spelled: string)
    requires Spelled(original, fileDir, root, target) == Some(spelled)
    ensures Format(original, fileDir, root, target)
         == Some(spelled + Tail(EndsInSlash(original) && !EndsIn(spelled, '/')))
  {
    hide Spelled;
    assert spelled + "" == spelled;
  }

  lemma BlankResolvesToNone(value: string, fileDir: Path, root: Option<Path>)
    ensures Resolve(value, fileDir, root).None? <==> Trim(value) == ""
  {
  }

  /** When nothing is written back. */
  lemma RewrittenNoneIff(value: string, fileDir: Path, root: Option<Path>, renames: seq<Rename>)
    ensures Rewritten(value, fileDir, root, renames).None? <==>
            || Trim(value) == ""
            || (forall k :: 0 <= k < |renames| ==> !(renames[k].from <= Resolve(value, fileDir, root).value))
            || (var resolved := Resolve(value, fileDir, root).value;
                var target := Moved(resolved, renames[FirstRename(resolved, renames).value]);
                if MARKER <= Trim(value) then root.None? || !(root.value <= target)
                else Trim(value)[0] != '/' && (Absolute(Normalize(fileDir)) <==> !Absolute(Normalize(target))))
  {
    hide Resolve, Moved, Format, Normalize, Trim;
    BlankResolvesToNone(value, fileDir, root);
    if Trim(value) != "" {
      var resolved := Resolve(value, fileDir, root).value;
      var k := FirstRename(resolved, renames);
      if k.Some? {
        FormatNoneIff(value, fileDir, root, Moved(resolved, renames[k.value]));
      }
    }
  }

  lemma FormatNoneIff(value: string, fileDir: Path, root: Option<Path>, target: Path)
    requires Trim(value) != ""
    ensures Format(value, fileDir, root, target).None? <==>
            if MARKER <= Trim(value) then root.None? || !(root.value <= target)
            else Trim(value)[0] != '/' && (Absolute(Normalize(fileDir)) <==> !Absolute(Normalize(target)))
  {
    hide Relative, Normalize, Render, Trim;
    RelativeSomeIff(fileDir, target);
  }
}
