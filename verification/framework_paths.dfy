/**
 * Paths by component, on a system whose separator is `/`: normalizing, one path relative to
 * another, and the text a path is written as.
 */
module FrameworkPaths {
  import opened Wrappers

  datatype Component = RootDir | CurDir | ParentDir | Normal(name: string)

  type Path = seq<Component>

  predicate Absolute(p: Path) {
    p != [] && p[0] == RootDir
  }

  /** Nothing but names, after a root at most. */
  ghost predicate Plain(p: Path) {
    forall k :: 0 <= k < |p| ==> p[k].Normal? || (k == 0 && p[k] == RootDir)
  }

  function Join(p: Path, q: Path): Path {
    if Absolute(q) then q else p + q
  }

  // ── Normalizing ───────────────────────────────────────────────────────

  /** `PathBuf::pop`: the root and the empty path stay as they are. */
  function Pop(p: Path): Path {
    if p == [] || p == [RootDir] then p else p[..|p| - 1]
  }

  function Take(before: Path, c: Component): Path {
    match c
    case CurDir => before
    case ParentDir => Pop(before)
    case RootDir => [RootDir]
    case Normal(_) => before + [c]
  }

  function NormalizeFrom(before: Path, p: Path): Path {
    if p == [] then before else Take(NormalizeFrom(before, p[..|p| - 1]), p[|p| - 1])
  }

  function Normalize(p: Path): Path {
    NormalizeFrom([], p)
  }

  method NormalizePath(path: Path) returns (normalized: Path)
    ensures normalized == Normalize(path)
  {
    normalized := [];
    for i := 0 to |path|
      invariant normalized == Normalize(path[..i])
    {
      assert path[..i + 1][..i] == path[..i];
      match path[i]
      case CurDir =>
      case ParentDir => normalized := Pop(normalized);
      case RootDir => normalized := [RootDir];
      case Normal(_) => normalized := normalized + [path[i]];
    }
    assert path[..|path|] == path;
  }

  lemma {:induction false} NormalizeConcat(before: Path, p: Path, q: Path)
    ensures NormalizeFrom(before, p + q) == NormalizeFrom(NormalizeFrom(before, p), q)
  {
    if q == [] {
      assert p + q == p;
    } else {
      NormalizeConcat(before, p, q[..|q| - 1]);
      assert (p + q)[..|p + q| - 1] == p + q[..|q| - 1];
    }
  }

  lemma {:induction false} NormalizedIsPlain(before: Path, p: Path)
    requires Plain(before)
    ensures Plain(NormalizeFrom(before, p))
    ensures |NormalizeFrom(before, p)| <= |before| + |p|
    ensures Absolute(before) ==> Absolute(NormalizeFrom(before, p))
  {
    if p != [] {
      NormalizedIsPlain(before, p[..|p| - 1]);
    }
  }

  lemma {:induction false} TakeNames(before: Path, names: Path)
    requires forall k :: 0 <= k < |names| ==> names[k].Normal?
    ensures NormalizeFrom(before, names) == before + names
  {
    if names != [] {
      TakeNames(before, names[..|names| - 1]);
      assert names == names[..|names| - 1] + [names[|names| - 1]];
    }
  }

  /** Normalizing a second time changes nothing. */
  lemma NormalizePlain(p: Path)
    requires Plain(p)
    ensures Normalize(p) == p
  {
    if Absolute(p) {
      assert p == [RootDir] + p[1..];
      NormalizeConcat([], [RootDir], p[1..]);
      assert [RootDir][..0] == [];
      TakeNames([RootDir], p[1..]);
    } else {
      TakeNames([], p);
    }
  }

  /**
   * With `NormalizePlain`, these laws leave no choice: `.` counts for nothing, `..` takes back
   * the name in front of it and is lost where there is none, and a root starts anew.
   */
  lemma NormalizeLaws(p: Path, name: string, q: Path)
    ensures Normalize(p + [CurDir] + q) == Normalize(p + q)
    ensures Normalize(p + [Normal(name), ParentDir] + q) == Normalize(p + q)
    ensures Normalize([ParentDir] + q) == Normalize(q)
    ensures Normalize([RootDir, ParentDir] + q) == Normalize([RootDir] + q)
    ensures Normalize(p + [RootDir] + q) == Normalize([RootDir] + q)
  {
    var before := Normalize(p);
    One(before, CurDir);
    Same(p, [CurDir], p, q);
    Two(before, Normal(name), ParentDir);
    Same(p, [Normal(name), ParentDir], p, q);
    One([], ParentDir);
    Same([], [ParentDir], [], q);
    assert [] + [ParentDir] + q == [ParentDir] + q && [] + q == q;
    One([], RootDir);
    Two([], RootDir, ParentDir);
    Same([], [RootDir, ParentDir], [RootDir], q);
    assert [] + [RootDir, ParentDir] + q == [RootDir, ParentDir] + q;
    One(before, RootDir);
    Same(p, [RootDir], [RootDir], q);
  }

  /** What leads to the same place may be written for it. */
  lemma Same(p: Path, more: Path, short: Path, q: Path)
    requires NormalizeFrom(Normalize(p), more) == Normalize(short)
    ensures Normalize(p + more + q) == Normalize(short + q)
  {
    NormalizeConcat([], p, more);
    NormalizeConcat([], p + more, q);
    NormalizeConcat([], short, q);
  }

  lemma One(before: Path, c: Component)
    ensures NormalizeFrom(before, [c]) == Take(before, c)
  {
    assert [c][..0] == [];
  }

  lemma Two(before: Path, c: Component, d: Component)
    ensures NormalizeFrom(before, [c, d]) == Take(Take(before, c), d)
  {
    One(before, c);
    assert [c, d][..1] == [c];
  }

  // ── One path relative to another ──────────────────────────────────────

  function CommonLength(a: Path, b: Path): (n: nat)
    ensures n <= |a| && n <= |b| && a[..n] == b[..n]
    ensures n < |a| && n < |b| ==> a[n] != b[n]
  {
    if a == [] || b == [] || a[0] != b[0] then 0
    else
      var n := CommonLength(a[1..], b[1..]);
      assert a[..n + 1] == [a[0]] + a[1..][..n] && b[..n + 1] == [b[0]] + b[1..][..n];
      n + 1
  }

  function Parents(n: nat): (p: Path)
    ensures |p| == n && forall k :: 0 <= k < n ==> p[k] == ParentDir
  {
    seq(n, _ => ParentDir)
  }

  /** Up from `from` to what the two have in common, then down to `target`. */
  function Relative(from: Path, target: Path): Option<Path> {
    var f, t := Normalize(from), Normalize(target);
    var common := CommonLength(f, t);
    if common == 0 && (Absolute(f) || Absolute(t)) then None
    else
      var p := Parents(|f| - common) + t[common..];
      Some(if p == [] then [CurDir] else p)
  }

  method RelativePath(fromDir: Path, target: Path) returns (r: Option<Path>)
    ensures r == Relative(fromDir, target)
  {
    hide Normalize, CommonLength;
    var f := NormalizePath(fromDir);
    var t := NormalizePath(target);
    var common := 0;
    while common < |f| && common < |t| && f[common] == t[common]
      invariant common <= |f| && common <= |t| && f[..common] == t[..common]
    {
      common := common + 1;
    }
    CommonIs(f, t, common);
    if common == 0 && (Absolute(f) || Absolute(t)) {
      return None;
    }
    NamesBehind(fromDir, common);
    var relative := UpAndDown(f, t, common);
    if relative == [] {
      relative := [CurDir];
    }
    r := Some(relative);
  }

  /** The two loops that build the relative path. */
  method UpAndDown(f: Path, t: Path, common: nat) returns (relative: Path)
    requires common <= |f| && common <= |t| && forall i :: common <= i < |f| ==> f[i].Normal?
    ensures relative == Parents(|f| - common) + t[common..]
  {
    relative := [];
    for i := common to |f|
      invariant relative == Parents(i - common)
    {
      if f[i].Normal? {
        relative := relative + [ParentDir];
      }
    }
    ghost var up := relative;
    for i := common to |t|
      invariant relative == up + t[common..i]
    {
      relative := relative + [t[i]];
      assert t[common..i + 1] == t[common..i] + [t[i]];
    }
    assert t[common..|t|] == t[common..];
  }

  lemma NamesBehind(p: Path, n: nat)
    requires n > 0 || !Absolute(Normalize(p))
    ensures forall i :: n <= i < |Normalize(p)| ==> Normalize(p)[i].Normal?
  {
    NormalizedIsPlain([], p);
    hide NormalizeFrom;
  }

  lemma {:induction false} CommonIs(a: Path, b: Path, n: nat)
    requires n <= |a| && n <= |b| && a[..n] == b[..n]
    requires n < |a| && n < |b| ==> a[n] != b[n]
    ensures CommonLength(a, b) == n
  {
    if n > 0 {
      assert a[0] == a[..n][0] && b[0] == b[..n][0];
      assert a[1..][..n - 1] == a[..n][1..] && b[1..][..n - 1] == b[..n][1..];
      CommonIs(a[1..], b[1..], n - 1);
    }
  }

  lemma NormalizedOnlyNames(p: Path)
    ensures Normalize(p) != [] && !Absolute(Normalize(p)) ==> Normalize(p)[0].Normal?
  {
    NormalizedIsPlain([], p);
    hide NormalizeFrom;
  }

  /** There is a relative path exactly when both paths are absolute or neither is. */
  lemma RelativeSomeIff(from: Path, target: Path)
    ensures Relative(from, target).Some? <==> (Absolute(Normalize(from)) <==> Absolute(Normalize(target)))
  {
    hide Normalize;
    var f, t := Normalize(from), Normalize(target);
    if CommonLength(f, t) > 0 {
      assert f[..CommonLength(f, t)][0] == f[0] && t[..CommonLength(f, t)][0] == t[0];
    }
    NormalizedOnlyNames(from);
    NormalizedOnlyNames(target);
  }

  lemma {:induction false} PopNames(p: Path, k: nat)
    requires k <= |p| && forall i :: |p| - k <= i < |p| ==> p[i].Normal?
    ensures NormalizeFrom(p, Parents(k)) == p[..|p| - k]
  {
    if k > 0 {
      PopNames(p, k - 1);
      assert Parents(k)[..k - 1] == Parents(k - 1);
      var left := p[..|p| - (k - 1)];
      assert left[|left| - 1] == p[|p| - k] && left[..|left| - 1] == p[..|p| - k];
    }
  }

  /** Following the relative path from where it starts leads to the target. */
  lemma RelativeLeadsBack(from: Path, target: Path)
    requires Relative(from, target).Some?
    ensures Normalize(Join(from, Relative(from, target).value)) == Normalize(target)
  {
    hide NormalizeFrom, CommonLength, Plain;
    var f, t := Normalize(from), Normalize(target);
    var common := CommonLength(f, t);
    NamesBehind(from, common);
    NamesBehind(target, common);
    if Parents(|f| - common) + t[common..] == [] {
      SamePlace(f, t, common);
    } else {
      DownFrom(f, t, common);
    }
    var relative := Relative(from, target).value;
    assert !Absolute(relative);
    NormalizeConcat([], from, relative);
  }

  lemma DownFrom(f: Path, t: Path, common: nat)
    requires common <= |f| && common <= |t| && f[..common] == t[..common]
    requires forall i :: common <= i < |f| ==> f[i].Normal?
    requires forall i :: common <= i < |t| ==> t[i].Normal?
    ensures NormalizeFrom(f, Parents(|f| - common) + t[common..]) == t
  {
    hide NormalizeFrom, Parents;
    var up, down := Parents(|f| - common), t[common..];
    calc {
      NormalizeFrom(f, up + down);
      { NormalizeConcat(f, up, down); }
      NormalizeFrom(NormalizeFrom(f, up), down);
      { PopNames(f, |f| - common); }
      NormalizeFrom(f[..common], down);
      { TakeNames(f[..common], down); }
      f[..common] + down;
      t;
    }
  }

  lemma SamePlace(f: Path, t: Path, common: nat)
    requires common <= |f| && common <= |t| && f[..common] == t[..common]
    requires Parents(|f| - common) + t[common..] == []
    ensures NormalizeFrom(f, [CurDir]) == t
  {
    assert |f| == common == |t|;
    assert f[..common] == f && t[..common] == t;
    assert [CurDir][..0] == [];
  }
}
