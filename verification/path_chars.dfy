/** Counting the characters of a path's names, and the ones of path text that are not slashes. */
module PathChars {
  import opened FrameworkPaths
  import opened PathEnds
  import opened PathText
  import opened TextOps

  function StripSlashes(s: string): string {
    if s != "" && (s[0] == '/' || s[0] == '\\') then StripSlashes(s[1..]) else s
  }

  lemma StripFirst(text: string)
    requires text != "" ==> text[0] != '/' && text[0] != '\\'
    ensures StripSlashes("/" + text) == text && StripSlashes(text) == text
  {
    assert ("/" + text)[1..] == text;
  }

  /** The characters of a path's names. */
  function Chars(p: Path): nat {
    if p == [] then 0 else Chars(p[..|p| - 1]) + if p[|p| - 1].Normal? then |p[|p| - 1].name| else 0
  }

  function NonSlashes(s: string): nat {
    if s == "" then 0 else (if s[0] == '/' then 0 else 1) + NonSlashes(s[1..])
  }

  lemma {:induction false} CharsConcat(p: Path, q: Path)
    ensures Chars(p + q) == Chars(p) + Chars(q)
  {
    if q == [] {
      assert p + q == p;
    } else {
      CharsConcat(p, q[..|q| - 1]);
      assert (p + q)[..|p + q| - 1] == p + q[..|q| - 1];
    }
  }

  lemma {:induction false} NonSlashesConcat(a: string, b: string)
    ensures NonSlashes(a + b) == NonSlashes(a) + NonSlashes(b)
  {
    if a == "" {
      assert a + b == b;
    } else {
      NonSlashesConcat(a[1..], b);
      assert (a + b)[1..] == a[1..] + b;
    }
  }

  lemma {:induction false} NonSlashesOfName(name: string)
    requires '/' !in name
    ensures NonSlashes(name) == |name|
  {
    if name != "" {
      assert name[0] in name;
      NonSlashesOfName(name[1..]);
    }
  }

  lemma {:induction false} NormalizeAddsNoChars(before: Path, p: Path)
    ensures Chars(NormalizeFrom(before, p)) <= Chars(before) + Chars(p)
  {
    if p != [] {
      var n, c := NormalizeFrom(before, p[..|p| - 1]), p[|p| - 1];
      NormalizeAddsNoChars(before, p[..|p| - 1]);
      assert NormalizeFrom(before, p) == Take(n, c);
      hide NormalizeFrom;
      if c.Normal? {
        CharsConcat(n, [c]);
        assert [c][..0] == [];
      } else if c.RootDir? {
        assert [RootDir][..0] == [];
      }
      assert Chars(Take(n, c)) <= Chars(n) + if c.Normal? then |c.name| else 0;
    }
  }

  lemma ReadChars(piece: string, first: bool)
    requires '/' !in piece
    ensures Chars(Read(piece, first)) <= NonSlashes(piece)
  {
    NonSlashesOfName(piece);
    assert Read(piece, first) != [] ==> Read(piece, first)[..0] == [];
  }

  /** Reading text finds no more name characters than it has besides slashes. */
  lemma {:induction false} PiecesChars(s: string, first: bool)
    ensures Chars(ReadAll(Pieces(s), first)) <= NonSlashes(s)
    decreases |s|
  {
    var i := Cut(s);
    ReadChars(s[..i], first);
    if i == |s| {
      assert s[..i] == s;
      assert [s][1..] == [];
      CharsConcat(Read(s, first), []);
    } else {
      PiecesChars(s[i + 1..], false);
      assert Pieces(s) == [s[..i]] + Pieces(s[i + 1..]);
      hide Pieces, ReadAll, Read, Chars, NonSlashes;
      NonSlashesSplit(s, i);
      ReadCons(s[..i], Pieces(s[i + 1..]), first);
      CharsConcat(Read(s[..i], first), ReadAll(Pieces(s[i + 1..]), false));
    }
  }

  lemma NonSlashesSplit(s: string, i: nat)
    requires i < |s| && s[i] == '/'
    ensures NonSlashes(s) == NonSlashes(s[..i]) + NonSlashes(s[i + 1..])
  {
    var rest := s[i + 1..];
    assert s == s[..i] + ("/" + rest) && ("/" + rest)[1..] == rest;
    NonSlashesConcat(s[..i], "/" + rest);
  }

  lemma ComponentsChars(s: string)
    ensures Chars(Components(s)) <= NonSlashes(s)
  {
    PiecesChars(s, true);
    var root: Path := if s != [] && s[0] == '/' then [RootDir] else [];
    assert root != [] ==> root[..0] == [];
    CharsConcat(root, ReadAll(Pieces(s), true));
  }

  lemma {:induction false} StripSlashesChars(s: string)
    ensures NonSlashes(StripSlashes(s)) <= NonSlashes(s)
    ensures StripSlashes(s) != "" ==> StripSlashes(s)[0] != '/'
  {
    if s != "" {
      StripSlashesChars(s[1..]);
    }
  }

  lemma {:induction false} TrimStartChars(s: string)
    ensures NonSlashes(TrimStart(s)) + |s| == NonSlashes(s) + |TrimStart(s)|
  {
    if s != "" && IsSpace(s[0]) {
      TrimStartChars(s[1..]);
    }
  }

  lemma {:induction false} TrimEndChars(s: string)
    ensures NonSlashes(TrimEnd(s)) + |s| == NonSlashes(s) + |TrimEnd(s)|
  {
    if s != "" && IsSpace(s[|s| - 1]) {
      var last := [s[|s| - 1]];
      TrimEndChars(s[..|s| - 1]);
      assert s == s[..|s| - 1] + last && last[1..] == "";
      NonSlashesConcat(s[..|s| - 1], last);
    }
  }

  /** Trimming takes only characters that count. */
  lemma TrimChars(s: string)
    ensures NonSlashes(Trim(s)) <= NonSlashes(s)
    ensures !Trimmed(s) ==> NonSlashes(Trim(s)) < NonSlashes(s)
  {
    TrimStartChars(s);
    TrimEndChars(TrimStart(s));
    hide NonSlashes;
  }

  lemma {:induction false} NamesChars(p: Path)
    requires GoodNames(p) && OnlyNames(p)
    ensures NonSlashes(WithSlashes(p)) == Chars(p)
    decreases |p|
  {
    if p != [] {
      NonSlashesOfName(p[0].name);
      assert p == [p[0]] + p[1..] && [p[0]][..0] == [];
      CharsConcat([p[0]], p[1..]);
      NamesChars(p[1..]);
      if |p| > 1 {
        var rest := WithSlashes(p[1..]);
        NonSlashesConcat(p[0].name, "/" + rest);
        assert ("/" + rest)[1..] == rest;
        assert WithSlashes(p) == p[0].name + ("/" + rest);
      }
    }
  }

  lemma NotAbsolute(rest: string)
    requires rest != "" ==> rest[0] != '/'
    ensures !Absolute(Components(rest))
  {
    hide Pieces;
    ReadNoRoot(Pieces(rest), true);
  }

  lemma {:induction false} ReadNoRoot(pieces: seq<string>, first: bool)
    ensures forall k :: 0 <= k < |ReadAll(pieces, first)| ==> ReadAll(pieces, first)[k] != RootDir
  {
    if pieces != [] {
      ReadNoRoot(pieces[1..], false);
    }
  }

  lemma NamesText(p: Path, slash: bool)
    requires GoodNames(p) && OnlyNames(p)
    ensures NonSlashes(WithSlashes(p) + Tail(slash)) == Chars(p)
  {
    assert slash ==> Tail(slash)[1..] == "";
    NonSlashesConcat(WithSlashes(p), Tail(slash));
    NamesChars(p);
  }

  /** Text with too few characters does not lead from one place to another further down. */
  lemma FewerChars(root: Path, f: Path, p: Path, rest: string)
    requires root <= f && Chars(Components(rest)) < Chars(p)
    requires rest != "" ==> rest[0] != '/'
    ensures Normalize(Join(root, Components(rest))) != f + p
  {
    NotAbsolute(rest);
    hide Components;
    NormalizeAddsNoChars([], root + Components(rest));
    CharsConcat(root, Components(rest));
    CharsConcat(f, p);
    assert f == root + f[|root|..];
    CharsConcat(root, f[|root|..]);
  }
}
