/** Path text with `/` between components, and the components it reads as. */
module PathText {
  import opened FrameworkPaths

  function Cut(s: string): (i: nat)
    ensures i <= |s| && '/' !in s[..i]
    ensures i < |s| ==> s[i] == '/'
  {
    if s == [] || s[0] == '/' then 0
    else
      assert s[..Cut(s[1..]) + 1] == [s[0]] + s[1..][..Cut(s[1..])];
      Cut(s[1..]) + 1
  }

  function Pieces(s: string): seq<string>
    decreases |s|
  {
    if Cut(s) == |s| then [s] else [s[..Cut(s)]] + Pieces(s[Cut(s) + 1..])
  }

  /** Empty pieces and, except at the very front, `.` pieces count for nothing. */
  function Read(piece: string, first: bool): Path {
    if piece == "" then []
    else if piece == "." then (if first then [CurDir] else [])
    else if piece == ".." then [ParentDir]
    else [Normal(piece)]
  }

  function ReadAll(pieces: seq<string>, first: bool): Path {
    if pieces == [] then [] else Read(pieces[0], first) + ReadAll(pieces[1..], false)
  }

  function Components(s: string): Path {
    (if s != [] && s[0] == '/' then [RootDir] else []) + ReadAll(Pieces(s), true)
  }

  function Text(c: Component): string {
    match c
    case RootDir => ""
    case CurDir => "."
    case ParentDir => ".."
    case Normal(name) => name
  }

  function WithSlashes(p: Path): string {
    if p == [] then "" else if |p| == 1 then Text(p[0]) else Text(p[0]) + "/" + WithSlashes(p[1..])
  }

  function Render(p: Path): string {
    if Absolute(p) then "/" + WithSlashes(p[1..]) else WithSlashes(p)
  }

  predicate GoodName(name: string) {
    name != "" && '/' !in name && name != "." && name != ".."
  }

  /** Names are file names. */
  predicate GoodNames(p: Path) {
    forall k :: 0 <= k < |p| && p[k].Normal? ==> GoodName(p[k].name)
  }

  /** A path as components come: the root and `.` only in front. */
  ghost predicate Shaped(p: Path) {
    GoodNames(p) && forall k :: 0 < k < |p| ==> p[k].Normal? || p[k].ParentDir?
  }

  lemma {:induction false} CutAt(a: string, rest: string)
    requires '/' !in a
    ensures Cut(a + "/" + rest) == |a| && Cut(a) == |a|
  {
    if a != [] {
      CutAt(a[1..], rest);
      assert (a + "/" + rest)[1..] == a[1..] + "/" + rest;
    }
  }

  lemma PiecesOfFirst(a: string, rest: string)
    requires '/' !in a
    ensures Pieces(a + "/" + rest) == [a] + Pieces(rest)
    ensures Pieces(a) == [a]
  {
    CutAt(a, rest);
    var s := a + "/" + rest;
    assert s[..|a|] == a && s[|a| + 1..] == rest;
  }

  lemma ReadText(c: Component, first: bool)
    requires c.Normal? ==> GoodName(c.name)
    requires c.Normal? || c.ParentDir? || (first && c.CurDir?)
    ensures Read(Text(c), first) == [c] && '/' !in Text(c)
  {
  }

  lemma ReadCons(piece: string, pieces: seq<string>, first: bool)
    ensures ReadAll([piece] + pieces, first) == Read(piece, first) + ReadAll(pieces, false)
  {
    assert ([piece] + pieces)[1..] == pieces;
  }

  /** A slash at the end changes nothing. */
  lemma {:induction false} ReadBack(p: Path, slash: bool, first: bool)
    requires Shaped(p) && !Absolute(p) && p != [] && (first || !p[0].CurDir?)
    ensures ReadAll(Pieces(WithSlashes(p) + if slash then "/" else ""), first) == p
    decreases |p|
  {
    hide Pieces, ReadAll, Read, Text, Cut;
    ReadText(p[0], first);
    var a, tail := Text(p[0]), if slash then "/" else "";
    if |p| == 1 {
      assert a + "/" == a + "/" + "" && a + "" == a;
      PiecesOfFirst(a, "");
      NoPieces(false);
      ReadCons(a, [""], first);
      ReadCons(a, [], first);
      assert [a] + [] == [a];
      assert p == [p[0]];
    } else {
      var rest := WithSlashes(p[1..]) + tail;
      assert WithSlashes(p) + tail == a + "/" + rest;
      PiecesOfFirst(a, rest);
      ReadBack(p[1..], slash, false);
      ReadCons(a, Pieces(rest), first);
      assert p == [p[0]] + p[1..];
    }
  }

  lemma NoPieces(first: bool)
    ensures Pieces("") == [""] && ReadAll([""], first) == [] && ReadAll([], first) == []
  {
    assert [""][1..] == [];
  }

  /** What is written reads back as the same components, with or without a slash at the end. */
  lemma ComponentsOfRender(p: Path, slash: bool)
    requires Shaped(p) && (slash ==> p != [])
    ensures Components(Render(p) + if slash then "/" else "") == p
  {
    hide Pieces, ReadAll, WithSlashes, Shaped;
    if Absolute(p) {
      AbsoluteReadsBack(p, slash);
    } else if p == [] {
      NothingReadsBack();
    } else {
      ReadBack(p, slash, true);
      FirstIsNoSlash(p);
    }
  }

  lemma NothingReadsBack()
    ensures Components(Render([])) == [] && Render([]) + "" == Render([])
  {
    NoPieces(true);
  }

  lemma AbsoluteReadsBack(p: Path, slash: bool)
    requires Shaped(p) && Absolute(p)
    ensures Components(Render(p) + if slash then "/" else "") == p
  {
    hide Pieces, ReadAll, WithSlashes, Shaped, Components;
    BelowRootReadsBack(p, slash);
    var tail := if slash then "/" else "";
    assert Render(p) + tail == "/" + (WithSlashes(p[1..]) + tail);
    ComponentsOfSlash(WithSlashes(p[1..]) + tail);
    assert p == [RootDir] + p[1..];
  }

  lemma ComponentsOfSlash(rest: string)
    ensures Components("/" + rest) == [RootDir] + ReadAll(Pieces(rest), false)
  {
    hide Pieces, ReadAll;
    assert "" + "/" + rest == "/" + rest;
    PiecesOfFirst("", rest);
    ReadCons("", Pieces(rest), true);
  }

  lemma BelowRootReadsBack(p: Path, slash: bool)
    requires Shaped(p) && Absolute(p)
    ensures ReadAll(Pieces(WithSlashes(p[1..]) + if slash then "/" else ""), false) == p[1..]
  {
    hide Pieces, ReadAll, WithSlashes;
    if |p| == 1 {
      RootOnly(slash);
      assert p[1..] == [];
    } else {
      ReadBack(p[1..], slash, false);
    }
  }

  lemma RootOnly(slash: bool)
    ensures ReadAll(Pieces(WithSlashes([]) + if slash then "/" else ""), false) == []
  {
    NoPieces(false);
    PiecesOfFirst("", "");
    assert "" + "/" + "" == "/";
    ReadCons("", [""], false);
  }

  lemma FirstIsNoSlash(p: Path)
    requires Shaped(p) && !Absolute(p) && p != []
    ensures WithSlashes(p) != "" && WithSlashes(p)[0] == Text(p[0])[0] != '/'
  {
    ReadText(p[0], true);
    assert Text(p[0]) != "" && Text(p[0])[0] in Text(p[0]);
  }
}
