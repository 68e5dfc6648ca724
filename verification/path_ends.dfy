/** The ends of path text, and the parts a relative path is made of. */
module PathEnds {
  import opened FrameworkPaths
  import opened PathText
  import opened TextOps

  predicate EndsIn(s: string, c: char) {
    s != "" && s[|s| - 1] == c
  }

  function Tail(slash: bool): string {
    if slash then "/" else ""
  }

  ghost predicate OnlyNames(p: Path) {
    forall k :: 0 <= k < |p| ==> p[k].Normal?
  }

  lemma {:induction false} LastChar(p: Path)
    requires Shaped(p) && !Absolute(p) && p != []
    ensures WithSlashes(p) != "" && Text(p[|p| - 1]) != ""
    ensures WithSlashes(p)[|WithSlashes(p)| - 1] == Text(p[|p| - 1])[|Text(p[|p| - 1])| - 1] != '/'
  {
    ReadText(p[|p| - 1], |p| == 1);
    if |p| > 1 {
      LastChar(p[1..]);
      var rest := WithSlashes(p[1..]);
      assert WithSlashes(p) == Text(p[0]) + "/" + rest;
      hide WithSlashes;
      assert WithSlashes(p)[|WithSlashes(p)| - 1] == rest[|rest| - 1];
    } else {
      assert Text(p[0])[|Text(p[0])| - 1] in Text(p[0]);
    }
  }

  predicate EndsInSpace(c: Component) {
    c.Normal? && c.name != "" && IsSpace(c.name[|c.name| - 1])
  }

  predicate StartsInSpace(c: Component) {
    c.Normal? && c.name != "" && IsSpace(c.name[0])
  }

  lemma ComponentEnds(c: Component)
    requires c.Normal? ==> GoodName(c.name)
    requires c.Normal? || c.ParentDir? || c.CurDir?
    ensures Text(c) != "" && (IsSpace(Text(c)[0]) <==> StartsInSpace(c))
    ensures IsSpace(Text(c)[|Text(c)| - 1]) <==> EndsInSpace(c)
  {
  }

  lemma LastOf(a: string, b: string)
    requires b != ""
    ensures a + b != "" && (a + b)[|a + b| - 1] == b[|b| - 1]
  {
  }

  lemma TailEnds(s: string, slash: bool)
    requires s != ""
    ensures var text := s + Tail(slash);
            text != "" && text[0] == s[0] && text[|text| - 1] == if slash then '/' else s[|s| - 1]
    ensures !IsSpace('/')
  {
    if slash {
      LastOf(s, "/");
    } else {
      assert s + "" == s;
    }
  }

  /** A relative path's text starts as its first component does and ends as its last one does. */
  lemma TextEnds(p: Path, slash: bool)
    requires Shaped(p) && !Absolute(p) && p != []
    ensures var text := WithSlashes(p) + Tail(slash);
            && text != "" && Text(p[0]) != "" && text[0] == Text(p[0])[0] != '/'
            && (IsSpace(text[0]) <==> StartsInSpace(p[0]))
            && (IsSpace(text[|text| - 1]) <==> !slash && EndsInSpace(p[|p| - 1]))
    ensures !EndsIn(WithSlashes(p), '/')
  {
    hide WithSlashes, Text, StartsInSpace, EndsInSpace, IsSpace, GoodName, Tail;
    LastChar(p);
    FirstIsNoSlash(p);
    ComponentEnds(p[0]);
    ComponentEnds(p[|p| - 1]);
    TailEnds(WithSlashes(p), slash);
  }

  /** What lies behind the start of a plain path is names. */
  lemma NamesFrom(p: Path, k: nat)
    requires Plain(p) && GoodNames(p) && k <= |p| && (k > 0 || !Absolute(p))
    ensures OnlyNames(p[k..]) && GoodNames(p[k..]) && Shaped(p[k..]) && !Absolute(p[k..])
  {
  }

  /** The parts of a relative path: up from `fileDir` to what is common, then down. */
  lemma RelativeParts(fileDir: Path, target: Path)
    requires Plain(target) && GoodNames(target) && Relative(fileDir, target).Some?
    ensures var f := Normalize(fileDir);
            var n := CommonLength(f, target);
            var up, down, p := Parents(|f| - n), target[n..], Relative(fileDir, target).value;
            && p == (if up + down == [] then [CurDir] else up + down)
            && p != [] && Shaped(p) && !Absolute(p)
            && OnlyNames(down) && GoodNames(down) && Shaped(down) && !Absolute(down)
            && (n > 0 || !Absolute(f))
  {
    NormalizePlain(target);
    hide Normalize, CommonLength, Plain, Shaped;
    var f := Normalize(fileDir);
    var n := CommonLength(f, target);
    NamesFrom(target, n);
    UpDownShape(Parents(|f| - n), target[n..]);
  }

  lemma UpDownShape(up: Path, down: Path)
    requires forall k :: 0 <= k < |up| ==> up[k] == ParentDir
    requires GoodNames(down) && OnlyNames(down)
    ensures Shaped(up + down) && !Absolute(up + down) && Shaped([CurDir])
  {
    hide GoodName;
    forall k | 0 <= k < |up + down|
      ensures (up + down)[k] == ParentDir || (k >= |up| && (up + down)[k] == down[k - |up|])
    {
    }
  }

  /** How far two paths go together, when one is at the front of the other and when not. */
  lemma CommonOfPrefix(f: Path, target: Path)
    ensures var n := CommonLength(f, target);
            && (target <= f <==> n == |target|) && (f <= target <==> n == |f|)
            && target == f[..n] + target[n..]
  {
    hide CommonLength;
    var n := CommonLength(f, target);
    assert n == |target| ==> target[..n] == target;
    assert n == |f| ==> f[..n] == f;
    assert target == target[..n] + target[n..];
  }

  lemma {:induction false} WithSlashesConcat(p: Path, q: Path)
    requires p != [] && q != []
    ensures WithSlashes(p + q) == WithSlashes(p) + "/" + WithSlashes(q)
    decreases |p|
  {
    var c := p[0];
    assert p + q == [c] + (p[1..] + q) && (p + q)[1..] == p[1..] + q;
    if |p| > 1 {
      WithSlashesConcat(p[1..], q);
      hide WithSlashes;
      UnfoldSlashes(p);
      UnfoldSlashes(p + q);
    } else {
      assert p[1..] + q == q;
    }
  }

  lemma UnfoldSlashes(p: Path)
    requires |p| > 1
    ensures WithSlashes(p) == Text(p[0]) + "/" + WithSlashes(p[1..])
  {
  }

  lemma SlashesAssoc(a: string, b: string, c: string)
    ensures a + "/" + b + "/" + c == a + "/" + (b + "/" + c)
  {
  }

  lemma ReadOne(c: Component, rest: string, first: bool)
    requires c.Normal? ==> GoodName(c.name)
    requires c.Normal? || c.ParentDir? || (first && c.CurDir?)
    ensures ReadAll(Pieces(Text(c) + "/" + rest), first) == [c] + ReadAll(Pieces(rest), false)
  {
    ReadText(c, first);
    hide Pieces, ReadAll, Read, Text;
    PiecesOfFirst(Text(c), rest);
    ReadCons(Text(c), Pieces(rest), first);
  }

  /** Reading text behind a path's own. */
  lemma {:induction false} ReadOn(p: Path, rest: string, first: bool)
    requires Shaped(p) && !Absolute(p) && p != [] && (first || !p[0].CurDir?)
    ensures ReadAll(Pieces(WithSlashes(p) + "/" + rest), first) == p + ReadAll(Pieces(rest), false)
    decreases |p|
  {
    hide Pieces, ReadAll, Text, WithSlashes;
    if |p| == 1 {
      OneText(p);
      ReadOne(p[0], rest, first);
    } else {
      var below := p[1..];
      UnfoldSlashes(p);
      SlashesAssoc(Text(p[0]), WithSlashes(below), rest);
      ReadOne(p[0], WithSlashes(below) + "/" + rest, first);
      ReadOn(below, rest, false);
      Front(p, ReadAll(Pieces(rest), false));
    }
  }

  lemma OneText(p: Path)
    requires |p| == 1
    ensures WithSlashes(p) == Text(p[0]) && p == [p[0]]
  {
  }

  lemma Front(p: Path, rest: Path)
    requires p != []
    ensures [p[0]] + (p[1..] + rest) == p + rest
  {
  }

  lemma ComponentsUp(n: nat, rest: string)
    requires n > 0
    ensures WithSlashes(Parents(n)) != "" && WithSlashes(Parents(n))[0] == '.'
    ensures Components(WithSlashes(Parents(n)) + "/" + rest) == Parents(n) + ReadAll(Pieces(rest), false)
  {
    ReadOn(Parents(n), rest, true);
    assert Text(Parents(n)[0]) == "..";
    hide Pieces, ReadAll;
    assert (WithSlashes(Parents(n)) + "/" + rest)[0] == '.';
  }
}
