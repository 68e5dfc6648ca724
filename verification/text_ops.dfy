/** Trimming, of all Unicode white space, and the case of ASCII letters. */
module TextOps {

  function LowerChar(c: char): char {
    if 'A' <= c <= 'Z' then c - 'A' + 'a' else c
  }

  const UPPER := "ABCDEFGHIJKLMNOPQRSTUVWXYZ"
  const LOWER := "abcdefghijklmnopqrstuvwxyz"
  const DIGITS := "0123456789"

  lemma LetterAt(i: nat)
    requires i < 26
    ensures |UPPER| == |LOWER| == 26 && UPPER[i] == 'A' + i as char && LOWER[i] == 'a' + i as char
  {
  }

  lemma UpperIff(c: char)
    ensures c in UPPER <==> 'A' <= c <= 'Z'
  {
    if 'A' <= c <= 'Z' {
      LetterAt(c as nat - 'A' as nat);
    }
    if c in UPPER {
      var i :| 0 <= i < |UPPER| && UPPER[i] == c;
      LetterAt(i);
    }
  }

  lemma LowerIff(c: char)
    ensures c in LOWER <==> 'a' <= c <= 'z'
  {
    if 'a' <= c <= 'z' {
      LetterAt(c as nat - 'a' as nat);
    }
    if c in LOWER {
      var i :| 0 <= i < |LOWER| && LOWER[i] == c;
      LetterAt(i);
    }
  }

  lemma DigitIff(c: char)
    ensures c in DIGITS <==> '0' <= c <= '9'
  {
    if '0' <= c <= '9' {
      var i := c as nat - '0' as nat;
      assert DIGITS[i] == '0' + i as char == c;
    }
  }

  /** The 26 letters, and nothing else, are changed. */
  lemma LowerCharIs(c: char, i: nat)
    requires i < 26
    ensures |UPPER| == |LOWER| == 26 && LowerChar(UPPER[i]) == LOWER[i]
    ensures c !in UPPER ==> LowerChar(c) == c
  {
    LetterAt(i);
    UpperIff(c);
  }

  function Lower(s: string): (r: string)
    ensures |r| == |s| && forall k :: 0 <= k < |r| ==> r[k] == LowerChar(s[k])
  {
    seq(|s|, k requires 0 <= k < |s| => LowerChar(s[k]))
  }

  /** The characters with the Unicode property White_Space. */
  predicate IsSpace(c: char) {
    || '\U{0009}' <= c <= '\U{000D}' || c == ' ' || c == '\U{0085}' || c == '\U{00A0}' || c == '\U{1680}'
    || '\U{2000}' <= c <= '\U{200A}' || c == '\U{2028}' || c == '\U{2029}' || c == '\U{202F}'
    || c == '\U{205F}' || c == '\U{3000}'
  }

  ghost predicate Trimmed(s: string) {
    s != [] ==> !IsSpace(s[0]) && !IsSpace(s[|s| - 1])
  }

  function TrimStart(s: string): (r: string)
    ensures |r| <= |s|
    ensures r != [] ==> !IsSpace(r[0])
    ensures r != [] ==> s != [] && r[|r| - 1] == s[|s| - 1]
    ensures s != [] && !IsSpace(s[0]) ==> r == s
  {
    if s != [] && IsSpace(s[0]) then TrimStart(s[1..]) else s
  }

  function TrimEnd(s: string): (r: string)
    ensures r <= s
    ensures r != [] ==> !IsSpace(r[|r| - 1])
    ensures s != [] && !IsSpace(s[|s| - 1]) ==> r == s
  {
    if s != [] && IsSpace(s[|s| - 1]) then TrimEnd(s[..|s| - 1]) else s
  }

  function Trim(s: string): (r: string)
    ensures Trimmed(r)
    ensures Trimmed(s) ==> r == s
  {
    TrimEnd(TrimStart(s))
  }

  /** Only spaces are taken off the front. */
  lemma {:induction false} TrimStartDrops(s: string)
    ensures s[|s| - |TrimStart(s)|..] == TrimStart(s)
    ensures forall k :: 0 <= k < |s| - |TrimStart(s)| ==> IsSpace(s[k])
  {
    if s != [] && IsSpace(s[0]) {
      var rest, n := s[1..], |s| - |TrimStart(s)|;
      TrimStartDrops(rest);
      assert TrimStart(s) == TrimStart(rest);
      hide TrimStart, IsSpace;
      assert s[n..] == rest[n - 1..];
      forall k | 0 <= k < n ensures IsSpace(s[k]) {
        assert k > 0 ==> s[k] == rest[k - 1];
      }
    }
  }

  /** Only spaces are taken off the end. */
  lemma {:induction false} TrimEndDrops(s: string)
    ensures forall k :: |TrimEnd(s)| <= k < |s| ==> IsSpace(s[k])
  {
    if s != [] && IsSpace(s[|s| - 1]) {
      TrimEndDrops(s[..|s| - 1]);
    }
  }

  /** Trimming the end stops at the last character that is no space. */
  lemma {:induction false} TrimEndBehind(a: string, rest: string)
    requires a != "" && !IsSpace(a[|a| - 1])
    ensures TrimEnd(a + rest) == a + TrimEnd(rest)
  {
    if rest != "" && IsSpace(rest[|rest| - 1]) {
      assert (a + rest)[..|a + rest| - 1] == a + rest[..|rest| - 1];
      TrimEndBehind(a, rest[..|rest| - 1]);
    }
  }

  lemma TrimKeepsFirst(s: string)
    requires s != "" && !IsSpace(s[0])
    ensures Trim(s) == TrimEnd(s) != "" && Trim(s)[0] == s[0]
  {
    assert s == [s[0]] + s[1..];
    TrimEndBehind([s[0]], s[1..]);
  }

  lemma Within(s: string, rest: string, front: string, m: nat)
    requires m <= |s| && s[m..] == rest && front <= rest
    ensures s[m..m + |front|] == front
  {
  }

  /** What is trimmed off is white space, and all of it at either end. */
  lemma TrimIs(s: string) returns (m: nat, n: nat)
    ensures m <= n <= |s| && s[m..n] == Trim(s)
    ensures forall k :: 0 <= k < m ==> IsSpace(s[k])
    ensures forall k :: n <= k < |s| ==> IsSpace(s[k])
  {
    var rest := TrimStart(s);
    m, n := |s| - |rest|, |s| - |rest| + |Trim(s)|;
    TrimStartDrops(s);
    TrimEndDrops(rest);
    assert Trim(s) <= rest && forall k :: |Trim(s)| <= k < |rest| ==> IsSpace(rest[k]);
    hide *;
    Within(s, rest, Trim(s), m);
    SpacesBehind(s, rest, m, |Trim(s)|);
  }

  lemma SpacesBehind(s: string, rest: string, m: nat, n: nat)
    requires m <= |s| && s[m..] == rest && n <= |rest| && forall k :: n <= k < |rest| ==> IsSpace(rest[k])
    ensures forall k :: m + n <= k < |s| ==> IsSpace(s[k])
  {
    hide IsSpace;
    forall k | m + n <= k < |s| ensures IsSpace(s[k]) {
      assert s[k] == rest[k - m];
    }
  }
}
