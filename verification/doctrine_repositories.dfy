/**
 * The worklist that collects every class the inheritance index records below Doctrine's
 * repository base types.
 */
module DoctrineRepositories {
  import opened TextOps

  type Index = map<string, seq<string>>

  const BASES: seq<string> := [
    "Doctrine\\Bundle\\DoctrineBundle\\Repository\\ServiceEntityRepository",
    "Doctrine\\ORM\\EntityRepository",
    "Doctrine\\Persistence\\ObjectRepository"]

  // ── What there is to find ─────────────────────────────────────────────

  predicate Child(gti: Index, parent: string, child: string) {
    parent in gti && child in gti[parent]
  }

  /** `name` is `n` steps below a base type. */
  ghost predicate Below(gti: Index, bases: seq<string>, name: string, n: nat)
    decreases n
  {
    if n == 0 then name in bases else exists parent :: Below(gti, bases, parent, n - 1) && Child(gti, parent, name)
  }

  ghost predicate Reachable(gti: Index, bases: seq<string>, name: string) {
    exists n: nat :: n > 0 && Below(gti, bases, name, n)
  }

  lemma ChildReachable(gti: Index, bases: seq<string>, parent: string, child: string)
    requires parent in bases || Reachable(gti, bases, parent)
    requires Child(gti, parent, child)
    ensures Reachable(gti, bases, child)
  {
    var n: nat :| Below(gti, bases, parent, n) by {
      if parent in bases {
        assert Below(gti, bases, parent, 0);
      }
    }
    assert Below(gti, bases, child, n + 1);
  }

  // ── What the worklist keeps ───────────────────────────────────────────

  ghost predicate AllReachable(gti: Index, bases: seq<string>, out: seq<string>) {
    forall o :: o in out ==> Reachable(gti, bases, o)
  }

  /** No two names are the same but for case. */
  ghost predicate CaseDistinct(out: seq<string>) {
    forall i, j :: 0 <= i < j < |out| ==> Lower(out[i]) != Lower(out[j])
  }

  ghost predicate Listed(names: seq<string>, seen: set<string>) {
    forall name :: name in names ==> Lower(name) in seen
  }

  /** Every child of `parent` has been seen, in some spelling. */
  ghost predicate Closed(gti: Index, seen: set<string>, parent: string) {
    parent in gti ==> Listed(gti[parent], seen)
  }

  ghost predicate SeenIs(out: seq<string>, seen: set<string>) {
    && (forall o :: o in out ==> Lower(o) in seen)
    && (forall s :: s in seen ==> exists o :: o in out && Lower(o) == s)
  }

  /** Every base and every listed name, apart from those pending or `except`, has its children listed. */
  ghost predicate Done(gti: Index, bases: seq<string>, out: seq<string>, seen: set<string>, pending: seq<string>,
                       except: set<string>)
  {
    forall p :: (p in bases || p in out) && p !in pending && p !in except ==> Closed(gti, seen, p)
  }

  ghost function Names(gti: Index): set<string> {
    set p, c | p in gti && c in gti[p] :: Lower(c)
  }

  lemma ChildName(gti: Index, parent: string, child: string)
    requires Child(gti, parent, child)
    ensures Lower(child) in Names(gti)
  {
  }

  // ── The order they are found in ───────────────────────────────────────

  function Folded(names: seq<string>): set<string> {
    set name | name in names :: Lower(name)
  }

  /** Those of `children` not seen before, each class in the first spelling it has there. */
  function Unseen(children: seq<string>, seen: set<string>): (r: seq<string>)
    ensures forall name :: name in r ==> name in children && Lower(name) !in seen
  {
    if children == [] then []
    else if Lower(children[0]) in seen then Unseen(children[1..], seen)
    else [children[0]] + Unseen(children[1..], seen + {Lower(children[0])})
  }

  function NewChildren(gti: Index, parent: string, seen: set<string>): (r: seq<string>)
    ensures forall name :: name in r ==> Child(gti, parent, name) && Lower(name) !in seen
  {
    if parent in gti then Unseen(gti[parent], seen) else []
  }

  lemma NewNames(gti: Index, parent: string, seen: set<string>)
    ensures var added := NewChildren(gti, parent, seen);
            Folded(added) <= Names(gti) - seen && (added != [] ==> Folded(added) != {})
  {
    var added := NewChildren(gti, parent, seen);
    forall s | s in Folded(added) ensures s in Names(gti) - seen {
      var name :| name in added && Lower(name) == s;
      ChildName(gti, parent, name);
    }
    if added != [] {
      assert Lower(added[0]) in Folded(added);
    }
  }

  /** What is listed from here on: parents are taken from the end, where their children go. */
  function Collect(gti: Index, pending: seq<string>, seen: set<string>): seq<string>
    decreases Names(gti) - seen, |pending|
  {
    if pending == [] then []
    else
      var rest, added := pending[..|pending| - 1], NewChildren(gti, pending[|pending| - 1], seen);
      NewNames(gti, pending[|pending| - 1], seen);
      added + Collect(gti, rest + added, seen + Folded(added))
  }

  lemma CollectNext(gti: Index, pending: seq<string>, parent: string, seen: set<string>)
    ensures var added := NewChildren(gti, parent, seen);
            Collect(gti, pending + [parent], seen) == added + Collect(gti, pending + added, seen + Folded(added))
    ensures parent !in gti ==> Collect(gti, pending + [parent], seen) == Collect(gti, pending, seen)
  {
    assert (pending + [parent])[..|pending|] == pending;
    if parent !in gti {
      assert pending + [] == pending && seen + Folded([]) == seen;
    }
  }

  // ── The program ───────────────────────────────────────────────────────

  /** What holds whenever a name has been handled; `except` is the parent whose children are being listed. */
  ghost predicate Kept(gti: Index, bases: seq<string>, out: seq<string>, seen: set<string>, pending: seq<string>,
                       except: set<string>)
  {
    && AllReachable(gti, bases, out) && CaseDistinct(out) && SeenIs(out, seen)
    && (forall p :: p in pending ==> p in bases || p in out)
    && Done(gti, bases, out, seen, pending, except)
  }

  /** Listing and queueing one more name keeps that. */
  lemma Grows(gti: Index, bases: seq<string>, out: seq<string>, seen: set<string>, pending: seq<string>,
              except: set<string>, child: string)
    requires Kept(gti, bases, out, seen, pending, except)
    requires Lower(child) !in seen && Reachable(gti, bases, child)
    ensures Kept(gti, bases, out + [child], seen + {Lower(child)}, pending + [child], except)
  {
    hide Lower, Reachable;
    var out', seen', pending' := out + [child], seen + {Lower(child)}, pending + [child];
    forall i, j | 0 <= i < j < |out'| ensures Lower(out'[i]) != Lower(out'[j]) {
      assert out'[i] == out[i] && out[i] in out;
    }
    forall s | s in seen' ensures exists o :: o in out' && Lower(o) == s {
      if s in seen {
        var o :| o in out && Lower(o) == s;
        assert o in out';
      } else {
        assert child in out';
      }
    }
    forall p | (p in bases || p in out') && p !in pending' && p !in except ensures Closed(gti, seen', p) {
      assert child in pending';
      assert Closed(gti, seen, p) by {
        assert p != child && p !in pending;
      }
    }
  }

  /** After the first `i` children, `added` have been listed. */
  ghost predicate Adding(children: seq<string>, i: nat, seen: set<string>, seen': set<string>, added: seq<string>) {
    && i <= |children| && seen' == seen + Folded(added) && Listed(children[..i], seen')
    && Unseen(children, seen) == added + Unseen(children[i..], seen')
  }

  lemma AddingStart(children: seq<string>, seen: set<string>)
    ensures Adding(children, 0, seen, seen, [])
  {
    assert Folded([]) == {} && children[0..] == children;
  }

  lemma AddingStep(children: seq<string>, i: nat, seen: set<string>, seen': set<string>, added: seq<string>)
    requires Adding(children, i, seen, seen', added) && i < |children|
    ensures Lower(children[i]) in seen' ==> Adding(children, i + 1, seen, seen', added)
    ensures Lower(children[i]) !in seen' ==>
              Adding(children, i + 1, seen, seen' + {Lower(children[i])}, added + [children[i]])
  {
    hide Lower;
    var child := children[i];
    assert children[i..][1..] == children[i + 1..];
    assert children[..i + 1] == children[..i] + [child];
    if Lower(child) !in seen' {
      assert Folded(added + [child]) == Folded(added) + {Lower(child)};
      assert added + ([child] + Unseen(children[i + 1..], seen' + {Lower(child)}))
          == added + [child] + Unseen(children[i + 1..], seen' + {Lower(child)});
    }
  }

  lemma AddingEnd(gti: Index, parent: string, seen: set<string>, seen': set<string>, added: seq<string>)
    requires parent in gti && Adding(gti[parent], |gti[parent]|, seen, seen', added)
    ensures added == NewChildren(gti, parent, seen) && seen' == seen + Folded(added) && Closed(gti, seen', parent)
  {
    assert gti[parent][|gti[parent]|..] == [] && gti[parent][..|gti[parent]|] == gti[parent];
  }

  lemma Further(a: seq<string>, b: seq<string>, c: string)
    ensures a + (b + [c]) == a + b + [c]
  {
  }

  /** The inner loop: lists and queues each child not seen before. */
  method AddChildren(gti: Index, bases: seq<string>, parent: string, out: seq<string>, seen: set<string>,
                     pending: seq<string>)
    returns (out': seq<string>, seen': set<string>, pending': seq<string>)
    requires parent in gti && (parent in bases || parent in out)
    requires Kept(gti, bases, out, seen, pending, {parent})
    ensures Kept(gti, bases, out', seen', pending', {})
    ensures var added := NewChildren(gti, parent, seen);
            out' == out + added && pending' == pending + added && seen' == seen + Folded(added)
  {
    assert parent in bases || Reachable(gti, bases, parent);
    hide Kept, Adding, Reachable, Lower, NewChildren, Unseen, Folded, Closed, BASES;
    out', seen', pending' := out, seen, pending;
    var children := gti[parent];
    ghost var added: seq<string> := [];
    AddingStart(children, seen);
    for i := 0 to |children|
      invariant Kept(gti, bases, out', seen', pending', {parent}) && Adding(children, i, seen, seen', added)
      invariant out' == out + added && pending' == pending + added
    {
      var child := children[i];
      AddingStep(children, i, seen, seen', added);
      if Lower(child) !in seen' {
        ChildReachable(gti, bases, parent, child);
        Grows(gti, bases, out', seen', pending', {parent}, child);
        seen' := seen' + {Lower(child)};
        out' := out' + [child];
        pending' := pending' + [child];
        Further(out, added, child);
        Further(pending, added, child);
        added := added + [child];
      }
    }
    AddingEnd(gti, parent, seen, seen', added);
    KeptOf(gti, bases, out', seen', pending', parent);
  }

  lemma KeptOf(gti: Index, bases: seq<string>, out: seq<string>, seen: set<string>, pending: seq<string>,
               parent: string)
    requires Kept(gti, bases, out, seen, pending, {parent}) && Closed(gti, seen, parent)
    ensures Kept(gti, bases, out, seen, pending, {})
  {
  }

  lemma KeptTakes(gti: Index, bases: seq<string>, out: seq<string>, seen: set<string>, pending: seq<string>,
                  parent: string)
    requires Kept(gti, bases, out, seen, pending + [parent], {})
    ensures Kept(gti, bases, out, seen, pending, {parent}) && (parent in bases || parent in out)
    ensures parent !in gti ==> Kept(gti, bases, out, seen, pending, {})
  {
    hide AllReachable, SeenIs, CaseDistinct;
    assert forall p :: p in pending + [parent] <==> p in pending || p == parent;
  }

  /** `out` has the class `name`, in some spelling. */
  ghost predicate Lists(out: seq<string>, name: string) {
    exists o :: o in out && Lower(o) == Lower(name)
  }

  /**
   * What the worklist promises: names reached by looking each parent up as it is spelled, no
   * class twice, and with each base and each listed name all its children.
   */
  ghost predicate Result(gti: Index, bases: seq<string>, out: seq<string>) {
    && AllReachable(gti, bases, out)
    && CaseDistinct(out)
    && forall p, c :: (p in bases || p in out) && Child(gti, p, c) ==> Lists(out, c)
  }

  lemma SeqAssoc(a: seq<string>, b: seq<string>, c: seq<string>)
    ensures a + (b + c) == a + b + c
  {
  }

  lemma CollectNothing(gti: Index, out: seq<string>, seen: set<string>)
    ensures out + Collect(gti, [], seen) == out
  {
  }

  lemma KeptAtFirst(gti: Index, bases: seq<string>)
    ensures Kept(gti, bases, [], {}, bases, {})
    ensures [] + Collect(gti, bases, {}) == Collect(gti, bases, {})
  {
  }

  lemma KeptResult(gti: Index, bases: seq<string>, out: seq<string>, seen: set<string>)
    requires Kept(gti, bases, out, seen, [], {})
    ensures Result(gti, bases, out)
  {
    forall p, c | (p in bases || p in out) && Child(gti, p, c) ensures Lists(out, c) {
      assert Closed(gti, seen, p);
    }
  }

  method RepositoryClasses(gti: Index, bases: seq<string>) returns (out: seq<string>)
    ensures Result(gti, bases, out)
    ensures out == Collect(gti, bases, {})
  {
    hide Kept, Collect, NewChildren, Folded, Result, Names, BASES;
    var pending := bases;
    var seen: set<string> := {};
    out := [];
    KeptAtFirst(gti, bases);
    while pending != []
      invariant Kept(gti, bases, out, seen, pending, {})
      invariant out + Collect(gti, pending, seen) == Collect(gti, bases, {})
      decreases Names(gti) - seen, |pending|
    {
      var parent := pending[|pending| - 1];
      assert pending == pending[..|pending| - 1] + [parent];
      pending := pending[..|pending| - 1];
      KeptTakes(gti, bases, out, seen, pending, parent);
      CollectNext(gti, pending, parent, seen);
      if parent in gti {
        NewNames(gti, parent, seen);
        ghost var added := NewChildren(gti, parent, seen);
        SeqAssoc(out, added, Collect(gti, pending + added, seen + Folded(added)));
        out, seen, pending := AddChildren(gti, bases, parent, out, seen, pending);
      }
    }
    assert pending == [];
    CollectNothing(gti, out, seen);
    KeptResult(gti, bases, out, seen);
  }

  // ── Classes, whatever their spelling ──────────────────────────────────

  /**
   * The class `name` is `n` steps below a base type in PHP's sense, where names are the same
   * whatever their case: a class is a child of every spelling of its parent.
   */
  ghost predicate ClassBelow(gti: Index, bases: seq<string>, name: string, n: nat)
    decreases n
  {
    if n == 0 then Lists(bases, name)
    else exists p, c :: ClassBelow(gti, bases, p, n - 1) && Child(gti, p, c) && Lower(c) == Lower(name)
  }

  ghost predicate ClassReachable(gti: Index, bases: seq<string>, name: string) {
    exists n: nat :: n > 0 && ClassBelow(gti, bases, name, n)
  }

  /** The names are the classes below the base types, each in one spelling. */
  ghost predicate EachClassOnce(gti: Index, bases: seq<string>, out: seq<string>) {
    CaseDistinct(out) && forall name :: Lists(out, name) <==> ClassReachable(gti, bases, name)
  }

  /** The class `name` is reached by looking up each parent as it is spelled. */
  ghost predicate Met(gti: Index, bases: seq<string>, name: string) {
    exists x :: Reachable(gti, bases, x) && Lower(x) == Lower(name)
  }

  /** Key `p` is another spelling of a base or of a class that is met. */
  ghost predicate Stray(gti: Index, bases: seq<string>, p: string) {
    && p !in bases && !Reachable(gti, bases, p)
    && (Lists(bases, p) || Met(gti, bases, p))
  }

  /** What is recorded under a stray key is met in another way. */
  ghost predicate NoneStrays(gti: Index, bases: seq<string>) {
    forall p, c :: Stray(gti, bases, p) && Child(gti, p, c) ==> Met(gti, bases, c)
  }

  /** Spelled either way, a class that is met has the same children. */
  ghost predicate SpellingsAgree(gti: Index, bases: seq<string>) {
    forall x, y, c ::
      Reachable(gti, bases, x) && Reachable(gti, bases, y) && Lower(x) == Lower(y) && Child(gti, x, c) ==>
        HasChild(gti, y, c)
  }

  ghost predicate HasChild(gti: Index, parent: string, child: string) {
    exists d :: Child(gti, parent, d) && Lower(d) == Lower(child)
  }

  lemma {:induction false} BelowIsClass(gti: Index, bases: seq<string>, x: string, n: nat)
    requires Below(gti, bases, x, n)
    ensures ClassBelow(gti, bases, x, n)
    decreases n
  {
    hide Lower;
    if n > 0 {
      var parent :| Below(gti, bases, parent, n - 1) && Child(gti, parent, x);
      BelowIsClass(gti, bases, parent, n - 1);
    }
  }

  lemma AnySpelling(gti: Index, bases: seq<string>, x: string, y: string, n: nat)
    requires ClassBelow(gti, bases, x, n) && Lower(x) == Lower(y)
    ensures ClassBelow(gti, bases, y, n)
  {
    hide Lower;
  }

  lemma MetIsClass(gti: Index, bases: seq<string>, name: string)
    requires Met(gti, bases, name)
    ensures ClassReachable(gti, bases, name)
  {
    var x :| Reachable(gti, bases, x) && Lower(x) == Lower(name);
    var n: nat :| n > 0 && Below(gti, bases, x, n);
    BelowIsClass(gti, bases, x, n);
    AnySpelling(gti, bases, x, name, n);
  }

  /** With no child strayed, every class below the bases is met. */
  lemma {:induction false} ClassIsMet(gti: Index, bases: seq<string>, name: string, n: nat)
    requires NoneStrays(gti, bases) && ClassBelow(gti, bases, name, n) && n > 0
    ensures Met(gti, bases, name)
    decreases n
  {
    hide Lower, Reachable;
    var p, c :| ClassBelow(gti, bases, p, n - 1) && Child(gti, p, c) && Lower(c) == Lower(name);
    if n > 1 {
      ClassIsMet(gti, bases, p, n - 1);
    }
    if p in bases || Reachable(gti, bases, p) {
      ChildReachable(gti, bases, p, c);
    } else {
      assert Stray(gti, bases, p);
    }
    assert Met(gti, bases, c);
  }

  /** Whichever spelling is listed, with agreeing spellings everything met is listed. */
  lemma {:induction false} MetIsListed(gti: Index, bases: seq<string>, out: seq<string>, x: string, n: nat)
    requires Result(gti, bases, out) && SpellingsAgree(gti, bases)
    requires Below(gti, bases, x, n) && n > 0
    ensures Lists(out, x)
    decreases n
  {
    hide Lower;
    var parent :| Below(gti, bases, parent, n - 1) && Child(gti, parent, x);
    if parent !in bases {
      MetIsListed(gti, bases, out, parent, n - 1);
      var o :| o in out && Lower(o) == Lower(parent);
      assert Reachable(gti, bases, parent) && Reachable(gti, bases, o);
      var d :| Child(gti, o, d) && Lower(d) == Lower(x);
      assert Lists(out, d);
    }
  }

  lemma ListedIsMet(gti: Index, bases: seq<string>, out: seq<string>, name: string)
    requires Result(gti, bases, out) && Lists(out, name)
    ensures Met(gti, bases, name)
  {
    hide Lower, Reachable;
  }

  /** A list of each class leaves nothing recorded under a stray key alone. */
  lemma EachClassNeeds(gti: Index, bases: seq<string>, out: seq<string>)
    requires Result(gti, bases, out) && EachClassOnce(gti, bases, out)
    ensures NoneStrays(gti, bases)
  {
    hide Lower, Reachable, ClassReachable;
    forall p, c | Stray(gti, bases, p) && Child(gti, p, c) ensures Met(gti, bases, c) {
      StrayChild(gti, bases, p, c);
      ListedIsMet(gti, bases, out, c);
    }
  }

  lemma StrayChild(gti: Index, bases: seq<string>, p: string, c: string)
    requires (Lists(bases, p) || Met(gti, bases, p)) && Child(gti, p, c)
    ensures ClassReachable(gti, bases, c)
  {
    var n: nat :| ClassBelow(gti, bases, p, n) by {
      if Lists(bases, p) {
        assert ClassBelow(gti, bases, p, 0);
      } else {
        MetIsClass(gti, bases, p);
      }
    }
    assert ClassBelow(gti, bases, c, n + 1);
  }

  /**
   * Children are looked up under a parent's name as it is spelled, but kept apart without case.
   * As long as the spellings of a class agree on its children, the result is every class below
   * the base types, each once, exactly when what is recorded under any other spelling of them
   * is met in another way.
   */
  lemma ListsEachClassIff(gti: Index, bases: seq<string>, out: seq<string>)
    requires Result(gti, bases, out) && SpellingsAgree(gti, bases)
    ensures EachClassOnce(gti, bases, out) <==> NoneStrays(gti, bases)
  {
    hide Lower, Reachable, ClassReachable, SpellingsAgree, Stray, NoneStrays;
    if NoneStrays(gti, bases) {
      forall name ensures Lists(out, name) <==> ClassReachable(gti, bases, name) {
        if Lists(out, name) {
          ListedIsMet(gti, bases, out, name);
          MetIsClass(gti, bases, name);
        }
        if ClassReachable(gti, bases, name) {
          ClassIsListed(gti, bases, out, name);
        }
      }
    } else if EachClassOnce(gti, bases, out) {
      EachClassNeeds(gti, bases, out);
    }
  }

  lemma ClassIsListed(gti: Index, bases: seq<string>, out: seq<string>, name: string)
    requires Result(gti, bases, out) && SpellingsAgree(gti, bases) && NoneStrays(gti, bases)
    requires ClassReachable(gti, bases, name)
    ensures Lists(out, name)
  {
    hide Lower, SpellingsAgree, NoneStrays;
    var n: nat :| n > 0 && ClassBelow(gti, bases, name, n);
    ClassIsMet(gti, bases, name, n);
    var x :| Reachable(gti, bases, x) && Lower(x) == Lower(name);
    var m: nat :| m > 0 && Below(gti, bases, x, m);
    MetIsListed(gti, bases, out, x, m);
  }

  // ── Spellings ─────────────────────────────────────────────────────────

  /** No class below the bases is reached in two spellings. */
  ghost predicate OneSpelling(gti: Index, bases: seq<string>) {
    forall x, y :: Reachable(gti, bases, x) && Reachable(gti, bases, y) && Lower(x) == Lower(y) ==> x == y
  }

  lemma SameListed(out: seq<string>, x: string, y: string)
    requires CaseDistinct(out) && Lower(x) == Lower(y)
    ensures x in out && y in out ==> x == y
  {
    forall i, j | 0 <= i < |out| && 0 <= j < |out| && out[i] == x && out[j] == y ensures x == y {
      assert Lower(out[i]) == Lower(out[j]);
    }
  }

  /** The result is every spelling that is reached exactly when no class is reached in two. */
  lemma ListsAllIff(gti: Index, bases: seq<string>, out: seq<string>)
    requires Result(gti, bases, out)
    ensures (forall name :: name in out <==> Reachable(gti, bases, name)) <==> OneSpelling(gti, bases)
  {
    hide Lower;
    if OneSpelling(gti, bases) {
      assert SpellingsAgree(gti, bases);
      forall name ensures name in out <==> Reachable(gti, bases, name) {
        if Reachable(gti, bases, name) {
          var n: nat :| n > 0 && Below(gti, bases, name, n);
          MetIsListed(gti, bases, out, name, n);
        }
      }
    } else {
      var x, y :| Reachable(gti, bases, x) && Reachable(gti, bases, y) && Lower(x) == Lower(y) && x != y;
      SameListed(out, x, y);
    }
  }

  // ── What is lost, and what is not ─────────────────────────────────────

  lemma {:induction false} OnlyBase(gti: Index, bases: seq<string>, base: string, x: string, n: nat)
    requires Below(gti, bases, x, n) && n > 0
    requires base !in gti && forall p, c :: p in bases && Child(gti, p, c) ==> c == base
    ensures x == base
    decreases n
  {
    var parent :| Below(gti, bases, parent, n - 1) && Child(gti, parent, x);
    if n > 1 {
      OnlyBase(gti, bases, base, parent, n - 1);
    }
  }

  /** A class that extends another one under a name spelled otherwise is lost. */
  lemma LostClass(gti: Index, bases: seq<string>, b: string, base: string, other: string, x: string, out: seq<string>)
    requires gti == map[b := [base], other := [x]]
    requires b in bases && other !in bases && base != b && base != other
    requires Lower(other) == Lower(base) && Lower(x) != Lower(base)
    requires Result(gti, bases, out)
    ensures OneSpelling(gti, bases)
    ensures ClassReachable(gti, bases, x) && !Lists(out, x)
  {
    hide Lower, OneSpelling;
    assert gti[b] == [base];
    forall y | Reachable(gti, bases, y) ensures y == base {
      var n: nat :| n > 0 && Below(gti, bases, y, n);
      OnlyBase(gti, bases, base, y, n);
    }
    assert OneSpelling(gti, bases) by {
      assert forall y, z :: Reachable(gti, bases, y) && Reachable(gti, bases, z) ==> y == z;
      OneOnly(gti, bases, base);
    }
    assert Child(gti, b, base);
    ChildReachable(gti, bases, b, base);
    assert Met(gti, bases, other);
    StrayChild(gti, bases, other, x);
    if Lists(out, x) {
      ListedIsMet(gti, bases, out, x);
    }
  }

  lemma OneOnly(gti: Index, bases: seq<string>, base: string)
    requires forall y :: Reachable(gti, bases, y) ==> y == base
    ensures OneSpelling(gti, bases)
  {
  }

  /** `class Base extends EntityRepository` and `class X extends \base`: `X` is not listed. */
  lemma LostRepository(out: seq<string>)
    requires Result(map[BASES[1] := ["Base"], "base" := ["X"]], BASES, out)
    ensures ClassReachable(map[BASES[1] := ["Base"], "base" := ["X"]], BASES, "X") && !Lists(out, "X")
  {
    assert Lower("base") == Lower("Base") && Lower("X")[0] == 'x' && Lower("Base")[0] == 'b';
    assert BASES[1] in BASES && "base" !in BASES by {
      assert |BASES[0]| > 4 && |BASES[1]| > 4 && |BASES[2]| > 4;
    }
    LostClass(map[BASES[1] := ["Base"], "base" := ["X"]], BASES, BASES[1], "Base", "base", "X", out);
  }

  /** A class recorded in two spellings, but only below a base, is not lost. */
  lemma TwoSpellings(out: seq<string>)
    requires Result(map[BASES[1] := ["A", "a"]], BASES, out)
    ensures !OneSpelling(map[BASES[1] := ["A", "a"]], BASES)
    ensures EachClassOnce(map[BASES[1] := ["A", "a"]], BASES, out)
  {
    var gti := map[BASES[1] := ["A", "a"]];
    assert Child(gti, BASES[1], "A") && Child(gti, BASES[1], "a");
    ChildReachable(gti, BASES, BASES[1], "A");
    ChildReachable(gti, BASES, BASES[1], "a");
    assert Lower("A") == Lower("a");
    hide Lower;
    OnlyTheBase(gti, BASES, BASES[1]);
    ListsEachClassIff(gti, BASES, out);
  }

  /** Where nothing but a base has children, nothing strays. */
  lemma OnlyTheBase(gti: Index, bases: seq<string>, b: string)
    requires gti.Keys == {b} && b in bases
    requires forall c :: Child(gti, b, c) ==> Lower(c) != Lower(b)
    ensures SpellingsAgree(gti, bases) && NoneStrays(gti, bases)
  {
  }

  /** The walk over a base whose only class is listed in the first of its two spellings. */
  lemma FirstSpellingOnly(gti: Index, b0: string, b1: string, b2: string, one: string, other: string)
    requires b1 in gti && gti[b1] == [one, other] && Lower(one) == Lower(other)
    requires b0 !in gti && b2 !in gti && one !in gti
    ensures Collect(gti, [b0, b1, b2], {}) == [one]
  {
    hide Lower, Collect;
    assert [b0, b1, b2] == [b0, b1] + [b2] && [b0, b1] == [b0] + [b1];
    CollectNext(gti, [b0, b1], b2, {});
    CollectNext(gti, [b0], b1, {});
    FirstUnseen(one, other);
    assert NewChildren(gti, b1, {}) == [one];
    CollectNext(gti, [b0], one, {} + Folded([one]));
    assert [] + [b0] == [b0];
    CollectNext(gti, [], b0, {} + Folded([one]));
    CollectNothing(gti, [one], {} + Folded([one]));
  }

  lemma FirstUnseen(one: string, other: string)
    requires Lower(one) == Lower(other)
    ensures Unseen([one, other], {}) == [one]
  {
    hide Lower;
    var seen := {} + {Lower(one)};
    assert [one, other][1..] == [other] && [other][1..] == [];
    assert Lower(other) in seen && Unseen([], seen) == [] && Unseen([other], seen) == [];
  }

  /** Where two spellings of one class have different children, a class can be lost with no key astray. */
  lemma ChildrenApart(gti: Index)
    requires gti == map[BASES[1] := ["A", "a"], "a" := ["X"]]
    ensures NoneStrays(gti, BASES)
    ensures Collect(gti, BASES, {}) == ["A"] && ClassReachable(gti, BASES, "X") && !Lists(["A"], "X")
  {
    var b := BASES[1];
    assert b in BASES && "a" !in BASES && "A" !in BASES && BASES == [BASES[0], b, BASES[2]];
    assert BASES[0] !in gti && BASES[2] !in gti && b != "a" by {
      assert |BASES[0]| != |b| && |b| != |BASES[2]| && |BASES[0]| > 1 && |b| > 1 && |BASES[2]| > 1;
    }
    assert Lower("a") == Lower("A") && Lower("X")[0] == 'x' && Lower("A")[0] == 'a';
    hide Lower, BASES;
    assert Child(gti, b, "A") && Child(gti, b, "a") && Child(gti, "a", "X");
    ChildReachable(gti, BASES, b, "A");
    ChildReachable(gti, BASES, b, "a");
    assert Met(gti, BASES, "a");
    StrayChild(gti, BASES, "a", "X");
    assert "A" !in gti;
    FirstSpellingOnly(gti, BASES[0], b, BASES[2], "A", "a");
  }
}
