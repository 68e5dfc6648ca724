/** The word that tells apart the indexes, and the projects they are seen from, in a shared table. */
module IndexOwners {
  const TWO_TO_THE_48: nat := 0x1_0000_0000_0000
  const TWO_TO_THE_16: nat := 0x1_0000

  /** Ids are counted up from zero and stay below 2^48. */
  type IndexId = id: nat | id < TWO_TO_THE_48 witness 0

  /** An index as seen from one of the Composer projects, which is what an answer depends on. */
  datatype Project = Project(index: IndexId, scope: nat)

  /**
   * The 64-bit word `id ^ (scope << 48)` that names index `id` as seen from project `scope`.
   * An id has no bits in common with the shifted scope, so the exclusive or is a sum.
   */
  function OwnerWord(id: nat, scope: nat): nat {
    id + (scope % TWO_TO_THE_16) * TWO_TO_THE_48
  }

  function IndexOf(owner: nat): nat {
    owner % TWO_TO_THE_48
  }

  function Owner(p: Project): nat {
    OwnerWord(p.index, p.scope)
  }

  // ── Bit by bit ────────────────────────────────────────────────────────

  function Bit(word: nat, k: nat): nat {
    if k == 0 then word % 2 else Bit(word / 2, k - 1)
  }

  function Two(exponent: nat): (r: nat)
    ensures r > 0
  {
    if exponent == 0 then 1 else 2 * Two(exponent - 1)
  }

  lemma {:induction false} TwoSum(m: nat, n: nat)
    ensures Two(m + n) == Two(m) * Two(n)
  {
    if m > 0 {
      TwoSum(m - 1, n);
    }
  }

  lemma FourBits()
    ensures Two(4) == 16
  {
    assert Two(2) == 2 * Two(1);
  }

  lemma Powers()
    ensures Two(16) == TWO_TO_THE_16 && Two(48) == TWO_TO_THE_48
  {
    hide Two;
    FourBits();
    TwoSum(4, 4);
    TwoSum(8, 8);
    TwoSum(16, 16);
    TwoSum(32, 16);
  }

  lemma {:induction false} BitOfZero(k: nat)
    ensures Bit(0, k) == 0
  {
    if k > 0 {
      BitOfZero(k - 1);
    }
  }

  /** What stands above the lowest `m` bits does not touch them, nor they it. */
  lemma {:induction false} BitOfSum(low: nat, high: nat, m: nat, k: nat)
    requires low < Two(m)
    ensures Bit(low + high * Two(m), k) == if k < m then Bit(low, k) else Bit(high, k - m)
    ensures k >= m ==> Bit(low, k) == 0
    decreases m
  {
    if m == 0 {
      BitOfZero(k);
    } else {
      var x := high * Two(m - 1);
      assert high * Two(m) == 2 * x;
      if k > 0 {
        assert (low + 2 * x) / 2 == low / 2 + x;
        BitOfSum(low / 2, high, m - 1, k - 1);
      }
    }
  }

  /** Each bit of the owner word is the exclusive or of the id's bit and the shifted scope's. */
  lemma OwnerWordIsXor(id: nat, scope: nat, k: nat)
    requires id < TWO_TO_THE_48 && k < 64
    ensures Bit(OwnerWord(id, scope), k) == (Bit(id, k) + if k < 48 then 0 else Bit(scope, k - 48)) % 2
  {
    hide Two, Bit;
    Powers();
    var low := scope % TWO_TO_THE_16;
    BitOfSum(id, low, 48, k);
    if k >= 48 {
      assert scope == low + (scope / TWO_TO_THE_16) * TWO_TO_THE_16;
      BitOfSum(low, scope / TWO_TO_THE_16, 16, k - 48);
      BitIsBit(scope, k - 48);
    } else {
      BitIsBit(id, k);
    }
  }

  lemma {:induction false} BitIsBit(word: nat, k: nat)
    ensures Bit(word, k) == 0 || Bit(word, k) == 1
  {
    if k > 0 {
      BitIsBit(word / 2, k - 1);
    }
  }

  /** For ids below 2^48, two owners share slots iff index and low 16 bits of the scope agree. */
  lemma OwnerWordIff(id: nat, scope: nat, id': nat, scope': nat)
    requires id < TWO_TO_THE_48 && id' < TWO_TO_THE_48
    ensures OwnerWord(id, scope) == OwnerWord(id', scope')
            <==> id == id' && scope % TWO_TO_THE_16 == scope' % TWO_TO_THE_16
    ensures IndexOf(OwnerWord(id, scope)) == id
  {
  }

  /** Projects share an owner word iff they see the same index and their scopes agree modulo 2^16. */
  lemma SameOwnerIff(p: Project, q: Project)
    ensures Owner(p) == Owner(q) <==> p.index == q.index && p.scope % TWO_TO_THE_16 == q.scope % TWO_TO_THE_16
  {
    OwnerWordIff(p.index, p.scope, q.index, q.scope);
  }
}
