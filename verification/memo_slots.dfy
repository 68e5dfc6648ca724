/**
 * The direct-mapped table of the memo, updated in place. It serves both memos of the
 * source: name searches (`V` an optional class, so that "no such class" is memoised
 * too) and framework refinements (`V` a class).
 */
module MemoSlots {
  import opened Wrappers

  const SLOTS: nat := 256
  const PHI: nat := 0x9e37_79b9_7f4a_7c15
  const TWO_TO_THE_64: nat := 0x1_0000_0000_0000_0000
  const TWO_TO_THE_56: nat := 0x100_0000_0000_0000

  /** A reference to one allocation: addresses are reused, `id` is not. */
  datatype Handle = Handle(addr: nat, id: nat)

  /** The top eight bits of the wrapping product of the address and `PHI`. */
  function SlotOf(key: Handle): (r: nat)
    ensures r < SLOTS
  {
    ((key.addr % TWO_TO_THE_64) * PHI) % TWO_TO_THE_64 / TWO_TO_THE_56
  }

  datatype Entry<+V> = Entry(key: Handle, value: V)

  datatype Slot<+V> = Slot(entry: Option<Entry<V>>, owner: nat, generation: nat)

  /** Handles are compared by address, as the source compares pointers. */
  function Answer<V>(slot: Slot<V>, owner: nat, generation: nat, key: Handle): Option<V> {
    if slot.owner != owner || slot.generation != generation || slot.entry.None? then None
    else if slot.entry.value.key.addr == key.addr then Some(slot.entry.value.value)
    else None
  }

  /** The table after `Store` has put `value` in the slot of `key`. */
  function Stored<V>(table: seq<Slot<V>>, owner: nat, generation: nat, key: Handle, value: V): seq<Slot<V>>
    requires |table| == SLOTS
  {
    table[SlotOf(key) := Slot(Some(Entry(key, value)), owner, generation)]
  }

  /** One thread's table, allocated by the first `Store`. */
  class MemoTable<V> {
    var slots: array?<Slot<V>>

    ghost predicate Valid()
      reads this
    {
      slots != null ==> slots.Length == SLOTS
    }

    ghost function Contents(): seq<Slot<V>>
      requires Valid()
      reads this, slots
    {
      if slots == null then Empty() else slots[..]
    }

    constructor ()
      ensures Valid() && Contents() == Empty()
    {
      slots := null;
    }

    method Probe(owner: nat, generation: nat, key: Handle) returns (r: Option<V>)
      requires Valid()
      ensures r == Answer(Contents()[SlotOf(key)], owner, generation, key)
    {
      if slots == null {
        return None;
      }
      var slot := slots[SlotOf(key)];
      if slot.owner != owner || slot.generation != generation {
        return None;
      }
      r := if slot.entry.Some? && slot.entry.value.key.addr == key.addr
           then Some(slot.entry.value.value) else None;
    }

    method Store(owner: nat, generation: nat, key: Handle, value: V)
      requires Valid()
      modifies this, slots
      ensures Valid() && (slots == old(slots) || fresh(slots))
      ensures Contents() == Stored(old(Contents()), owner, generation, key, value)
    {
      if slots == null {
        slots := new Slot<V>[SLOTS](_ => Slot(None, 0, 0));
      }
      slots[SlotOf(key)] := Slot(Some(Entry(key, value)), owner, generation);
    }
  }

  function Empty<V>(): (s: seq<Slot<V>>)
    ensures |s| == SLOTS
  {
    seq(SLOTS, _ => Slot(None, 0, 0))
  }
}
