/** sequenced_slots.go: slots kept in ascending order of their sequence numbers. */
module SequencedSlotsModel {
  import opened Bytes
  import opened SortedTables

  type SequencedSlot = Entry<Slot>

  datatype PushResult = Pushed | Duplicate | NoSpaceLeft

  ghost function SumLengths(s: seq<SequencedSlot>): int {
    if s == [] then 0 else SumLengths(s[..|s| - 1]) + s[|s| - 1].value.length
  }

  lemma {:induction false} InsertSum(s: seq<SequencedSlot>, ix: nat, e: SequencedSlot)
    requires ix <= |s|
    ensures SumLengths(Inserted(s, ix, e)) == SumLengths(s) + e.value.length
    decreases |s|
  {
    var s' := Inserted(s, ix, e);
    if ix == |s| {
      assert s'[..|s|] == s;
    } else {
      var n := |s| - 1;
      InsertSum(s[..n], ix, e);
      assert s'[..|s|] == Inserted(s[..n], ix, e);
      assert s'[|s|] == s[n];
    }
  }

  lemma RemoveSum(s: seq<SequencedSlot>, ix: nat)
    requires ix < |s|
    ensures SumLengths(Removed(s, ix)) == SumLengths(s) - s[ix].value.length
  {
    hide *;
    RemoveInsert(s, ix);
    InsertSum(Removed(s, ix), ix, s[ix]);
  }

  class SequencedSlots {
    const maxSlots: nat
    var slots: seq<SequencedSlot>

    ghost predicate Valid()
      reads this
    {
      Ascending(slots) && |slots| <= maxSlots
    }

    ghost function Table(): map<int, Slot>
      reads this
    {
      ToMap(slots)
    }

    constructor (maxSlots: nat)
      ensures Valid() && Table() == map[] && this.maxSlots == maxSlots && slots == []
    {
      this.maxSlots := maxSlots;
      slots := [];
    }

    method Push(number: int, slot: Slot) returns (r: PushResult)
      requires Valid()
      modifies this
      ensures Valid() && |Table()| == |slots|
      ensures r == if number in old(Table()) then Duplicate
                   else if |old(Table())| >= maxSlots then NoSpaceLeft else Pushed
      ensures Table() == if r.Pushed? then old(Table())[number := slot] else old(Table())
      ensures SumLengths(slots) == SumLengths(old(slots)) + (if r.Pushed? then slot.length else 0)
    {
      var ix := Search(slots, number);
      Lookup(slots, number, ix);
      EntryCount(slots);
      var e := Entry(number, slot);
      if ix >= |slots| || slots[ix].key != number {
        if |slots| >= maxSlots { return NoSpaceLeft; }
        InsertAscending(slots, ix, e);
        InsertMap(slots, ix, e);
        InsertSum(slots, ix, e);
        slots := Inserted(slots, ix, e);
        EntryCount(slots);
        return Pushed;
      }
      return Duplicate;
    }

    method Pop(number: int) returns (slot: Slot, ok: bool)
      requires Valid()
      modifies this
      ensures Valid() && |Table()| == |slots|
      ensures ok == (number in old(Table()))
      ensures ok ==> slot == old(Table())[number] && Table() == old(Table()) - {number}
      ensures ok ==> SumLengths(slots) == SumLengths(old(slots)) - slot.length
      ensures !ok ==> slot == Slot(0, 0) && slots == old(slots)
    {
      var ix := Search(slots, number);
      Lookup(slots, number, ix);
      if ix < |slots| && slots[ix].key == number {
        slot, ok := slots[ix].value, true;
        RemoveMap(slots, ix);
        RemoveSum(slots, ix);
        slots := Removed(slots, ix);
      } else {
        slot, ok := Slot(0, 0), false;
      }
      EntryCount(slots);
    }

    method Reset()
      modifies this
      ensures Valid() && slots == [] && Table() == map[]
    {
      slots := [];
    }
  }
}
