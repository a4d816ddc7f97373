/** slot_offsetter.go: maps the virtual index of a slot to its present index in the save area. */
module SlotOffsetters {
  import opened Bytes
  import opened FenwickTrees

  datatype AddResult = Added(slot: Slot) | NoRoom

  class SlotOffsetter {
    const tree: FenwickTree

    ghost predicate Valid()
      reads tree, tree.data
    {
      tree.Valid()
    }

    constructor (maxBytes: nat)
      ensures Valid() && fresh(tree) && fresh(tree.data)
      ensures tree.vals == seq(maxBytes, _ => 0)
    {
      tree := new FenwickTree(maxBytes);
    }

    // Shift a slot by what was discarded at or before it, and count it as discarded.
    method Offset(slot: Slot) returns (r: Slot)
      requires Valid() && 0 <= slot.index < |tree.vals|
      modifies tree, tree.data
      ensures Valid()
      ensures r == OffsetSlot(Sum(old(tree.vals), 0, slot.index + 1), slot)
      ensures tree.vals == old(tree.vals)[slot.index := old(tree.vals)[slot.index] + slot.length]
    {
      var offset := tree.SumUntil(slot.index);
      tree.Add(slot.index, slot.length);
      r := OffsetSlot(offset, slot);
    }

    // Give a fresh slot its virtual index.
    method Add(slot: Slot) returns (r: AddResult)
      requires Valid()
      ensures var v := slot.index + Sum(tree.vals, 0, |tree.vals|);
        r == if v >= |tree.vals| then NoRoom else Added(Slot(v, slot.length))
    {
      var total := tree.Total();
      var index := slot.index + total;
      if index >= tree.data.Length { return NoRoom; }
      return Added(Slot(index, slot.length));
    }

    method Reset()
      requires Valid()
      modifies tree, tree.data
      ensures Valid() && tree.vals == seq(|old(tree.vals)|, _ => 0)
    {
      tree.Reset();
    }
  }
}
