/** Bytes, and slot.go: a slot names a stretch of a ByteBuffer's save area. */
module Bytes {

  type byte = x: int | 0 <= x < 256

  datatype Slot = Slot(index: int, length: int)

  // Shift a slot back by `offset`, clamped to [0, index].
  function OffsetSlot(offset: int, slot: Slot): (r: Slot)
    ensures r.length == slot.length
    ensures 0 <= offset <= slot.index ==> r.index + offset == slot.index
    ensures slot.index >= 0 ==> 0 <= r.index <= slot.index
  {
    var o := if offset < 0 then 0 else offset;
    var o' := if o > slot.index then slot.index else o;
    Slot(slot.index - o', slot.length)
  }

  function Min(x: int, y: int): int { if x <= y then x else y }

  function Max(x: int, y: int): int { if x <= y then y else x }
}
