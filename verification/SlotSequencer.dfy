/** slot_sequencer.go over byte_buffer.go: bytes saved in arrival order, found again by number
    and discarded in any order. */
module SlotSequencers {
  import opened Bytes
  import opened FenwickTrees
  import opened SlotArena
  import opened SlotLayout
  import opened SortedTables
  import opened SequencedSlotsModel
  import opened SlotOffsetters

  // ---- The reference: a table of byte strings with two limits ----

  // `bytes` are stored now; `appended` were accepted since the table was last empty.
  datatype Store = Store(items: map<int, seq<byte>>, bytes: nat, appended: nat)

  const EMPTY_STORE := Store(map[], 0, 0)

  datatype Limits = Limits(maxSlots: nat, maxBytes: nat)

  function PutOutcome(st: Store, limits: Limits, n: int, payload: seq<byte>): PushResult {
    if st.bytes + |payload| > limits.maxBytes then NoSpaceLeft
    else if (if payload == [] then st.appended - st.bytes else st.appended) >= limits.maxBytes then NoSpaceLeft
    else if n in st.items then Duplicate
    else if |st.items| >= limits.maxSlots then NoSpaceLeft
    else Pushed
  }

  function Put(st: Store, n: int, payload: seq<byte>): Store {
    Store(st.items[n := payload], st.bytes + |payload|, st.appended + |payload|)
  }

  function Take(st: Store, n: int): Store
    requires n in st.items
  {
    if st.items - {n} == map[] then EMPTY_STORE
    else Store(st.items - {n}, Max(0, st.bytes - |st.items[n]|), st.appended)
  }

  // ---- The layout as a store ----

  ghost function StoreOf(t: Table, vals: seq<int>, a: seq<Cell>, saved: seq<byte>): Store
    requires Layout(t, vals, a) && |saved| == LiveLen(a)
  {
    LayoutFits(t, vals, a);
    Store(Stored(t, vals, saved), LiveLen(a), Total(a))
  }

  lemma DiscardedTotal(t: Table, vals: seq<int>, a: seq<Cell>)
    requires Layout(t, vals, a)
    ensures Sum(vals, 0, |vals|) == Total(a) - LiveLen(a)
  {
    DeadStarts(a, |vals|);
  }

  lemma StoreKeys(t: Table, vals: seq<int>, a: seq<Cell>, saved: seq<byte>)
    requires Layout(t, vals, a) && |saved| == LiveLen(a)
    ensures StoreOf(t, vals, a, saved).items.Keys == t.Keys
    ensures |StoreOf(t, vals, a, saved).items| == |t|
  {
    var items := StoreOf(t, vals, a, saved).items;
    assert items.Keys == t.Keys;
    assert |items| == |items.Keys| && |t| == |t.Keys|;
  }

  lemma PushStore(t: Table, vals: seq<int>, a: seq<Cell>, n: int, s: Slot, saved: seq<byte>) returns (a': seq<Cell>)
    requires Layout(t, vals, a) && n !in t && 0 <= s.length && 0 <= s.index < |vals|
    requires s.index <= Total(a) && (s.length > 0 ==> s.index == Total(a))
    requires |saved| == LiveLen(a) + s.length
    ensures Layout(t[n := s], vals, a') && LiveLen(a') == |saved|
    ensures StoreOf(t[n := s], vals, a', saved) == Put(StoreOf(t, vals, a, saved[..LiveLen(a)]), n, saved[LiveLen(a)..])
  {
    a' := PushLayout(t, vals, a, n, s);
    var front, rest := saved[..LiveLen(a)], saved[LiveLen(a)..];
    PushStored(t, vals, a, n, s, a', front, rest);
    assert front + rest == saved;
  }

  lemma PopStore(t: Table, vals: seq<int>, a: seq<Cell>, n: int, saved: seq<byte>) returns (a': seq<Cell>)
    requires Layout(t, vals, a) && n in t && |saved| == LiveLen(a)
    ensures Inside(vals, t[n], |saved|)
    ensures Layout(t - {n}, Discarded(vals, t[n]), a') && LiveLen(a') == LiveLen(a) - t[n].length
    ensures var w := Where(vals, t[n]);
      saved[w.index..w.index + w.length] == StoreOf(t, vals, a, saved).items[n]
    ensures t - {n} == map[] ==> |saved| == t[n].length && Take(StoreOf(t, vals, a, saved), n) == EMPTY_STORE
    ensures t - {n} != map[] ==>
      StoreOf(t - {n}, Discarded(vals, t[n]), a', Cut(saved, Where(vals, t[n]))) == Take(StoreOf(t, vals, a, saved), n)
  {
    hide Layout, Represents, Stored, LiveLen, Total, Take, Discarded, Where, Sum;
    WhereInside(t, vals, a, n);
    a' := PopLayout(t, vals, a, n);
    PopStored(t, vals, a, n, a', saved);
    PopItems(t, vals, a, n, saved);
    var st := StoreOf(t, vals, a, saved);
    if t - {n} == map[] {
      EmptyTable(t - {n}, Discarded(vals, t[n]), a');
      TakeLast(st, n);
    } else {
      TakeOne(st, n);
    }
  }

  lemma PopItems(t: Table, vals: seq<int>, a: seq<Cell>, n: int, saved: seq<byte>)
    requires Layout(t, vals, a) && n in t && |saved| == LiveLen(a)
    ensures n in StoreOf(t, vals, a, saved).items && Inside(vals, t[n], |saved|)
    ensures var w := Where(vals, t[n]);
      StoreOf(t, vals, a, saved).items[n] == saved[w.index..w.index + w.length] && w.length == t[n].length
    ensures StoreOf(t, vals, a, saved).items - {n} == map[] <==> t - {n} == map[]
  {
    WhereInside(t, vals, a, n);
    hide Layout, LiveLen, Total;
    var items := StoreOf(t, vals, a, saved).items;
    assert (items - {n}).Keys == (t - {n}).Keys;
    if (t - {n}).Keys == {} { assert t - {n} == map[] && items - {n} == map[]; }
  }

  lemma TakeLast(st: Store, n: int)
    requires n in st.items && st.items - {n} == map[]
    ensures Take(st, n) == EMPTY_STORE
  {}

  lemma TakeOne(st: Store, n: int)
    requires n in st.items && st.items - {n} != map[]
    ensures Take(st, n) == Store(st.items - {n}, Max(0, st.bytes - |st.items[n]|), st.appended)
  {}

  // With an empty table nothing is stored and the save area is empty.
  lemma EmptyTable(t: Table, vals: seq<int>, a: seq<Cell>)
    requires Layout(t, vals, a) && t == map[]
    ensures LiveLen(a) == 0
  {
    NoLive(a);
  }

  lemma {:induction false} NoLive(a: seq<Cell>)
    requires forall k :: 0 <= k < |a| ==> !a[k].live
    ensures LiveLen(a) == 0
  {
    if a != [] { NoLive(a[..|a| - 1]); }
  }

  lemma EmptyStore(vals: seq<int>)
    requires forall i :: 0 <= i < |vals| ==> vals[i] == 0
    ensures Layout(map[], vals, []) && StoreOf(map[], vals, [], []) == EMPTY_STORE
  {
    EmptyLayout(vals);
  }

  // ---- The sequencer ----

  class SlotSequencer {
    const limits: Limits
    var bytes: int
    const container: SequencedSlots
    const offsetter: SlotOffsetter
    ghost var arena: seq<Cell>

    ghost predicate Tracked()
      reads this, container, offsetter.tree, offsetter.tree.data
    {
      && container.Valid() && offsetter.Valid()
      && container.maxSlots == limits.maxSlots && |offsetter.tree.vals| == limits.maxBytes
      && Layout(container.Table(), offsetter.tree.vals, arena)
      && bytes == LiveLen(arena) == SumLengths(container.slots) <= limits.maxBytes
    }

    ghost predicate Valid()
      reads this, container, offsetter.tree, offsetter.tree.data
      ensures Valid() ==> Tracked()
    {
      Tracked() && (container.slots == [] ==> arena == [])
    }

    // What a save area holding exactly the tracked slots stores under each number.
    ghost function Model(saved: seq<byte>): Store
      requires Tracked() && |saved| == bytes
      reads this, container, offsetter.tree, offsetter.tree.data
    {
      StoreOf(container.Table(), offsetter.tree.vals, arena, saved)
    }

    constructor (maxSlots: nat, maxBytes: nat)
      ensures Valid() && fresh({container, offsetter, offsetter.tree, offsetter.tree.data})
      ensures limits == Limits(maxSlots, maxBytes) && bytes == 0 && Model([]) == EMPTY_STORE
    {
      limits := Limits(maxSlots, maxBytes);
      bytes := 0;
      container := new SequencedSlots(maxSlots);
      offsetter := new SlotOffsetter(maxBytes);
      arena := [];
      new;
      EmptyLayout(offsetter.tree.vals);
    }

    // `saved` is the save area right after the slot was saved at its end.
    method Push(number: int, slot: Slot, ghost saved: seq<byte>) returns (r: PushResult)
      requires Valid() && slot.length >= 0 && |saved| == bytes + slot.length
      requires slot.index == if slot.length == 0 then 0 else bytes
      modifies this, container, offsetter.tree, offsetter.tree.data
      ensures Valid()
      ensures r == PutOutcome(old(Model(saved[..bytes])), limits, number, saved[old(bytes)..])
      ensures old(bytes) + slot.length > limits.maxBytes ==> r.NoSpaceLeft?
      ensures r.Pushed? ==>
        bytes == |saved| && Model(saved) == Put(old(Model(saved[..bytes])), number, saved[old(bytes)..])
      ensures !r.Pushed? ==> bytes == old(bytes) && Model(saved[..bytes]) == old(Model(saved[..bytes]))
    {
      hide Layout, Represents, Ascending, Stored, SumLengths, Sum, ToMap, Total, LiveLen;
      ghost var t, vals, a := container.Table(), offsetter.tree.vals, arena;
      StoreKeys(t, vals, a, saved[..bytes]);
      if bytes + slot.length > limits.maxBytes { return NoSpaceLeft; }
      DiscardedTotal(t, vals, a);
      LiveAtMost(a);
      var added := offsetter.Add(slot);
      if added.NoRoom? { return NoSpaceLeft; }
      r := container.Push(number, added.slot);
      if r.Pushed? {
        bytes := bytes + slot.length;
        arena := PushStore(t, vals, a, number, added.slot, saved);
      }
    }

    // Take the slot out of the container and find its bytes; an emptied container is not noticed yet.
    method TakeOut(number: int, ghost saved: seq<byte>) returns (slot: Slot, ok: bool)
      requires Valid() && |saved| == bytes
      modifies this, container, offsetter.tree, offsetter.tree.data
      ensures Tracked() && ok == (number in old(Model(saved)).items)
      ensures !ok ==> Valid() && bytes == old(bytes) && Model(saved) == old(Model(saved))
      ensures ok ==>
        && 0 <= slot.index && 0 <= slot.length && slot.index + slot.length <= |saved|
        && saved[slot.index..slot.index + slot.length] == old(Model(saved)).items[number]
        && bytes == |saved| - slot.length
        && if container.slots == [] then bytes == 0 && Take(old(Model(saved)), number) == EMPTY_STORE
           else Model(Cut(saved, slot)) == Take(old(Model(saved)), number)
    {
      hide Layout, Represents, Ascending, Stored, SumLengths, Sum, OffsetSlot, At, Total, StoreOf, Take, LiveLen;
      ghost var t, vals, a := container.Table(), offsetter.tree.vals, arena;
      StoreKeys(t, vals, a, saved);
      slot, ok := container.Pop(number);
      if ok {
        ghost var a' := PopStore(t, vals, a, number, saved);
        slot := offsetter.Offset(slot);
        assert slot == Where(vals, t[number]);
        assert offsetter.tree.vals == Discarded(vals, t[number]) && container.Table() == t - {number};
        if container.slots == [] { assert container.Table() == map[]; }
        arena := a';
        bytes := bytes - slot.length;
      }
    }

    // `saved` is the save area before the popped slot is discarded.
    method Pop(number: int, ghost saved: seq<byte>) returns (slot: Slot, ok: bool)
      requires Valid() && |saved| == bytes
      modifies this, container, offsetter.tree, offsetter.tree.data
      ensures Valid() && ok == (number in old(Model(saved)).items)
      ensures !ok ==> bytes == old(bytes) && Model(saved) == old(Model(saved))
      ensures ok ==>
        && 0 <= slot.index && 0 <= slot.length && slot.index + slot.length <= |saved|
        && saved[slot.index..slot.index + slot.length] == old(Model(saved)).items[number]
        && bytes == |saved| - slot.length
        && Model(Cut(saved, slot)) == Take(old(Model(saved)), number)
    {
      hide Layout, Represents, Take, SumLengths, StoreOf;
      slot, ok := TakeOut(number, saved);
      if ok && |container.slots| == 0 {
        offsetter.Reset();
        arena := [];
        EmptyStore(offsetter.tree.vals);
        assert container.Table() == map[] && Cut(saved, slot) == [];
      }
    }

    method Reset()
      requires Valid()
      modifies this, container, offsetter.tree, offsetter.tree.data
      ensures Valid() && bytes == 0 && Model([]) == EMPTY_STORE
    {
      offsetter.Reset();
      container.Reset();
      bytes := 0;
      arena := [];
      EmptyStore(offsetter.tree.vals);
    }
  }
}
