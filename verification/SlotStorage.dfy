/** The workflow of slot_sequencer.go: save bytes and push their slot, pop a slot and discard
    its bytes. A sequencer over a buffer behaves, over every run, like a table of byte strings. */
module SlotStorage {
  import opened Bytes
  import opened ByteBuffers
  import opened SlotLayout
  import opened FenwickTrees
  import opened SlotArena
  import opened SortedTables
  import opened SequencedSlotsModel
  import opened SlotSequencers

  // The buffer's save area holds exactly the slots the sequencer tracks.
  ghost predicate Linked(s: SlotSequencer, b: ByteBuffer)
    reads s, s.container, s.offsetter.tree, s.offsetter.tree.data, b, b.data
  {
    s.Valid() && b.Valid() && |b.Saved()| == s.bytes && b.data as object != s.offsetter.tree.data
  }

  ghost function Contents(s: SlotSequencer, b: ByteBuffer): Store
    requires Linked(s, b)
    reads s, s.container, s.offsetter.tree, s.offsetter.tree.data, b, b.data
  {
    s.Model(b.Saved())
  }

  // Save the read area under a number; a slot that is not accepted is discarded at once.
  method SaveAndPush(s: SlotSequencer, b: ByteBuffer, number: int) returns (r: PushResult)
    requires Linked(s, b)
    modifies s, s.container, s.offsetter.tree, s.offsetter.tree.data, b, b.data
    ensures Linked(s, b) && b.data == old(b.data)
    ensures b.Readable() == [] && b.Written() == old(b.Written())
    ensures r == PutOutcome(old(Contents(s, b)), s.limits, number, old(b.Readable()))
    ensures Contents(s, b) ==
      if r.Pushed? then Put(old(Contents(s, b)), number, old(b.Readable())) else old(Contents(s, b))
  {
    hide ByteBuffer.Intact, SlotSequencer.Valid, SlotSequencer.Model, PutOutcome, Put;
    ghost var before, payload := b.Saved(), b.Readable();
    var slot := b.Save(b.ri - b.si);
    ghost var saved := b.Saved();
    assert saved[..s.bytes] == before && saved[s.bytes..] == payload;
    r := s.Push(number, slot, saved);
    if !r.Pushed? {
      var _ := b.Discard(slot);
      assert b.Saved() == before;
    }
  }

  method PopAndDiscard(s: SlotSequencer, b: ByteBuffer, number: int) returns (bytes: seq<byte>, ok: bool)
    requires Linked(s, b)
    modifies s, s.container, s.offsetter.tree, s.offsetter.tree.data, b, b.data
    ensures Linked(s, b) && b.data == old(b.data)
    ensures b.Readable() == old(b.Readable()) && b.Written() == old(b.Written())
    ensures ok == (number in old(Contents(s, b)).items)
    ensures ok ==> bytes == old(Contents(s, b)).items[number] && Contents(s, b) == Take(old(Contents(s, b)), number)
    ensures !ok ==> bytes == [] && Contents(s, b) == old(Contents(s, b))
  {
    hide ByteBuffer.Valid, ByteBuffer.Saved, ByteBuffer.Readable, ByteBuffer.Written, Cut;
    hide SlotSequencer.Valid, SlotSequencer.Model, Take;
    bytes := [];
    ghost var saved := b.Saved();
    var slot;
    slot, ok := s.Pop(number, saved);
    if ok { bytes := Withdraw(b, slot); }
  }

  // Read the bytes of a slot and cut them out of the save area.
  method Withdraw(b: ByteBuffer, slot: Slot) returns (bytes: seq<byte>)
    requires b.Valid() && 0 <= slot.index && 0 <= slot.length && slot.index + slot.length <= |b.Saved()|
    modifies b, b.data
    ensures b.Valid() && b.data == old(b.data) && bytes == old(b.Saved())[slot.index..slot.index + slot.length]
    ensures b.Saved() == Cut(old(b.Saved()), slot) && |b.Saved()| == |old(b.Saved())| - slot.length
    ensures b.Readable() == old(b.Readable()) && b.Written() == old(b.Written())
  {
    hide ByteBuffer.Intact;
    CutEmpty(b.Saved(), slot);
    bytes := b.SavedSlot(slot);
    var _ := b.Discard(slot);
  }

  lemma CutEmpty(saved: seq<byte>, slot: Slot)
    requires 0 <= slot.index && 0 <= slot.length && slot.index + slot.length <= |saved|
    ensures slot.length == 0 ==> Cut(saved, slot) == saved
  {}

  // ---- Whole runs ----

  datatype Op = Keep(number: int, payload: seq<byte>) | Fetch(number: int) | Clear

  datatype Answer = Kept(result: PushResult) | Fetched(bytes: seq<byte>) | Missing | Cleared

  function StepStore(limits: Limits, st: Store, op: Op): (Store, Answer) {
    match op
    case Keep(n, payload) =>
      var r := PutOutcome(st, limits, n, payload);
      (if r.Pushed? then Put(st, n, payload) else st, Kept(r))
    case Fetch(n) =>
      if n in st.items then (Take(st, n), Fetched(st.items[n])) else (st, Missing)
    case Clear => (EMPTY_STORE, Cleared)
  }

  function RunStore(limits: Limits, st: Store, ops: seq<Op>): (r: (Store, seq<Answer>))
    ensures |r.1| == |ops|
  {
    if ops == [] then (st, [])
    else
      var (before, answers) := RunStore(limits, st, ops[..|ops| - 1]);
      var (after, answer) := StepStore(limits, before, ops[|ops| - 1]);
      (after, answers + [answer])
  }

  lemma OneMoreOp(limits: Limits, ops: seq<Op>, op: Op)
    ensures var (st, answers) := RunStore(limits, EMPTY_STORE, ops);
      RunStore(limits, EMPTY_STORE, ops + [op]) ==
        (StepStore(limits, st, op).0, answers + [StepStore(limits, st, op).1])
  {
    hide StepStore;
    assert (ops + [op])[..|ops|] == ops;
  }

  // The bytes accepted in a run since the store was last empty, whether or not they are still there.
  ghost function KeptSinceEmpty(limits: Limits, ops: seq<Op>): nat {
    if ops == [] || RunStore(limits, EMPTY_STORE, ops).0.items == map[] then 0
    else
      var n := |ops| - 1;
      KeptSinceEmpty(limits, ops[..n]) +
        if ops[n].Keep? && RunStore(limits, EMPTY_STORE, ops).1[n] == Kept(Pushed) then |ops[n].payload| else 0
  }

  lemma {:induction false} AppendedIsKept(limits: Limits, ops: seq<Op>)
    ensures var st := RunStore(limits, EMPTY_STORE, ops).0;
      st.appended == KeptSinceEmpty(limits, ops) && (st.items == map[] ==> st == EMPTY_STORE)
  {
    if ops != [] {
      var n := |ops| - 1;
      AppendedIsKept(limits, ops[..n]);
      var st, op := RunStore(limits, EMPTY_STORE, ops[..n]).0, ops[n];
      hide PutOutcome;
      if op.Keep? && PutOutcome(st, limits, op.number, op.payload).Pushed? {
        assert op.number in Put(st, op.number, op.payload).items;
      }
    }
  }

  // ---- What every answer must be, from the calls and answers before it ----

  // The bytes of all slots of a table.
  ghost function BytesIn(m: map<int, seq<byte>>): nat {
    if exists k :: k in m then var k :| k in m; |m[k]| + BytesIn(m - {k}) else 0
  }

  lemma {:induction false} BytesWithout(m: map<int, seq<byte>>, n: int)
    requires n in m
    ensures BytesIn(m) == |m[n]| + BytesIn(m - {n})
    decreases |m|
  {
    var k :| k in m && BytesIn(m) == |m[k]| + BytesIn(m - {k});
    if k != n {
      assert (m - {k}).Keys == m.Keys - {k} && |m.Keys - {k}| < |m.Keys|;
      assert (m - {n}).Keys == m.Keys - {n} && |m.Keys - {n}| < |m.Keys|;
      BytesWithout(m - {k}, n);
      BytesWithout(m - {n}, k);
      assert m - {k} - {n} == m - {n} - {k};
    }
  }

  lemma PutBytes(st: Store, n: int, payload: seq<byte>)
    requires n !in st.items && st.bytes == BytesIn(st.items)
    ensures Put(st, n, payload).bytes == BytesIn(Put(st, n, payload).items)
  {
    var more := st.items[n := payload];
    BytesWithout(more, n);
    assert more - {n} == st.items;
    hide BytesIn;
  }

  lemma TakeBytes(st: Store, n: int)
    requires n in st.items && st.bytes == BytesIn(st.items)
    ensures Take(st, n).bytes == BytesIn(Take(st, n).items)
  {
    NoBytes();
    BytesWithout(st.items, n);
    hide BytesIn;
  }

  lemma NoBytes()
    ensures BytesIn(map[]) == 0
  {}

  // The slots that were kept and neither fetched nor cleared since.
  ghost function StoredBy(ops: seq<Op>, answers: seq<Answer>): map<int, seq<byte>>
    requires |ops| == |answers|
  {
    if ops == [] then map[]
    else
      var n := |ops| - 1;
      var before := StoredBy(ops[..n], answers[..n]);
      match ops[n]
      case Keep(number, payload) => if answers[n] == Kept(Pushed) then before[number := payload] else before
      case Fetch(number) => if answers[n] == Missing then before else before - {number}
      case Clear => map[]
  }

  lemma {:induction false} HoldsStored(limits: Limits, ops: seq<Op>)
    ensures var (st, answers) := RunStore(limits, EMPTY_STORE, ops);
      st.items == StoredBy(ops, answers) && st.bytes == BytesIn(st.items)
  {
    hide BytesIn, PutOutcome;
    NoBytes();
    if ops != [] {
      var n := |ops| - 1;
      var (before, answers) := RunStore(limits, EMPTY_STORE, ops[..n]);
      HoldsStored(limits, ops[..n]);
      HoldsNext(limits, before, ops[n]);
      assert RunStore(limits, EMPTY_STORE, ops).1[..n] == answers;
    }
  }

  lemma HoldsNext(limits: Limits, st: Store, op: Op)
    requires st.bytes == BytesIn(st.items)
    ensures var st' := StepStore(limits, st, op).0; st'.bytes == BytesIn(st'.items)
  {
    hide BytesIn, Put, Take;
    NoBytes();
    match op
    case Keep(n, payload) => if n !in st.items { PutBytes(st, n, payload); }
    case Fetch(n) => if n in st.items { TakeBytes(st, n); }
    case Clear =>
  }

  // Space comes first: a slot that does not fit is refused whether or not its number is stored.
  // Otherwise a stored number is a duplicate, and a new one needs a free slot.
  lemma KeepAnswers(limits: Limits, ops: seq<Op>, n: int, payload: seq<byte>) returns (r: PushResult)
    ensures var answers := RunStore(limits, EMPTY_STORE, ops).1;
      var items := StoredBy(ops, answers);
      var kept := KeptSinceEmpty(limits, ops);
      var noRoom := BytesIn(items) + |payload| > limits.maxBytes
        || (if payload == [] then kept - BytesIn(items) else kept) >= limits.maxBytes;
      && RunStore(limits, EMPTY_STORE, ops + [Keep(n, payload)]).1 == answers + [Kept(r)]
      && (r == Duplicate <==> !noRoom && n in items)
      && (r == NoSpaceLeft <==> noRoom || (n !in items && |items| >= limits.maxSlots))
      && (r == Pushed <==> !noRoom && n !in items && |items| < limits.maxSlots)
  {
    AppendedIsKept(limits, ops);
    HoldsStored(limits, ops);
    OneMoreOp(limits, ops, Keep(n, payload));
    hide RunStore, KeptSinceEmpty, StoredBy, BytesIn;
    r := StepStore(limits, RunStore(limits, EMPTY_STORE, ops).0, Keep(n, payload)).1.result;
  }

  // A fetch returns the bytes kept under the number, or finds it missing.
  lemma FetchAnswers(limits: Limits, ops: seq<Op>, n: int)
    ensures var answers := RunStore(limits, EMPTY_STORE, ops).1;
      var items := StoredBy(ops, answers);
      RunStore(limits, EMPTY_STORE, ops + [Fetch(n)]).1 ==
        answers + [if n in items then Fetched(items[n]) else Missing]
  {
    HoldsStored(limits, ops);
    OneMoreOp(limits, ops, Fetch(n));
    hide RunStore, StoredBy, BytesIn;
  }

  // The input of a slot sent twice to a sequencer that has room for it once.
  lemma RefusedThoughStored(x: byte, y: byte)
    ensures var ops := [] + [Keep(5, [x, y])] + [Keep(5, [x, y])];
      RunStore(Limits(9, 3), EMPTY_STORE, ops).1 == [Kept(Pushed), Kept(NoSpaceLeft)]
  {
    hide RunStore;
    var limits := Limits(9, 3);
    StartStore(limits);
    OneMoreOp(limits, [], Keep(5, [x, y]));
    OneMoreOp(limits, [] + [Keep(5, [x, y])], Keep(5, [x, y]));
  }

  // At the end of any run, a new slot within both limits is refused exactly when the bytes kept since
  // the store was last empty, or for an empty slot those of them that are gone again, have reached
  // the byte limit.
  lemma RefusedIff(limits: Limits, ops: seq<Op>, n: int, payload: seq<byte>)
    requires var st := RunStore(limits, EMPTY_STORE, ops).0;
      n !in st.items && |st.items| < limits.maxSlots && st.bytes + |payload| <= limits.maxBytes
    ensures var (st, answers) := RunStore(limits, EMPTY_STORE, ops);
      var kept := KeptSinceEmpty(limits, ops);
      RunStore(limits, EMPTY_STORE, ops + [Keep(n, payload)]).1 == answers +
        [Kept(if (if payload == [] then kept - st.bytes else kept) >= limits.maxBytes then NoSpaceLeft else Pushed)]
  {
    AppendedIsKept(limits, ops);
    OneMoreOp(limits, ops, Keep(n, payload));
    hide RunStore, KeptSinceEmpty;
  }

  // Two bytes are stored and the first is fetched again: another one would fit, and is refused.
  lemma RefusedThoughItFits(x: byte, y: byte, z: byte)
    ensures var ops := [] + [Keep(1, [x])] + [Keep(2, [y])] + [Fetch(1)] + [Keep(3, [z])];
      var (st, answers) := RunStore(Limits(9, 2), EMPTY_STORE, ops);
      st.bytes == 1 && |st.items| == 1 && |answers| == 4 && answers[3] == Kept(NoSpaceLeft)
  {
    hide RunStore;
    var limits := Limits(9, 2);
    var one: seq<Op> := [] + [Keep(1, [x])];
    var two := one + [Keep(2, [y])];
    var three := two + [Fetch(1)];
    StartStore(limits);
    OneMoreOp(limits, [], Keep(1, [x]));
    OneMoreOp(limits, one, Keep(2, [y]));
    OneMoreOp(limits, two, Fetch(1));
    OneMoreOp(limits, three, Keep(3, [z]));
    var none: map<int, seq<byte>> := map[];
    assert none[1 := [x]] == map[1 := [x]] && map[1 := [x]][2 := [y]] == map[1 := [x], 2 := [y]];
    assert RunStore(limits, EMPTY_STORE, one).0 == Store(map[1 := [x]], 1, 1);
    assert RunStore(limits, EMPTY_STORE, two).0 == Store(map[1 := [x], 2 := [y]], 2, 2);
    assert map[1 := [x], 2 := [y]] - {1} == map[2 := [y]] && 2 in map[2 := [y]];
    assert RunStore(limits, EMPTY_STORE, three).0 == Store(map[2 := [y]], 1, 2);
  }

  lemma StartStore(limits: Limits)
    ensures RunStore(limits, EMPTY_STORE, []) == (EMPTY_STORE, [])
  {}

  // Bytes arrive in the read area of a buffer that has nothing else to read.
  method Arrive(s: SlotSequencer, b: ByteBuffer, payload: seq<byte>)
    requires Linked(s, b) && b.Readable() == [] && b.Written() == []
    modifies b, b.data
    ensures Linked(s, b) && b.Readable() == payload && b.Written() == []
    ensures b.data == old(b.data) || fresh(b.data)
    ensures Contents(s, b) == old(Contents(s, b))
  {
    hide ByteBuffer.Intact, Represents, Layout, StoreOf, Ascending, SumLengths, LiveLen, ToMap;
    var k := b.Write(payload);
    assert b.Written() == payload;
    b.Commit(k);
    assert b.Readable() == payload;
  }

  method Wipe(s: SlotSequencer, b: ByteBuffer)
    requires Linked(s, b)
    modifies s, s.container, s.offsetter.tree, s.offsetter.tree.data, b, b.data
    ensures Linked(s, b) && b.data == old(b.data) && Contents(s, b) == EMPTY_STORE
    ensures b.Readable() == old(b.Readable()) && b.Written() == old(b.Written())
  {
    s.Reset();
    b.DiscardAll();
  }

  // One step of the real thing.
  method Step(s: SlotSequencer, b: ByteBuffer, op: Op) returns (answer: Answer)
    requires Linked(s, b) && b.Valid() && b.Readable() == [] && b.Written() == []
    modifies s, s.container, s.offsetter.tree, s.offsetter.tree.data, b, b.data
    ensures Linked(s, b) && b.Valid() && b.Readable() == [] && b.Written() == []
    ensures b.data == old(b.data) || fresh(b.data)
    ensures (Contents(s, b), answer) == StepStore(s.limits, old(Contents(s, b)), op)
  {
    hide ByteBuffer.Intact, Represents, Layout, StoreOf, Ascending, SumLengths, LiveLen, ToMap, PutOutcome, Put, Take;
    match op
    case Keep(n, payload) =>
      Arrive(s, b, payload);
      var r := SaveAndPush(s, b, n);
      answer := Kept(r);
    case Fetch(n) =>
      var bytes, ok := PopAndDiscard(s, b, n);
      answer := if ok then Fetched(bytes) else Missing;
    case Clear =>
      Wipe(s, b);
      answer := Cleared;
  }

  // Every run of the sequencer over a buffer answers as the table does.
  method Run(maxSlots: nat, maxBytes: nat, ops: seq<Op>) returns (answers: seq<Answer>)
    ensures answers == RunStore(Limits(maxSlots, maxBytes), EMPTY_STORE, ops).1
  {
    hide ByteBuffer.Valid, ByteBuffer.Saved, ByteBuffer.Readable, ByteBuffer.Written;
    hide SlotSequencer.Valid, SlotSequencer.Model, StepStore, Linked, Contents, RunStore;
    var s, b := Start(maxSlots, maxBytes);
    answers := [];
    StartStore(s.limits);
    assert ops[..0] == [];
    for i := 0 to |ops|
      invariant fresh(s) && fresh(s.container) && fresh(s.offsetter.tree) && fresh(s.offsetter.tree.data)
      invariant fresh(b) && fresh(b.data)
      invariant Linked(s, b) && b.Valid() && b.Readable() == [] && b.Written() == []
      invariant s.limits == Limits(maxSlots, maxBytes)
      invariant (Contents(s, b), answers) == RunStore(s.limits, EMPTY_STORE, ops[..i])
    {
      OneMoreOp(s.limits, ops[..i], ops[i]);
      assert ops[..i] + [ops[i]] == ops[..i + 1];
      var answer := Step(s, b, ops[i]);
      answers := answers + [answer];
    }
    assert ops[..|ops|] == ops;
  }

  method Start(maxSlots: nat, maxBytes: nat) returns (s: SlotSequencer, b: ByteBuffer)
    ensures fresh(s) && fresh(s.container) && fresh(s.offsetter.tree) && fresh(s.offsetter.tree.data)
    ensures fresh(b) && fresh(b.data) && s.limits == Limits(maxSlots, maxBytes)
    ensures Linked(s, b) && b.Valid() && b.Readable() == [] && b.Written() == [] && Contents(s, b) == EMPTY_STORE
  {
    hide ByteBuffer.Valid, ByteBuffer.Saved, ByteBuffer.Readable, ByteBuffer.Written;
    hide SlotSequencer.Valid, SlotSequencer.Model;
    b := new ByteBuffer();
    s := new SlotSequencer(maxSlots, maxBytes);
  }
}
