/** examples/sequencing/receiver/fenwick_proc.go: reorders packets by leaving their bytes in the
    save area of the receive buffer, tracked by a SlotSequencer. */
module FenwickProcessors {
  import opened Bytes
  import opened ByteBuffers
  import opened Delivery
  import opened SequencedSlotsModel
  import opened SlotSequencers
  import opened SlotStorage
  import opened FenwickTrees
  import opened SlotLayout
  import opened SlotArena
  import opened SortedTables

  // ---- The receiver over a plain store ----

  datatype Receiver = Receiver(expected: int, store: Store)

  datatype Arrived = Full | Running(receiver: Receiver)

  lemma TakeItems(st: Store, n: int)
    requires n in st.items
    ensures Take(st, n).items == st.items - {n} && |Take(st, n).items| < |st.items|
  {
    assert (st.items - {n}).Keys == st.items.Keys - {n};
  }

  // All stored packets that follow on are delivered.
  ghost function Walked(r: Receiver): Receiver
    decreases |r.store.items|
  {
    if r.expected in r.store.items then
      TakeItems(r.store, r.expected);
      Walked(Receiver(r.expected + 1, Take(r.store, r.expected)))
    else r
  }

  // One arrival. The receiver is full when it has to store a packet and finds no space.
  ghost function OnArrival(r: Receiver, limits: Limits, p: Packet): Arrived {
    if p.number < r.expected then Running(r)
    else if p.number == r.expected then Running(Walked(r.(expected := r.expected + 1)))
    else match PutOutcome(r.store, limits, p.number, p.payload)
      case NoSpaceLeft => Full
      case Duplicate => Running(r)
      case Pushed => Running(r.(store := Put(r.store, p.number, p.payload)))
  }

  class FenwickProcessor {
    var expected: int
    const sequencer: SlotSequencer

    ghost predicate Ready(b: ByteBuffer)
      reads this, sequencer, sequencer.container, sequencer.offsetter.tree, sequencer.offsetter.tree.data, b, b.data
    {
      Linked(sequencer, b)
    }

    ghost function State(b: ByteBuffer): Receiver
      requires Ready(b)
      reads this, sequencer, sequencer.container, sequencer.offsetter.tree, sequencer.offsetter.tree.data, b, b.data
    {
      Receiver(expected, Contents(sequencer, b))
    }

    ghost predicate Tracking(b: ByteBuffer, xs: seq<Packet>, delivered: seq<Packet>)
      reads this, sequencer, sequencer.container, sequencer.offsetter.tree, sequencer.offsetter.tree.data, b, b.data
    {
      Ready(b) && Tracks(xs, expected, State(b).store.items, delivered)
    }

    constructor (maxSlots: nat, maxBytes: nat)
      ensures expected == 1 && fresh(sequencer) && sequencer.Valid() && sequencer.bytes == 0
      ensures fresh(sequencer.container) && fresh(sequencer.offsetter.tree) && fresh(sequencer.offsetter.tree.data)
      ensures sequencer.limits == Limits(maxSlots, maxBytes) && sequencer.Model([]) == EMPTY_STORE
    {
      expected := 1;
      sequencer := new SlotSequencer(maxSlots, maxBytes);
    }

    // `xs` and `delivered` are the arrivals and deliveries so far. The packet's bytes are the read
    // area. The source panics when the sequencer has no space for an early packet.
    method Process(number: int, b: ByteBuffer, ghost xs: seq<Packet>, ghost delivered: seq<Packet>)
      returns (out: seq<Packet>, discarded: nat, panicked: bool)
      requires Tracking(b, xs, delivered)
      modifies this, sequencer, sequencer.container, sequencer.offsetter.tree, sequencer.offsetter.tree.data, b, b.data
      ensures panicked == OnArrival(old(State(b)), sequencer.limits, Packet(number, old(b.Readable()))).Full?
      ensures !panicked ==>
        && Tracking(b, xs + [Packet(number, old(b.Readable()))], delivered + out)
        && OnArrival(old(State(b)), sequencer.limits, Packet(number, old(b.Readable()))) == Running(State(b))
      ensures !panicked ==> b.Readable() == [] && b.Written() == old(b.Written())
      ensures b.data == old(b.data) && discarded == Max(0, |out| - 1)
    {
      hide Tracks, StoreOf, PutOutcome, Layout, Represents, Ascending, SumLengths, LiveLen, Total, Walked;
      hide ByteBuffer.Intact;
      out, discarded, panicked := [], 0, false;
      assert delivered + out == delivered;
      if number < expected {
        Ignore(number, b, xs, delivered);
      } else if number == expected {
        out, discarded := Live(number, b, xs, delivered);
      } else {
        panicked := AddToBuffer(number, b, xs, delivered);
      }
    }

    // A packet that was delivered before.
    method Ignore(number: int, b: ByteBuffer, ghost xs: seq<Packet>, ghost delivered: seq<Packet>)
      requires Tracking(b, xs, delivered) && number < expected
      modifies b, b.data
      ensures Tracking(b, xs + [Packet(number, old(b.Readable()))], delivered) && State(b) == old(State(b))
      ensures b.Readable() == [] && b.Written() == old(b.Written()) && b.data == old(b.data)
    {
      hide ByteBuffer.Intact, Tracks, SlotSequencer.Valid, SlotSequencer.Model;
      ArriveKnown(xs, Packet(number, b.Readable()), expected, State(b).store.items, delivered);
      b.Consume(b.ri - b.si);
    }

    method Live(number: int, b: ByteBuffer, ghost xs: seq<Packet>, ghost delivered: seq<Packet>)
      returns (out: seq<Packet>, discarded: nat)
      requires Tracking(b, xs, delivered) && number == expected
      modifies this, sequencer, sequencer.container, sequencer.offsetter.tree, sequencer.offsetter.tree.data, b, b.data
      ensures Tracking(b, xs + [Packet(number, old(b.Readable()))], delivered + out)
      ensures State(b) == Walked(old(State(b)).(expected := old(expected) + 1))
      ensures b.Readable() == [] && b.Written() == old(b.Written()) && b.data == old(b.data)
      ensures discarded == |out| - 1
    {
      hide Tracks, Walking, StoreOf, Layout, Represents, Ascending, SumLengths, LiveLen, Total, Walked;
      hide ByteBuffer.Intact;
      var payload := b.Data();
      var p := Packet(number, payload);
      ArriveExpected(xs, p, expected, State(b).store.items, delivered);
      expected := expected + 1;
      var more;
      more, discarded := WalkBuffer(b, xs + [p], delivered + [p]);
      out := [p] + more;
      assert delivered + [p] + more == delivered + out;
      b.Consume(b.ri - b.si);
    }

    method WalkBuffer(b: ByteBuffer, ghost xs: seq<Packet>, ghost delivered: seq<Packet>)
      returns (out: seq<Packet>, discarded: nat)
      requires Ready(b) && Walking(xs, expected, State(b).store.items, delivered)
      modifies this, sequencer, sequencer.container, sequencer.offsetter.tree, sequencer.offsetter.tree.data, b, b.data
      ensures Tracking(b, xs, delivered + out) && State(b) == Walked(old(State(b)))
      ensures b.Readable() == old(b.Readable()) && b.Written() == old(b.Written()) && b.data == old(b.data)
      ensures discarded == |out|
    {
      hide ByteBuffer.Intact, Walking, StoreOf, Layout, Represents, Ascending, Take, SumLengths, LiveLen, Total;
      out, discarded := [], 0;
      assert delivered + out == delivered;
      while true
        invariant Ready(b) && Walking(xs, expected, State(b).store.items, delivered + out)
        invariant Walked(State(b)) == Walked(old(State(b)))
        invariant b.Readable() == old(b.Readable()) && b.Written() == old(b.Written()) && b.data == old(b.data)
        invariant discarded == |out|
        decreases |State(b).store.items|
      {
        ghost var st := State(b).store;
        var bytes, ok := PopAndDiscard(sequencer, b, expected);
        if !ok { break; }
        TakeItems(st, expected);
        WalkOne(xs, expected, st.items, delivered + out);
        assert delivered + out + [Packet(expected, bytes)] == delivered + (out + [Packet(expected, bytes)]);
        out := out + [Packet(expected, bytes)];
        expected := expected + 1;
        discarded := discarded + 1;
      }
    }

    method AddToBuffer(number: int, b: ByteBuffer, ghost xs: seq<Packet>, ghost delivered: seq<Packet>)
      returns (panicked: bool)
      requires Tracking(b, xs, delivered) && number > expected
      modifies sequencer, sequencer.container, sequencer.offsetter.tree, sequencer.offsetter.tree.data, b, b.data
      ensures Ready(b)
      ensures panicked == OnArrival(old(State(b)), sequencer.limits, Packet(number, old(b.Readable()))).Full?
      ensures !panicked ==>
        && Tracking(b, xs + [Packet(number, old(b.Readable()))], delivered)
        && OnArrival(old(State(b)), sequencer.limits, Packet(number, old(b.Readable()))) == Running(State(b))
      ensures b.Readable() == [] && b.Written() == old(b.Written()) && b.data == old(b.data)
    {
      hide ByteBuffer.Intact, Tracks, StoreOf, PutOutcome, Layout, Represents, Ascending, SumLengths, LiveLen, Total;
      ghost var st, p := State(b).store, Packet(number, b.Readable());
      Outcomes(st, sequencer.limits, number, p.payload);
      var r := SaveAndPush(sequencer, b, number);
      panicked := r.NoSpaceLeft?;
      if r.Pushed? {
        ArriveEarly(xs, p, expected, st.items, delivered);
      } else if r.Duplicate? {
        ArriveKnown(xs, p, expected, st.items, delivered);
      }
    }
  }

  lemma Outcomes(st: Store, limits: Limits, n: int, payload: seq<byte>)
    ensures PutOutcome(st, limits, n, payload).Pushed? ==> n !in st.items
    ensures PutOutcome(st, limits, n, payload).Duplicate? ==> n in st.items
  {}
}
