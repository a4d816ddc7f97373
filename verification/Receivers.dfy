/** Whole runs of the two receivers on any sequence of arrivals. */
module Receivers {
  import opened ByteBuffers
  import opened Delivery
  import opened SequencedSlotsModel
  import opened SlotSequencers
  import opened SlotStorage
  import opened SlotArena
  import opened SlotLayout
  import opened FenwickTrees
  import opened SortedTables
  import opened FenwickProcessors
  import opened SimpleProcessors

  method SimpleStep(p: SimpleProcessor, b: ByteBuffer, xs: seq<Packet>, i: nat, delivered: seq<Packet>)
    returns (out: seq<Packet>)
    requires i < |xs| && p.Tracking(xs[..i], delivered)
    requires b.Valid() && b.Readable() == [] && b.Written() == []
    modifies p, b, b.data
    ensures p.Tracking(xs[..i + 1], delivered + out)
    ensures b.Valid() && b.Readable() == [] && b.Written() == []
    ensures b.data == old(b.data) || fresh(b.data)
  {
    hide Tracks;
    var k := b.Write(xs[i].payload);
    b.Commit(k);
    out := p.Process(xs[i].number, xs[i].payload, b, xs[..i], delivered);
    assert xs[..i + 1] == xs[..i] + [Packet(xs[i].number, xs[i].payload)];
  }

  method RunSimple(xs: seq<Packet>) returns (delivered: seq<Packet>)
    ensures InOrder(xs, delivered)
  {
    var p := new SimpleProcessor();
    var b := new ByteBuffer();
    delivered := [];
    for i := 0 to |xs|
      invariant fresh(p) && fresh(b) && fresh(b.data)
      invariant p.Tracking(xs[..i], delivered)
      invariant b.Valid() && b.Readable() == [] && b.Written() == []
    {
      var out := SimpleStep(p, b, xs, i, delivered);
      delivered := delivered + out;
    }
    assert xs[..|xs|] == xs;
    TracksInOrder(xs, p.expected, ToMap(p.buffer), delivered);
  }

  ghost function TotalBytes(xs: seq<Packet>): nat {
    if xs == [] then 0 else TotalBytes(xs[..|xs| - 1]) + |xs[|xs| - 1].payload|
  }

  lemma {:induction false} TotalMonotone(xs: seq<Packet>, i: nat)
    requires i <= |xs|
    ensures TotalBytes(xs[..i]) <= TotalBytes(xs)
    decreases |xs|
  {
    if i < |xs| {
      TotalMonotone(xs[..|xs| - 1], i);
      assert xs[..|xs| - 1][..i] == xs[..i];
    } else {
      assert xs[..i] == xs;
    }
  }

  // ---- When the sequencer runs out of space ----

  const START := Receiver(1, EMPTY_STORE)

  // The Fenwick receiver, as a plain store, after the arrivals; Full from the arrival on that finds
  // no space.
  ghost function After(limits: Limits, xs: seq<Packet>): Arrived {
    if xs == [] then Running(START)
    else match After(limits, xs[..|xs| - 1])
      case Full => Full
      case Running(r) => OnArrival(r, limits, xs[|xs| - 1])
  }

  lemma AfterNext(limits: Limits, xs: seq<Packet>, i: nat, r: Receiver)
    requires i < |xs| && After(limits, xs[..i]) == Running(r)
    ensures After(limits, xs[..i + 1]) == OnArrival(r, limits, xs[i])
  {
    assert xs[..i + 1][..i] == xs[..i];
  }

  lemma {:induction false} WalkedBytes(r: Receiver)
    requires r.store.bytes == BytesIn(r.store.items)
    ensures Walked(r).store.bytes == BytesIn(Walked(r).store.items)
    decreases |r.store.items|
  {
    hide BytesIn, Take;
    if r.expected in r.store.items {
      TakeItems(r.store, r.expected);
      TakeBytes(r.store, r.expected);
      WalkedBytes(Receiver(r.expected + 1, Take(r.store, r.expected)));
    }
  }

  lemma {:induction false} BytesAfter(limits: Limits, xs: seq<Packet>)
    ensures var a := After(limits, xs); a.Running? ==> a.receiver.store.bytes == BytesIn(a.receiver.store.items)
  {
    hide BytesIn, Walked, Put;
    NoBytes();
    if xs != [] {
      var n := |xs| - 1;
      BytesAfter(limits, xs[..n]);
      var before := After(limits, xs[..n]);
      if before.Running? {
        var (r, p) := (before.receiver, xs[n]);
        if p.number == r.expected {
          WalkedBytes(r.(expected := r.expected + 1));
        } else if p.number > r.expected {
          HoldsNext(limits, r.store, Keep(p.number, p.payload));
        }
      }
    }
  }

  // The receiver gives up exactly at an early packet that finds no space, be it a packet it has
  // stored already.
  lemma FullIff(limits: Limits, xs: seq<Packet>, p: Packet)
    requires After(limits, xs).Running?
    ensures var Receiver(expected, Store(items, _, kept)) := After(limits, xs).receiver;
      var noRoom := BytesIn(items) + |p.payload| > limits.maxBytes
        || (if p.payload == [] then kept - BytesIn(items) else kept) >= limits.maxBytes;
      var noSlot := p.number !in items && |items| >= limits.maxSlots;
      After(limits, xs + [p]).Full? <==> p.number > expected && (noRoom || noSlot)
  {
    hide BytesIn, Walked, Put;
    BytesAfter(limits, xs);
    assert (xs + [p])[..|xs|] == xs;
  }

  // All arrivals together fit the limits.
  ghost predicate Fit(limits: Limits, xs: seq<Packet>) {
    |xs| <= limits.maxSlots && TotalBytes(xs) < limits.maxBytes
  }

  // At most n entries and the given number of bytes went into the store.
  ghost predicate Holds(st: Store, n: nat, bytes: nat) {
    |st.items| <= n && st.bytes <= st.appended <= bytes
  }

  lemma {:induction false} WalkedHolds(r: Receiver, n: nat, bytes: nat)
    requires Holds(r.store, n, bytes)
    ensures Holds(Walked(r).store, n, bytes)
    decreases |r.store.items|
  {
    if r.expected in r.store.items {
      TakeItems(r.store, r.expected);
      WalkedHolds(Receiver(r.expected + 1, Take(r.store, r.expected)), n, bytes);
    }
  }

  lemma ArrivalHolds(r: Receiver, limits: Limits, p: Packet, n: nat, bytes: nat)
    requires Holds(r.store, n, bytes) && n < limits.maxSlots && bytes + |p.payload| < limits.maxBytes
    ensures var a := OnArrival(r, limits, p); a.Running? && Holds(a.receiver.store, n + 1, bytes + |p.payload|)
  {
    hide Walked;
    if p.number == r.expected {
      WalkedHolds(r.(expected := r.expected + 1), n, bytes);
    } else if p.number > r.expected {
      assert Put(r.store, p.number, p.payload).items.Keys == r.store.items.Keys + {p.number};
    }
  }

  // Space cannot run out while all arrivals together fit.
  lemma {:induction false} FitHasSpace(limits: Limits, xs: seq<Packet>)
    requires Fit(limits, xs)
    ensures var a := After(limits, xs); a.Running? && Holds(a.receiver.store, |xs|, TotalBytes(xs))
  {
    if xs != [] {
      var n := |xs| - 1;
      FitHasSpace(limits, xs[..n]);
      hide After;
      AfterNext(limits, xs, n, After(limits, xs[..n]).receiver);
      ArrivalHolds(After(limits, xs[..n]).receiver, limits, xs[n], n, TotalBytes(xs[..n]));
      assert xs[..n + 1] == xs;
    }
  }

  // Packets that are never ahead are never stored, so any limits will do for them.
  lemma {:induction false} NeverAhead(limits: Limits, xs: seq<Packet>)
    requires forall i :: 0 <= i < |xs| ==> xs[i].number == i + 1
    ensures After(limits, xs) == Running(Receiver(|xs| + 1, EMPTY_STORE))
  {
    if xs != [] { NeverAhead(limits, xs[..|xs| - 1]); }
  }

  // ---- The Fenwick receiver ----

  // The receiver after the first i arrivals.
  ghost predicate Going(p: FenwickProcessor, b: ByteBuffer, xs: seq<Packet>, i: nat, delivered: seq<Packet>)
    reads p, p.sequencer, p.sequencer.container, p.sequencer.offsetter.tree, p.sequencer.offsetter.tree.data, b, b.data
  {
    && i <= |xs| && p.Tracking(b, xs[..i], delivered)
    && b.Readable() == [] && b.Written() == []
    && After(p.sequencer.limits, xs[..i]) == Running(p.State(b))
  }

  method FenwickStep(p: FenwickProcessor, b: ByteBuffer, xs: seq<Packet>, i: nat, delivered: seq<Packet>)
    returns (out: seq<Packet>, panicked: bool)
    requires i < |xs| && Going(p, b, xs, i, delivered)
    modifies p, p.sequencer, p.sequencer.container, p.sequencer.offsetter.tree, p.sequencer.offsetter.tree.data
    modifies b, b.data
    ensures panicked == After(p.sequencer.limits, xs[..i + 1]).Full?
    ensures !panicked ==> Going(p, b, xs, i + 1, delivered + out)
    ensures b.data == old(b.data) || fresh(b.data)
  {
    hide Tracks, StoreOf, Layout, Represents, Ascending, SumLengths, LiveLen, Total, After, OnArrival;
    hide ByteBuffer.Intact;
    var x := xs[i];
    AfterNext(p.sequencer.limits, xs, i, p.State(b));
    Arrive(p.sequencer, b, x.payload);
    var discarded;
    out, discarded, panicked := p.Process(x.number, b, xs[..i], delivered);
    assert xs[..i + 1] == xs[..i] + [Packet(x.number, x.payload)];
  }

  method StartFenwick(maxSlots: nat, maxBytes: nat, ghost xs: seq<Packet>) returns (p: FenwickProcessor, b: ByteBuffer)
    ensures fresh(p) && fresh(b) && fresh(b.data) && p.sequencer.limits == Limits(maxSlots, maxBytes)
    ensures fresh(p.sequencer) && fresh(p.sequencer.container)
    ensures fresh(p.sequencer.offsetter.tree) && fresh(p.sequencer.offsetter.tree.data)
    ensures Going(p, b, xs, 0, [])
  {
    hide ByteBuffer.Valid, ByteBuffer.Saved, ByteBuffer.Readable, ByteBuffer.Written;
    hide Going, SlotSequencer.Valid, SlotSequencer.Model;
    b := new ByteBuffer();
    p := new FenwickProcessor(maxSlots, maxBytes);
    GoingStart(p, b, xs);
  }

  lemma GoingStart(p: FenwickProcessor, b: ByteBuffer, xs: seq<Packet>)
    requires p.Ready(b) && p.State(b) == START && b.Readable() == [] && b.Written() == []
    ensures Going(p, b, xs, 0, [])
  {
    hide ByteBuffer.Intact, SlotSequencer.Valid, SlotSequencer.Model;
    StartTracking();
    assert xs[..0] == [];
  }

  // The arrivals up to the first one that finds no space are delivered in order; which one that
  // is, the plain store tells.
  method RunFenwick(maxSlots: nat, maxBytes: nat, xs: seq<Packet>) returns (delivered: seq<Packet>, processed: nat)
    ensures processed <= |xs| && InOrder(xs[..processed], delivered)
    ensures After(Limits(maxSlots, maxBytes), xs[..processed]).Running?
    ensures processed < |xs| ==> After(Limits(maxSlots, maxBytes), xs[..processed + 1]).Full?
  {
    hide *;
    var p, b := StartFenwick(maxSlots, maxBytes, xs);
    delivered, processed := [], 0;
    GoingInOrder(p, b, xs, 0, []);
    while processed < |xs|
      invariant processed <= |xs|
      invariant fresh(p) && fresh(b) && fresh(b.data) && p.sequencer.limits == Limits(maxSlots, maxBytes)
      invariant fresh(p.sequencer) && fresh(p.sequencer.container)
      invariant fresh(p.sequencer.offsetter.tree) && fresh(p.sequencer.offsetter.tree.data)
      invariant Going(p, b, xs, processed, delivered) && InOrder(xs[..processed], delivered)
      invariant After(p.sequencer.limits, xs[..processed]).Running?
      decreases |xs| - processed
    {
      var out, panicked := FenwickStep(p, b, xs, processed, delivered);
      if panicked { return; }
      delivered := delivered + out;
      processed := processed + 1;
      GoingInOrder(p, b, xs, processed, delivered);
    }
  }

  lemma GoingInOrder(p: FenwickProcessor, b: ByteBuffer, xs: seq<Packet>, i: nat, delivered: seq<Packet>)
    requires Going(p, b, xs, i, delivered)
    ensures i <= |xs| && InOrder(xs[..i], delivered) && After(p.sequencer.limits, xs[..i]).Running?
  {
    hide After;
    TracksInOrder(xs[..i], p.expected, p.State(b).store.items, delivered);
  }

  // Whatever order packets come in, with gaps and duplicates, both receivers deliver the same up to
  // the first arrival that the plain store has no space for.
  method Compare(maxSlots: nat, maxBytes: nat, xs: seq<Packet>)
    returns (simple: seq<Packet>, fenwick: seq<Packet>, processed: nat)
    ensures processed <= |xs| && simple == fenwick && InOrder(xs[..processed], simple)
    ensures After(Limits(maxSlots, maxBytes), xs[..processed]).Running?
    ensures processed < |xs| ==> After(Limits(maxSlots, maxBytes), xs[..processed + 1]).Full?
    ensures Fit(Limits(maxSlots, maxBytes), xs) ==> processed == |xs|
  {
    hide After, Fit;
    fenwick, processed := RunFenwick(maxSlots, maxBytes, xs);
    simple := RunSimple(xs[..processed]);
    InOrderUnique(xs[..processed], simple, fenwick);
    if Fit(Limits(maxSlots, maxBytes), xs) && processed < |xs| {
      FitPrefix(Limits(maxSlots, maxBytes), xs, processed + 1);
      FitHasSpace(Limits(maxSlots, maxBytes), xs[..processed + 1]);
      assert false;
    }
  }

  lemma FitPrefix(limits: Limits, xs: seq<Packet>, i: nat)
    requires Fit(limits, xs) && i <= |xs|
    ensures Fit(limits, xs[..i])
  {
    TotalMonotone(xs, i);
  }
}
