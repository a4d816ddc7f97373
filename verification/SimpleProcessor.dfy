/** examples/sequencing/receiver/simple_proc.go: reorders packets by keeping copies of them in
    a sorted list. */
module SimpleProcessors {
  import opened Bytes
  import opened ByteBuffers
  import opened SortedTables
  import opened Delivery

  class SimpleProcessor {
    var expected: int
    var buffer: seq<Entry<seq<byte>>>

    ghost predicate Valid()
      reads this
    {
      Ascending(buffer)
    }

    ghost predicate Tracking(xs: seq<Packet>, delivered: seq<Packet>)
      reads this
    {
      Valid() && Tracks(xs, expected, ToMap(buffer), delivered)
    }

    constructor ()
      ensures Tracking([], [])
    {
      expected := 1;
      buffer := [];
      StartTracking();
    }

    // `xs` and `delivered` are the arrivals and deliveries so far.
    method Process(number: int, payload: seq<byte>, b: ByteBuffer, ghost xs: seq<Packet>, ghost delivered: seq<Packet>)
      returns (out: seq<Packet>)
      requires Tracking(xs, delivered) && b.Valid()
      modifies this, b, b.data
      ensures Tracking(xs + [Packet(number, payload)], delivered + out)
      ensures b.Valid() && b.data == old(b.data) && b.Readable() == []
      ensures b.Saved() == old(b.Saved()) && b.Written() == old(b.Written())
    {
      ghost var p := Packet(number, payload);
      out := [];
      if number < expected {
        ArriveKnown(xs, p, expected, ToMap(buffer), delivered);
        assert delivered + out == delivered;
      } else if number == expected {
        ArriveExpected(xs, p, expected, ToMap(buffer), delivered);
        expected := expected + 1;
        out := [Packet(number, payload)];
        var more := WalkBuffer(xs + [p], delivered + out);
        assert delivered + out + more == delivered + (out + more);
        out := out + more;
      } else {
        AddToBuffer(number, payload, xs, delivered);
        assert delivered + out == delivered;
      }
      b.Consume(b.ri - b.si);
    }

    method AddToBuffer(number: int, payload: seq<byte>, ghost xs: seq<Packet>, ghost delivered: seq<Packet>)
      requires Tracking(xs, delivered) && number > expected
      modifies this
      ensures Tracking(xs + [Packet(number, payload)], delivered)
    {
      var ix := Search(buffer, number);
      Lookup(buffer, number, ix);
      ghost var p := Packet(number, payload);
      if ix >= |buffer| || buffer[ix].key != number {
        var e := Entry(number, payload);
        ArriveEarly(xs, p, expected, ToMap(buffer), delivered);
        InsertAscending(buffer, ix, e);
        InsertMap(buffer, ix, e);
        buffer := Inserted(buffer, ix, e);
      } else {
        ArriveKnown(xs, p, expected, ToMap(buffer), delivered);
      }
    }

    // One pass over the list: deliver what continues the run, keep the rest.
    method WalkBuffer(ghost xs: seq<Packet>, ghost delivered: seq<Packet>) returns (out: seq<Packet>)
      requires Ascending(buffer) && Walking(xs, expected, ToMap(buffer), delivered)
      modifies this
      ensures Tracking(xs, delivered + out)
    {
      hide Walking, ToMap;
      var kept: seq<Entry<seq<byte>>> := [];
      out := [];
      assert delivered + out == delivered;
      for i := 0 to |buffer|
        invariant buffer == old(buffer)
        invariant 0 <= |out| <= i && kept == buffer[|out|..i]
        invariant Walking(xs, expected, ToMap(buffer[|out|..]), delivered + out)
        invariant kept != [] ==> expected < kept[0].key
      {
        var entry := buffer[i];
        ghost var k := |out|;
        NextIs(xs, expected, buffer, k, delivered + out);
        if entry.key == expected {
          assert kept == [];
          expected := expected + 1;
          out := out + [Packet(entry.key, entry.value)];
          assert delivered + out == delivered + out[..k] + [Packet(entry.key, entry.value)];
        } else {
          kept := kept + [entry];
        }
      }
      assert kept == buffer[|out|..];
      EndOfWalk(kept, expected);
      buffer := kept;
    }
  }

  // The first pending entry is at or beyond the expected number, and delivering it continues the walk.
  lemma NextIs(xs: seq<Packet>, expected: int, s: seq<Entry<seq<byte>>>, k: nat, d: seq<Packet>)
    requires Ascending(s) && k < |s| && Walking(xs, expected, ToMap(s[k..]), d)
    ensures s[k].key >= expected
    ensures s[k].key == expected ==> Walking(xs, expected + 1, ToMap(s[k + 1..]), d + [Packet(s[k].key, s[k].value)])
  {
    Head(s[k..]);
    assert s[k..][1..] == s[k + 1..];
    if s[k].key == expected { WalkOne(xs, expected, ToMap(s[k..]), d); }
  }

  lemma EndOfWalk(kept: seq<Entry<seq<byte>>>, expected: int)
    requires Ascending(kept) && (kept != [] ==> expected < kept[0].key)
    ensures expected !in ToMap(kept)
  {
    Lookup(kept, expected, 0);
  }
}
