/** The byte stream under a codec connection. What the peer sends is fixed in advance, how
    much each call moves and which calls fail is scripted, so that "for every script" means
    "for every way the network may split and interrupt the stream". */
module Transports {
  import opened Bytes

  datatype ReadStep = ReadUpTo(count: nat) | ReadFails
  datatype WriteStep = WriteUpTo(count: nat) | WriteFails(partial: nat)

  datatype IOError = EOF | Failed

  datatype ReadResult = Read(bytes: seq<byte>) | ReadError(error: IOError)
  datatype WriteResult = Wrote(count: nat) | WriteError

  // The number of reads a script makes fail.
  function Failures(script: seq<ReadStep>): nat {
    if script == [] then 0 else (if script[0].ReadFails? then 1 else 0) + Failures(script[1..])
  }

  // A script that only splits the stream.
  lemma {:induction false} OnlySplits(script: seq<ReadStep>)
    requires forall i :: 0 <= i < |script| ==> script[i].ReadUpTo?
    ensures Failures(script) == 0
  {
    if script != [] { OnlySplits(script[1..]); }
  }

  // What is left of a script after a read that failed or not.
  ghost predicate Spent(before: seq<ReadStep>, failed: bool, after: seq<ReadStep>) {
    Failures(before) == Failures(after) + if failed then 1 else 0
  }

  // The number of writes a script makes fail.
  function WriteFailures(script: seq<WriteStep>): nat {
    if script == [] then 0 else (if script[0].WriteFails? then 1 else 0) + WriteFailures(script[1..])
  }

  // What is left of a script after writing that failed or not.
  ghost predicate WritesSpent(before: seq<WriteStep>, failed: bool, after: seq<WriteStep>) {
    WriteFailures(before) == WriteFailures(after) + if failed then 1 else 0
  }

  class Transport {
    var incoming: seq<byte>      // sent by the peer, not yet read
    var readScript: seq<ReadStep>     // behaviour of the coming reads; afterwards reads are maximal
    var sent: seq<byte>          // everything written so far
    var writeScript: seq<WriteStep>   // behaviour of the coming writes; afterwards writes are complete

    constructor (incoming: seq<byte>, readScript: seq<ReadStep>, writeScript: seq<WriteStep>)
      ensures this.incoming == incoming && this.readScript == readScript
      ensures this.sent == [] && this.writeScript == writeScript
    {
      this.incoming, this.readScript, this.sent, this.writeScript := incoming, readScript, [], writeScript;
    }

    // One read into a buffer of `room` bytes: at least one byte if there is room and anything
    // left, end of file once the peer's bytes are used up, or an error that moves nothing.
    method ReadSome(room: nat) returns (r: ReadResult)
      modifies `incoming, `readScript
      ensures r.Read? ==> |r.bytes| <= room && old(incoming) == r.bytes + incoming
      ensures r.Read? && room > 0 ==> |r.bytes| > 0
      ensures r.ReadError? ==> incoming == old(incoming) && room > 0
      ensures r == ReadError(EOF) ==> incoming == []
      ensures Spent(old(readScript), r == ReadError(Failed), readScript)
    {
      if room == 0 {
        return Read([]);
      }
      var step := if readScript == [] then ReadUpTo(room) else readScript[0];
      if readScript != [] { readScript := readScript[1..]; }
      if step.ReadFails? {
        return ReadError(Failed);
      }
      if incoming == [] {
        return ReadError(EOF);
      }
      var n := Max(1, Min(step.count, Min(room, |incoming|)));
      r := Read(incoming[..n]);
      incoming := incoming[n..];
    }

    // One write: a non-empty prefix of the bytes, or an error after some of them went out.
    method WriteSome(bytes: seq<byte>) returns (r: WriteResult)
      requires bytes != []
      modifies `sent, `writeScript
      ensures r.Wrote? ==> 0 < r.count <= |bytes| && sent == old(sent) + bytes[..r.count]
      ensures r.WriteError? ==> exists k: nat :: k < |bytes| && sent == old(sent) + bytes[..k]
      ensures WritesSpent(old(writeScript), r.WriteError?, writeScript)
    {
      var step := if writeScript == [] then WriteUpTo(|bytes|) else writeScript[0];
      if writeScript != [] { writeScript := writeScript[1..]; }
      match step
      case WriteUpTo(count) =>
        var n := Max(1, Min(count, |bytes|));
        r := Wrote(n);
        sent := sent + bytes[..n];
      case WriteFails(partial) =>
        var n := Max(0, Min(partial, |bytes| - 1));
        r := WriteError;
        sent := sent + bytes[..n];
        ghost var k: nat := n;
        assert k < |bytes| && sent == old(sent) + bytes[..k];
    }
  }
}
