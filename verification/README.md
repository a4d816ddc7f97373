# Sonic: verified model of its four cores

Sonic is a Go library for asynchronous, callback-driven networking. Around its system calls it has four
self-contained cores, and this project models them in Dafny and proves what they are for:

1. **Out-of-order slot storage.** Bytes are saved in a `ByteBuffer` in arrival order, found again by sequence
   number and discarded in any order, and every discard moves what lies behind it. A Fenwick tree turns the address
   a slot got when it was saved into its present one. Two receivers that put packets back in order are built on top.
2. **Zero-copy ring buffers.** `BipBuffer` and `MirroredBuffer` are FIFO queues whose bytes are claimed, filled,
   committed and consumed in place.
3. **The WebSocket client** (RFC 6455): frame layout and masking, the incremental decoder, the stream's state
   machine with its queue of frames to send, and reassembly of fragmented messages.
4. **The event loop**: the epoll poller with its `pending` counter, and a timer as its client, with handlers that
   call back into both.

## How it is built

- An object that the source updates in place is a class with a `Valid()` invariant, and its methods are proved
  against an abstract value: the three areas of a `ByteBuffer`, the plain array behind a Fenwick tree, the queue of a
  ring buffer, the map of saved bytes of a sequencer, the session of a stream, the waiting handlers of the poller.
- The main results are about whole runs. A method without a `modifies` clause makes fresh objects, applies any list
  of operations to them and returns what that gave; its contract compares it with a plain reference:
  `FenwickRuns.Run`, `SlotStorage.Run`, `Receivers.Compare`, `BipBuffers.Run`, `MirroredBuffers.Run`,
  `FrameRoundTrips.Through`, `CodecConns.Run`, `LengthCodecs.Run`, `StreamRuns.Run`, `MessageReaders.Run`,
  `MessageReaders.Both`, `EventLoops.Run`.
- The network is a `Transport` with scripts that say how much each read and write moves and which of them fail, so a
  statement for all scripts is one for all ways a network may behave. `Failures` and `WriteFailures` count the failing
  reads and writes of a script; a call uses up at most one of each and reports it (`Spent`, `WritesSpent`), so a script
  of splits alone fails no call.
- Handlers and callbacks are the lists of requests they will make when they are called, so a statement for all of them
  covers every re-entrant handler.
- What a spec function says is stated a second time in other terms: `LoopLaws` says what one poll owes its clients,
  `SlotStorage.KeepAnswers` and `FetchAnswers` give the answers of a run from the calls and answers before them,
  `StreamRuns.NextEndsIff`, `WriteRefusedIff` and `WrittenIsSent` tell a session without its states, and
  `Frames.HeaderBits`, `LayoutBytes` and `Streams.JudgeBytes` tell frames by the place values of their bytes.
- Bytes are integers from 0 to 255, integers are unbounded, and `&`, `|` and `^` are defined bit by bit in `Bits`.

## What turned out not to hold

- `MirroredBuffer` wraps its indices with `& (size - 1)`, but its constructor only rounds the size to a multiple of the
  page size. The wrap is right exactly for powers of two (`MirroredBuffers.AlwaysKeptIff`); three pages are the
  smallest failing size (`MirroredBuffers.ThreePages`).
- Setting a payload on a pooled frame panics exactly when the frame is too short for the length field
  (`FrameBuffers.Frame.SetPayload`). `FrameBuffers.ShortPooledFrame` builds a frame without payload, puts it back and
  builds one with more than 65535 bytes in it, which panics; on a new frame that cannot happen
  (`FrameBuffers.NewFrameLongEnough`).
- The sequencer refuses a slot although it would fit, once the bytes pushed since it was last empty reach `maxBytes`.
  `SlotStorage.RefusedThoughItFits` is such a run, with one byte stored and a limit of two. `SlotStorage.RefusedIff`
  says exactly when a slot that fits is refused, and `Receivers.Compare` at which arrival a receiver panics for it.
- The sequencer looks at space before it looks at the number, so a packet that is stored already is not always reported
  as a duplicate: `SlotStorage.RefusedThoughStored` is such a run, `SlotStorage.KeepAnswers` gives every answer exactly,
  and `Receivers.FullIff` says exactly when the receiver panics for it.
- The note that a repeating timer is not scheduled again when its callback cancels it does not hold for a callback that
  then runs another one without delay (`LoopSpec.CancelUndone`); `LoopSpec.RepeatsIff` gives the exact condition.
- A closed timer is usable again after `Cancel`, for callbacks without delay (`LoopSpec.ReusedAfterClose`), and only
  then (`TimerTraces.DeadUntilCancel`).
- A posted handler that posts waits for a lock that its own dispatch holds. `LoopSafety.StuckRun` is such a run,
  `LoopSafety.StuckIff` says exactly when a dispatch blocks, and `LoopSafety.NeverStuck` proves that no run gets stuck
  in which, at any depth, nothing that is posted posts.

## Model

| member | source | states |
|---|---|---|
| FenwickTrees.LowIsAnd | util/fenwick_tree.go:39-45 | `i & (i + 1)` is the arithmetic lower end of node i's range, for every i |
| FenwickTrees.NextIsOr | util/fenwick_tree.go:32-37 | `i` or-ed with `i + 1` is the arithmetic parent of node i, for every i |
| FenwickTrees.NextCovers | util/fenwick_tree.go:32-37 | the parent lies strictly behind the node and its range contains the node's, so Add's loop ends and misses no node |
| FenwickTrees.NextSkips | util/fenwick_tree.go:32-37 | nodes between a node and its parent do not cover the node's index, so Add touches none too many |
| FenwickTrees.LeftSibling | util/fenwick_tree.go:18-30 | the children of a node tile its range without gap, which is why one pass builds the tree |
| FenwickTrees.BuildStep | util/fenwick_tree.go:18-30 | one step of the linear builder keeps every node equal to the sum of what has been pushed into it so far |
| FenwickTrees.AddStep | util/fenwick_tree.go:32-37 | one step of Add's climb keeps "all covering nodes below the cursor are updated, no other is" |
| FenwickTrees.FenwickTree.constructor | util/fenwick_tree.go:12-16 | an empty tree stands for an array of zeros |
| FenwickTrees.FenwickTree.From | util/fenwick_tree.go:18-30 | after the linear-time builder every node i holds the sum over [i & (i + 1), i] of the given array |
| FenwickTrees.FenwickTree.Add | util/fenwick_tree.go:32-37 | adds to one element of the array, or does nothing behind its end, and every node still holds its range's sum |
| FenwickTrees.FenwickTree.SumUntil | util/fenwick_tree.go:39-45 | the plain prefix sum up to and including the index, for every index from -1 |
| FenwickTrees.FenwickTree.SumFrom | util/fenwick_tree.go:47-49 | the plain suffix sum from the index |
| FenwickTrees.FenwickTree.Total | util/fenwick_tree.go:51-53 | the plain sum of the whole array |
| FenwickTrees.FenwickTree.SumRange | util/fenwick_tree.go:73-75 | the plain sum between two indices, and the negated sum when they are given the wrong way round |
| FenwickTrees.FenwickTree.At | util/fenwick_tree.go:55-58 | the element of the array at the index |
| FenwickTrees.FenwickTree.Clear | util/fenwick_tree.go:60-64 | returns the element and sets it to zero, nothing else |
| FenwickTrees.FenwickTree.Reset | util/fenwick_tree.go:66-71 | the array is all zeros again, with the same length |
| FenwickRuns.Step | util/fenwick_tree.go:32-75 | one operation on the tree is that operation on the plain array, with the same answer |
| FenwickRuns.Run | util/fenwick_tree.go:18-75 | every sequence of operations, with ranges either way round, gives the answers of the same sequence on a plain array |
| FenwickRuns.NodesUnique | util/fenwick_tree.go:18-37 | two node arrays that stand for the same array are equal |
| FenwickRuns.BuildTwice | util/fenwick_tree.go:18-37 | the linear builder and one Add per element leave the same node array |
| SlotArena.DeadUpTo | slot_offsetter.go:35-39 | the discarded bytes in front of a slot are exactly what its present address is behind its virtual one |
| SlotArena.DeadAll | slot_offsetter.go:43-49 | behind the last slot the discarded bytes are all bytes ever added minus those still there |
| SlotArena.KillPositions | slot_offsetter.go:35-39 | discarding a slot keeps all virtual addresses and moves the present addresses behind it down by its length |
| SlotArena.KillDead | slot_offsetter.go:35-39 | discarding a slot adds its length to the discarded bytes in front of everything behind it and nowhere else |
| SlotLayout.WhereIs | slot_offsetter.go:35-39 | the tree maps a stored slot to the start of its bytes, within the save area, and the clamp of OffsetSlot does not fire on it |
| SlotLayout.PushLayout | slot_offsetter.go:43-49 | a slot pushed at the end of the save area extends the arena and disturbs no other slot |
| SlotLayout.PushStored | slot_sequencer.go:33-46 | pushing adds exactly the new bytes under their number and keeps all others |
| SlotLayout.PopLayout | slot_offsetter.go:35-39 | recording a discard in the tree keeps the address mapping of every remaining slot |
| SlotLayout.PopStored | slot_sequencer.go:50-62 | after a pop and its discard every remaining number still addresses its own bytes in the shifted save area |
| SortedTables.Search | sequenced_slots.go:52-93 | the binary search returns the first position whose key is not smaller |
| SortedTables.Lookup | sequenced_slots.go:83-93 | that position holds the key exactly if the table has it, with its value |
| SortedTables.InsertMap | sequenced_slots.go:52-79 | inserting there is adding the key to the table |
| SortedTables.InsertAscending | sequenced_slots.go:52-79 | inserting a new key at its position keeps the list ascending without duplicates |
| SortedTables.RemoveMap | sequenced_slots.go:83-93 | deleting an entry removes exactly its key and keeps the list ascending |
| SequencedSlotsModel.SequencedSlots.Push | sequenced_slots.go:39-79 | a new number is stored unless the slots are full, a known one is a duplicate, and the list stays sorted and duplicate-free |
| SequencedSlotsModel.SequencedSlots.Pop | sequenced_slots.go:83-93 | finds and removes exactly the slot of the number, or changes nothing |
| SequencedSlotsModel.SequencedSlots.Reset | sequenced_slots.go:144-146 | no slot is left |
| SlotOffsetters.SlotOffsetter.Offset | slot_offsetter.go:35-39 | shifts the slot by the bytes discarded in front of it and records its own discard |
| SlotOffsetters.SlotOffsetter.Add | slot_offsetter.go:43-49 | gives the slot a virtual address behind everything discarded, or refuses it exactly when that address is outside the tree |
| SlotOffsetters.SlotOffsetter.Reset | slot_offsetter.go:51-53 | nothing counts as discarded any more |
| SlotSequencers.PushStore | slot_sequencer.go:33-46 | in the sequencer's terms, a push puts the bytes at the end of the save area under the number |
| SlotSequencers.PopStore | slot_sequencer.go:50-62 | in the sequencer's terms, the popped slot addresses the bytes saved under the number and everything else survives the cut |
| SlotSequencers.SlotSequencer.constructor | slot_sequencer.go:23-30 | nothing is stored |
| SlotSequencers.SlotSequencer.Push | slot_sequencer.go:33-46 | the exact outcome (pushed, duplicate, no space), no space whenever the stored bytes and the slot exceed the limit, stored or not, and the store afterwards; `bytes` is the sum of the stored lengths and within the limit |
| SlotSequencers.SlotSequencer.TakeOut | slot_sequencer.go:50-54 | the slot taken out of the container and shifted by the tree addresses exactly the bytes saved under the number, and cutting those out leaves the rest of the store |
| SlotSequencers.SlotSequencer.Pop | slot_sequencer.go:50-62 | the returned slot addresses exactly the bytes saved under the number, and cutting them out leaves the store without that number |
| SlotSequencers.SlotSequencer.Reset | slot_sequencer.go:82-86 | the store is empty |
| SlotStorage.SaveAndPush | slot_sequencer.go:33-46 | saving the read area and pushing its slot stores its bytes; a refused slot leaves buffer and sequencer as they were |
| SlotStorage.PopAndDiscard | slot_sequencer.go:50-62 | returns the bytes stored under the number and forgets them, whatever was discarded before |
| SlotStorage.Step | slot_sequencer.go:33-86 | one operation on sequencer and buffer is that operation on a map from numbers to bytes |
| SlotStorage.Run | slot_sequencer.go:23-86 | every sequence of arrivals, pops and resets gives the answers of a plain map, including runs that empty the tree in between |
| SlotStorage.HoldsStored | slot_sequencer.go:33-62 | at the end of every run the store is what the answers say was kept and neither fetched nor cleared, and its byte count is the sum of those slots |
| SlotStorage.KeepAnswers | slot_sequencer.go:33-46 | at the end of every run, for every number and payload: no space if the stored bytes and the payload exceed the limit, or the bytes kept since the store was last empty have reached it, whether or not the number is stored; otherwise a duplicate exactly if the number is stored, and pushed exactly if it is new and a slot is free |
| SlotStorage.FetchAnswers | slot_sequencer.go:50-62 | at the end of every run, a fetch returns the bytes that were kept under the number and not fetched or cleared since, or finds it missing |
| SlotStorage.RefusedThoughStored | slot_sequencer.go:34-36 | with a limit of three bytes, a slot of two bytes sent twice is refused for space and not reported as a duplicate |
| SlotStorage.AppendedIsKept | slot_sequencer.go:33-62 | in every run the tree has handed out exactly the bytes kept since the store was last empty, and an empty store starts over |
| SlotStorage.RefusedIff | slot_sequencer.go:33-46 | at the end of any run of arrivals, pops and resets, a new slot that fits both limits is refused exactly if the bytes kept since the store was last empty have reached the limit (for an empty slot: those of them that are gone again) |
| SlotStorage.RefusedThoughItFits | slot_sequencer.go:33-46 | with a limit of two bytes, keeping two slots, fetching one and keeping a third ends in a refusal with one byte stored |
| Bytes.OffsetSlot | slot.go:20-33 | a slot never moves in front of the save area and keeps its length |
| Delivery.InOrderUnique | examples/sequencing/receiver/simple_proc.go:26-73 | the required delivery (1..k in order, bytes of the first arrival, k + 1 the least number not received) is unique |
| Delivery.ArriveEarly | examples/sequencing/receiver/simple_proc.go:75-109 | buffering a packet that is ahead keeps "everything received is delivered or buffered" |
| Delivery.ArriveExpected | examples/sequencing/receiver/simple_proc.go:26-73 | delivering the expected packet moves the front on by one |
| Delivery.WalkOne | examples/sequencing/receiver/simple_proc.go:111-132 | delivering the next buffered packet moves the front on by one |
| SimpleProcessors.SimpleProcessor.Process | examples/sequencing/receiver/simple_proc.go:26-73 | after any arrival, what was delivered and buffered is right for all arrivals so far, and the buffer's read area is used up |
| SimpleProcessors.SimpleProcessor.AddToBuffer | examples/sequencing/receiver/simple_proc.go:75-109 | keeps the first payload of a number and ignores later ones |
| SimpleProcessors.SimpleProcessor.WalkBuffer | examples/sequencing/receiver/simple_proc.go:111-132 | delivers exactly the buffered run that follows on |
| FenwickProcessors.FenwickProcessor.Process | examples/sequencing/receiver/fenwick_proc.go:31-81 | the receiver moves to exactly the state (expected number, saved bytes, bytes counted) that a plain receiver reaches, with the delivery right for all arrivals so far, and panics exactly when that one finds its store full |
| FenwickProcessors.FenwickProcessor.Ignore | examples/sequencing/receiver/fenwick_proc.go:39-51 | a packet delivered before changes nothing but the read area, which is used up |
| FenwickProcessors.FenwickProcessor.Live | examples/sequencing/receiver/fenwick_proc.go:53-66 | the expected packet is delivered from the buffer together with the saved run that follows it |
| FenwickProcessors.FenwickProcessor.AddToBuffer | examples/sequencing/receiver/fenwick_proc.go:111-125 | an early packet is saved once, a duplicate is discarded again, and the panic comes exactly when the store refuses the packet |
| FenwickProcessors.FenwickProcessor.WalkBuffer | examples/sequencing/receiver/fenwick_proc.go:83-109 | delivers exactly the buffered run that follows on, and discards its bytes |
| Receivers.RunSimple | examples/sequencing/receiver/simple_proc.go:20-132 | any arrivals, with gaps, reordering and duplicates, are delivered in order, once each |
| Receivers.RunFenwick | examples/sequencing/receiver/fenwick_proc.go:17-125 | the same up to the first arrival at which a plain receiver with these limits finds its store full, and no further |
| Receivers.FullIff | examples/sequencing/receiver/fenwick_proc.go:110-119 | after any arrivals, the next one panics exactly if it is early and the stored bytes with it exceed the limit, the bytes kept since the store was last empty have reached it, or it is new and no slot is free |
| Receivers.FitHasSpace | slot_sequencer.go:33-46 | arrivals that together fit the limits never fill the store |
| Receivers.NeverAhead | examples/sequencing/receiver/fenwick_proc.go:31-81 | arrivals in order never fill the store, whatever the limits, since nothing is saved |
| Receivers.Compare | examples/sequencing/receiver/fenwick_proc.go:17-125 | both receivers deliver the same packets, in order and once each, over all arrivals up to the first one that finds the store full; over all arrivals if they fit the limits |
| ByteBuffers.MoveDown | byte_buffer.go:190-202 | moving the tail of the array down in place is cutting the range out of its contents |
| ByteBuffers.ByteBuffer.constructor | byte_buffer.go:54-59 | three empty areas |
| ByteBuffers.ByteBuffer.Reserve | byte_buffer.go:65-72 | at least n bytes are free, and no byte of any area changed |
| ByteBuffers.ByteBuffer.Commit | byte_buffer.go:81-90 | moves the first n written bytes, or all of them, to the end of the read area |
| ByteBuffers.ByteBuffer.Consume | byte_buffer.go:140-157 | drops the first n readable bytes, or all of them, and changes no other area |
| ByteBuffers.ByteBuffer.Save | byte_buffer.go:164-175 | moves the first n readable bytes to the save area and returns the slot that addresses them |
| ByteBuffers.ByteBuffer.SavedSlot | byte_buffer.go:183-185 | the bytes of the save area that the slot names |
| ByteBuffers.ByteBuffer.Data | byte_buffer.go:109-111 | the readable bytes |
| ByteBuffers.ByteBuffer.Discard | byte_buffer.go:190-202 | cuts exactly the slot's bytes out of the save area and changes no byte of the other areas |
| ByteBuffers.ByteBuffer.DiscardAll | byte_buffer.go:207-209 | empties the save area only |
| ByteBuffers.ByteBuffer.Reset | byte_buffer.go:211-216 | all areas are empty |
| ByteBuffers.ByteBuffer.Read | byte_buffer.go:219-232 | hands out the first readable bytes and drops them; end of file only with nothing saved or readable |
| ByteBuffers.ByteBuffer.ReadFrom | byte_buffer.go:245-252 | appends what the transport delivered, at least one byte if there is room, to the written bytes |
| ByteBuffers.ByteBuffer.UnreadByte | byte_buffer.go:255-262 | takes back the last written byte, if there is one |
| ByteBuffers.ByteBuffer.Write | byte_buffer.go:280-286 | appends to the written bytes, growing when needed |
| ByteBuffers.ByteBuffer.WriteTo | byte_buffer.go:307-323 | sends the readable bytes in order over short writes; after an error exactly the acknowledged ones are consumed, a few more may have gone out |
| ByteBuffers.ByteBuffer.SendAll | async_adapter.go:204-240 | the loop over short writes sends all readable bytes in order, or a prefix of them and reports how many were acknowledged |
| ByteBuffers.ByteBuffer.AsyncWriteTo | byte_buffer.go:327-334 | the same from call to callback, but after an error nothing is consumed, not even what went out |
| ByteBuffers.ByteBuffer.PrepareRead | byte_buffer.go:339-348 | n readable bytes, moved from the written ones, or "need more" exactly when there are too few |
| ByteBuffers.ByteBuffer.Claim | byte_buffer.go:359-366 | what the callback wrote into the free space becomes written bytes, unless its count is out of range |
| ByteBuffers.ByteBuffer.ClaimFixed | byte_buffer.go:372-379 | the claimed range lies behind all areas and becomes part of the written bytes |
| ByteBuffers.ByteBuffer.ShrinkBy | byte_buffer.go:382-393 | drops the last n written bytes, or all of them |
| ByteBuffers.ByteBuffer.ShrinkTo | byte_buffer.go:396-398 | keeps the first n written bytes and returns how many were dropped |
| BipBuffers.BipBuffer.constructor | bip_buffer.go:29-34 | empty queue, no claim |
| BipBuffers.BipBuffer.Reset | bip_buffer.go:44-51 | empty queue, no claim |
| BipBuffers.BipBuffer.Claim | bip_buffer.go:58-87 | nil exactly when the usable gap is empty, and then no claim is left; otherwise a claim of the length asked for or of the gap, which is the larger free side, or behind a wrapped chunk the space up to the first one; inside the buffer, overlapping no committed byte |
| BipBuffers.GapLargest | bip_buffer.go:58-87 | while nothing is wrapped no free block on either side of the committed bytes is larger than the one a claim is cut from, and that block is free |
| BipBuffers.BipBuffer.WriteClaim | bip_buffer.go:58-87 | writing through the claim changes the claim and no queued byte |
| BipBuffers.BipBuffer.Commit | bip_buffer.go:91-119 | appends exactly the first n bytes of the claim to the queue, in all three placements, ends the claim, and leaves a gap of at least what the claim was cut from less the appended bytes |
| BipBuffers.BipBuffer.Head | bip_buffer.go:123-128 | a prefix of the queue, empty only if the queue is |
| BipBuffers.BipBuffer.Consume | bip_buffer.go:132-141 | drops min(n, head length) bytes from the front, keeps an outstanding claim and never shrinks the gap |
| BipBuffers.BipBuffer.Length | bip_buffer.go:144-146 | the length of the queue |
| BipBuffers.ClaimPlaced | bip_buffer.go:58-87 | the claim is cut from the larger free block at the place where Commit will look for it |
| BipBuffers.StartPlaced | bip_buffer.go:102-106 | a commit into an empty buffer keeps the indices in order and the space the claim was cut from |
| BipBuffers.TailPlaced | bip_buffer.go:107-110 | so does a commit behind the tail |
| BipBuffers.WrappedPlaced | bip_buffer.go:111-115 | so does a commit into the wrapped part |
| BipBuffers.ConsumePlaced | bip_buffer.go:132-141 | consuming, also past the end of the head chunk, keeps an outstanding claim in place and the gap at least as large |
| BipBuffers.ClaimStep | bip_buffer.go:58-87 | a claim leaves both streams alone and is exactly as long as asked for or as the gap, whatever is queued |
| BipBuffers.FillStep | bip_buffer.go:58-87 | writing into a claim neither adds to nor takes from the committed stream |
| BipBuffers.CommitStep | bip_buffer.go:91-119 | commits append to the stream what was written into the claim, and take no more than that of the space the claim was cut from, whatever was consumed meanwhile |
| BipBuffers.ConsumeStep | bip_buffer.go:123-141 | what is consumed is the next part of the stream, and the gap does not shrink |
| BipBuffers.Run | bip_buffer.go:29-146 | in every interleaving of claims, writes, commits and consumes the bytes come out in the order they were committed, none lost or repeated; every claim is exactly as long as asked for or as the gap, and the gap is free space, at least half of an empty buffer, shrinks by no more than what is committed and never by consuming |
| MirroredBuffers.MaskWrapsIff | bytes/mirrored_buffer.go:215-234 | masking with size - 1 is the remainder for all indices if and only if size is a power of two |
| MirroredBuffers.AlwaysKeptIff | bytes/mirrored_buffer.go:78-94 | Commit keeps tail = (head + used) mod size in all states if and only if size is a power of two |
| MirroredBuffers.ThreePages | bytes/mirrored_buffer.go:78-94 | a size of three pages, which the constructor accepts, breaks that equation |
| MirroredBuffers.Behind | bytes/mirrored_buffer.go:215-222 | in the doubled mapping the bytes at the tail directly follow the queue |
| MirroredBuffers.Ahead | bytes/mirrored_buffer.go:224-234 | in the doubled mapping the rest of the queue starts at the wrapped head |
| MirroredBuffers.StampedQueue | bytes/mirrored_buffer.go:204-213 | writing to a claim touches no used byte, modulo size |
| MirroredBuffers.MirroredBuffer.Claim | bytes/mirrored_buffer.go:204-213 | as much of n as is free, contiguous in the doubled mapping, nil only if that is nothing |
| MirroredBuffers.MirroredBuffer.WriteClaim | bytes/mirrored_buffer.go:204-213 | the claim holds the bytes, its rest is as before, and the queue is unchanged |
| MirroredBuffers.MirroredBuffer.Commit | bytes/mirrored_buffer.go:215-222 | for powers of two, appends the claimed bytes that fit to the queue |
| MirroredBuffers.MirroredBuffer.Consume | bytes/mirrored_buffer.go:224-234 | for powers of two, drops min(n, used) bytes from the front of the queue |
| MirroredBuffers.ClaimStep | bytes/mirrored_buffer.go:204-213 | a claim is as long as asked for or as there is space, and leaves both streams alone |
| MirroredBuffers.FillStep | bytes/mirrored_buffer.go:204-213 | writing into a claim changes the claim only |
| MirroredBuffers.CommitStep | bytes/mirrored_buffer.go:215-222 | a commit appends the claimed bytes in order, as many as asked for and as there is space |
| MirroredBuffers.ConsumeStep | bytes/mirrored_buffer.go:224-234 | what is consumed is the next part of the stream, while an outstanding claim keeps its bytes |
| MirroredBuffers.Run | bytes/mirrored_buffer.go:196-234 | for powers of two, in every interleaving of claims, writes, full and short commits, commits without a new claim, and consumes, the bytes come out in the order they were committed, and never more than size are queued |
| Frames.BigEndian | codec/websocket/frame.go:194-210 | a length written in big-endian form reads back |
| Frames.MaskTwice | codec/websocket/util.go:22-26 | masking twice with the same mask gives the bytes back |
| Frames.Mask | codec/websocket/util.go:22-26 | byte i of the result is byte i of the input xor-ed with byte i mod 4 of the mask |
| Frames.Opcodes | codec/websocket/rfc6455.go:49-76 | control opcodes are 8 to 10, reserved ones 3 to 7 and from 11 on |
| Frames.HeaderBits | codec/websocket/frame.go:36-82 | for any two header bytes: FIN and mask bit are the top bits, the reserved bits are those of value 16, 32 and 64, the opcode is the low four bits, and 126 and 127 announce two and eight more length bytes |
| Frames.LengthForms | codec/websocket/frame.go:36-58 | the payload length of any frame by the form its second byte announces, and the payload offset with and without a mask |
| Frames.SignedLength | codec/websocket/frame.go:45-58 | an eight-byte length is negative exactly if its top bit is set, and the number its bytes spell otherwise |
| Frames.Digits | codec/websocket/frame.go:194-210 | byte i of a big-endian number is its digit of base 256 at that place |
| Frames.ShortestForm | codec/websocket/frame.go:194-210 | seven bits below 126, two bytes below 65536, eight bytes from there on |
| Frames.LayoutBytes | codec/websocket/frame.go:101-240 | every byte of a masked frame: FIN and opcode, mask bit and length form, the length most significant byte first, the mask, and payload byte i xor-ed with mask byte i mod 4 |
| Frames.HeaderBack | codec/websocket/frame.go:36-82 | the bits set in the two header bytes read back as FIN, opcode, mask bit, 7-bit length and clear reserved bits |
| Frames.ReadBack | codec/websocket/frame.go:36-224 | all getters read back what a laid-out frame was made of, with the shortest of the three length forms (section 5.2 of RFC 6455) |
| FrameBuffers.ExtendSlice | util/bytes.go:27-33 | the slice has the needed length and keeps its elements |
| FrameBuffers.Frame.Reset | codec/websocket/frame.go:32-34 | clears the header bytes only |
| FrameBuffers.Frame.SetFIN | codec/websocket/frame.go:101-104 | sets the top bit of the first byte |
| FrameBuffers.Frame.SetIsMasked | codec/websocket/frame.go:84-87 | sets the top bit of the second byte |
| FrameBuffers.Frame.SetOpcode | codec/websocket/frame.go:121-130 | replaces the low four bits of the first byte |
| FrameBuffers.Frame.SetPayloadLength | codec/websocket/frame.go:194-210 | writes the shortest length form and keeps the mask bit; panics exactly when the frame is shorter than the field |
| FrameBuffers.Frame.SetPayload | codec/websocket/frame.go:212-220 | the frame has room for header and mask and carries the payload; panics in exactly the same case |
| FrameBuffers.Frame.MaskPayload | codec/websocket/frame.go:226-238 | the frame becomes the masked layout of its payload |
| FrameBuffers.Frame.UnmaskPayload | codec/websocket/frame.go:240-249 | undoes the masking and changes no header byte |
| FrameBuffers.BuildMasked | codec/websocket/stream.go:126-134 | acquiring a pooled frame, setting FIN, opcode and payload and masking it gives the layout of section 5.2 of RFC 6455, or panics exactly when the pooled frame is too short |
| FrameBuffers.ShortPooledFrame | codec/websocket/stream.go:126-139 | a frame that carried no payload, put back and taken again, panics on every payload of more than 65535 bytes |
| FrameBuffers.NewFrameLongEnough | codec/websocket/frame.go:26-30 | a new frame has room for every length field |
| FrameCodecs.ParseStable | codec/websocket/frame_codec.go:52-99 | a verdict on the bytes so far is not changed by bytes that follow |
| FrameCodecs.ParseIff | codec/websocket/frame_codec.go:52-99 | which verdict any bytes get, from their length and the announced payload length: over the limit as soon as the length is there, malformed once the mask is there, whole exactly if all bytes are |
| FrameCodecs.RoundTrip | codec/websocket/frame_codec.go:52-114 | for every FIN bit, opcode, mask and payload within the limit, the encoded frame is parsed back, with the same FIN, opcode and unmasked payload |
| FrameCodecs.FrameCodec.ResetDecode | codec/websocket/frame_codec.go:35-41 | the deferred consume takes away exactly the frame handed out before |
| FrameCodecs.FrameCodec.Decode | codec/websocket/frame_codec.go:52-99 | decodes what parsing the unread bytes gives and takes one frame's bytes; when it needs more once the header with its mask is complete, the buffer has room for the whole frame |
| FrameRoundTrips.Send | codec/websocket/frame_codec.go:102-114 | building a frame with its setters, masking it and encoding it puts its layout into the buffer |
| FrameRoundTrips.Open | codec/websocket/frame.go:240-249 | unmasking a received frame gives its payload and keeps FIN and opcode |
| FrameRoundTrips.Through | codec/websocket/frame_codec.go:52-114 | a frame built, masked, encoded, decoded from the same buffer and unmasked has the FIN bit, opcode and payload it was built with |
| CodecConns.Encode | codec/websocket/frame_codec.go:102-114 | puts exactly the frame's bytes behind what was already written and commits that many; with nothing written before, that is the frame at the end of the readable bytes |
| CodecConns.CodecConn.ReadNext | codec.go:70-86 | the next frame, or the error, is the one that parsing all bytes still to come gives, however they are split; a transport error only for a failing read of the script, which is then used up |
| CodecConns.CodecConn.WriteNext | codec.go:88-96 | sends what was left in the write buffer and then the frame; after an error at least the counted bytes of that went out, and exactly the others are left |
| CodecConns.CodecConn.AsyncWriteNext | codec.go:98-105 | the same from call to callback; after an error at least the counted bytes went out, and the write buffer keeps the frame and all that was in front of it |
| CodecConns.ReadManyStep | codec.go:70-86 | one read continues the parse of the whole stream |
| CodecConns.WireBack | codec/websocket/frame_codec.go:52-114 | any sequence of frames laid end to end is read back as that sequence |
| CodecConns.Run | codec.go:70-86 | for every split into non-empty reads, repeated ReadNext gives the frames of parsing the whole stream at once; every failing read costs one call and no bytes, and without failing reads no call fails |
| LengthCodecs.PrefixedStable | codec/frame/frame.go:59-85 | a decoded payload is not changed by bytes that follow |
| LengthCodecs.PrefixedIff | codec/frame/frame.go:59-85 | which verdict any bytes get, with the length spelled out from the four bytes and the limit of one gigabyte |
| LengthCodecs.PrefixBack | codec/frame/frame.go:33-85 | an encoded payload is parsed back, whatever follows it |
| LengthCodecs.LengthCodec.Encode | codec/frame/frame.go:33-49 | appends length and payload, or refuses exactly the payloads that are too long and writes nothing |
| LengthCodecs.LengthCodec.ResetDecode | codec/frame/frame.go:51-57 | the deferred consume takes away exactly the payload handed out before |
| LengthCodecs.LengthCodec.Decode | codec/frame/frame.go:59-85 | decodes what parsing the unread bytes gives; when it needs more, the buffer has room |
| LengthCodecs.LengthConn.ReadNext | codec.go:70-86 | the same chunking independence for the length-prefixed codec, one call, with the same account of failing reads |
| LengthCodecs.Run | codec.go:70-86 | the same for any number of calls, and without failing reads no call fails |
| StreamSessions.QueueActive | codec/websocket/stream.go:559-593 | frames queued while Active keep the session's accounting |
| StreamSessions.QueueHandshakeClose | codec/websocket/stream.go:684-703 | leaving Active through the closing handshake happens once and accounts for one close frame |
| StreamSessions.QueueRejectClose | codec/websocket/stream.go:442-460 | each refused frame accounts for one close frame |
| Streams.CloseBack | codec/websocket/util.go:48-61 | a close payload decodes to the code and reason it was made of |
| Streams.CloseReplyIs | codec/websocket/stream.go:498-521 | the answer to a close frame decodes to 1000 if it has no payload and to 1002 if the payload is one byte, the code is not 1000-1003, 1007-1013 or 3000-4999, or the reason is not valid text; otherwise it repeats the payload |
| Streams.AccountsMore | codec/websocket/stream.go:640-645 | a queued frame is accounted for in what is still to be sent |
| Streams.SentIsPrefix | codec/websocket/stream.go:708-721 | if nothing was lost, what was sent is exactly the encoding of the log up to the frames still queued |
| Streams.SendAll | codec/websocket/stream.go:708-721 | sends the frames in order, each once; if a write fails, all frames before it and a part of it went out |
| Streams.Stream.constructor | codec/websocket/stream.go:149-167 | a session right after the handshake: Active, nothing queued |
| Streams.Stream.Build | codec/websocket/stream.go:126-134 | the built frame is the masked encoding of kind, FIN, opcode and payload, from a pooled or a new frame |
| Streams.Stream.PrepareWrite | codec/websocket/stream.go:640-645 | queues exactly one frame behind all others |
| Streams.Stream.HandshakeClose | codec/websocket/stream.go:697-703 | queues one close frame with the payload and leaves Active |
| Streams.Stream.RejectClose | codec/websocket/stream.go:454-457 | queues one close frame with status 1002 and moves to ClosedByUs |
| Streams.Stream.Flush | codec/websocket/stream.go:708-721 | if every write succeeds, sends exactly the concatenation of the queued frames and leaves queue and encode buffer empty; if one fails, the frames before it are gone from the queue and sent, and it is still at the front |
| Streams.Stream.AsyncFlush | codec/websocket/stream.go:726-743 | the recursive form sends the same; if a write fails, the frames before it are sent, and it is gone from the queue with them |
| Streams.Stream.FlushFirst | codec/websocket/stream.go:730-739 | one round takes exactly the first frame from the queue and sends it |
| Streams.Stream.Settle | codec/websocket/stream.go:708-721 | the frames sent by a flush leave the queue, those behind them stay in order |
| Streams.JudgeIff | codec/websocket/stream.go:442-549 | the checks in the order of the source accept a frame exactly if it is unmasked, without reserved bits and a well-formed control or data frame |
| Streams.JudgeBytes | codec/websocket/stream.go:442-549 | which frames are refused and with which of the six errors, by the bytes of the frame: reserved bits, mask bit, FIN, opcode, payload length and text |
| Streams.Stream.VerifyFrame | codec/websocket/stream.go:462-476 | accepts exactly frames whose first byte has none of the bits 16, 32 and 64 and whose second is below 128 (section 5.1 of RFC 6455), and says which of the two failed, reserved bits first |
| Streams.Stream.HandleDataFrame | codec/websocket/stream.go:537-549 | accepts exactly known opcodes and, if asked for, valid text, each with its own error |
| Streams.Stream.HandleControlFrame | codec/websocket/stream.go:478-535 | accepts exactly whole, short control frames, each failure with its own error; answers pings, and closes or acknowledges by state; both panics are unreachable |
| Streams.Stream.AnswerPing | codec/websocket/stream.go:488-495 | a ping in Active queues one pong with its payload and never panics |
| Streams.Stream.AnswerClose | codec/websocket/stream.go:501-521 | a close frame in Active queues one close frame with the reply to its payload and moves to ClosedByPeer, without panic |
| Streams.Stream.HandleFrame | codec/websocket/stream.go:442-460 | only entered in Active or ClosedByUs; the verdict and its error are those of the checks in order, and a refused frame queues one close frame |
| Streams.Stream.Receive | codec/websocket/stream.go:248-251 | a frame read from the connection is delivered or refused with the error of its verdict |
| Streams.BuildAbnormal | codec/websocket/stream.go:240-246 | the frame handed out at the end of the stream is an unmasked, final close frame with status 1006 and no reason, built without panic |
| Streams.AbnormalBytes | codec/websocket/stream.go:240-246 | its first byte has FIN and opcode 8, its second no mask bit, and its payload decodes to 1006 |
| Streams.Stream.ReadFrame | codec/websocket/stream.go:235-252 | takes the next whole frame of the peer's bytes and handles it; the end of the stream, an oversized frame and a bad length are reported exactly if parsing those bytes gives them, a transport error only for a failing read; the end of the stream hands out the 1006 frame and ends the session |
| Streams.Stream.NextFrame | codec/websocket/stream.go:212-233 | flushes first, fails on that only for a failing write of the script, which is then used up, and reports the end of the stream without reading exactly in the states that do not read; otherwise the session changes as reading one frame says; a read that got past its flush leaves nothing queued but the answer to what it read |
| Streams.Stream.BeginRead | codec/websocket/stream.go:262-281 | flushes in the asynchronous form, waits for a read exactly if that succeeded and the state allows one, and gives the stream up otherwise; once it waits, nothing is queued |
| Streams.Stream.CompleteRead | codec/websocket/stream.go:283-300 | the completed read has the effect and the reasons of a synchronous one, whatever was written or closed meanwhile |
| Streams.Stream.Write | codec/websocket/stream.go:559-620 | both forms: too big and cancelled exactly by size and state; otherwise exactly that frame is queued with FIN and any opcode, unless a payload over 65535 bytes panics; a write error only for a failing write of the script; when it reports success nothing is left in the queue |
| Streams.Stream.WriteFrame | codec/websocket/stream.go:585-638 | both forms: cancelled exactly outside of Active; otherwise exactly that frame is queued with its FIN bit and any opcode, with the same two exceptions; when it reports success nothing is left in the queue |
| Streams.Stream.Close | codec/websocket/stream.go:659-695 | both forms: the outcome by state; from Active the state is ClosedByUs and one close frame is queued, or none if building it panics; when it reports success nothing is left in the queue |
| StreamRuns.ReadFollows | codec/websocket/stream.go:442-535 | a read leaves the state its result calls for, which is never an earlier one, enters CloseAcked only from ClosedByUs, and queues exactly the answer to the frame it read |
| StreamRuns.AnsweredWith | codec/websocket/stream.go:487-521 | a delivered frame is answered by its first byte, and only while Active: opcode 9 with a pong (10) of the same payload, opcode 8 with a close frame |
| StreamRuns.Do | codec/websocket/stream.go:199-743 | each call gives an answer that its state, the calls before it and its arguments allow, and queues exactly the frame it is asked for or that answers what it read |
| StreamRuns.AllOurs | codec/websocket/stream.go:442-703 | if no caller writes a close frame, every queued close frame comes from the closing handshake or from a refusal |
| StreamRuns.OneMoreEvent | codec/websocket/stream.go:199-703 | one call keeps the link between what callers asked for and saw and what was queued |
| StreamRuns.ExplainedFrames | codec/websocket/stream.go:212-300 | if every single answer is explained by the bytes that were left, then the frames handed out are the parse of all bytes, in order |
| StreamRuns.WrittenIsSent | codec/websocket/stream.go:559-743 | a call that returned success has sent the whole log up to and including its own frame; a read that got past its flush has sent every frame queued before it; no other call sends anything |
| StreamRuns.OpenUntil | codec/websocket/stream.go:199-743 | in every session reading is possible exactly until a close frame is delivered, the peer is gone or an asynchronous read gives up, and the session is Active exactly until one of these, a Close or a refused frame |
| StreamRuns.NextEndsIff | codec/websocket/stream.go:212-233 | a read reports the end of the stream exactly if, before it, a close frame was delivered, the peer was gone or an asynchronous read gave up |
| StreamRuns.WriteRefusedIff | codec/websocket/stream.go:559-620 | a frame that is not too big is refused exactly if, before it, Close was called, a frame was refused, or reading had ended |
| StreamRuns.Run | codec/websocket/stream.go:199-743 | every session of blocking and asynchronous calls: each call gets an answer fixed by its arguments, the state and the calls before it, up to failures and panics; the log of queued frames is, frame by frame with FIN, opcode and payload, what the calls asked to send, the pongs for the pings and the close frames that answer the peer or a refused frame; states move forward only; after a close frame only close frames are queued, one for the handshake plus one per refused frame; the frames seen are those the peer sent, every refusal has the error of its frame, and every end, oversized frame and failure its cause in the peer's bytes or the scripts; with successful writes the bytes sent are the queued frames in order, each once; without failing writes, what had been sent after each call is the encoding of the log up to what the last successful flush found queued |
| Messages.SuccessIff | codec/websocket/stream.go:311-366 | success if and only if the data frames are one text or binary frame and continuations with FIN on the last only (section 5.4 of RFC 6455) and fit; the result is then their payloads and the first opcode |
| Messages.WhichError | codec/websocket/stream.go:329-361 | which error ends a call: too large, a first frame that is a continuation, a later one that is none, or success, each if and only if; with the first opcode and the payloads as far as they fit |
| Messages.DataFrameRight | codec/websocket/stream.go:326-361 | the loop's step on one data frame reports exactly what the frames so far call for |
| Messages.AsyncFrameRight | codec/websocket/stream.go:399-436 | so does the step of the callback form, written from its own lines |
| MessageSpecs.CallExplained | codec/websocket/stream.go:311-366 | every call ends for a reason in the peer's frames: acceptable frames at the front keep the message open and behind them nothing can be read, with its error, or the last of them decides the report |
| MessageSpecs.ExplainedCall | codec/websocket/stream.go:311-366 | frames that explain an end are the only explanation: they fix the report, the error, the state and the bytes left |
| MessageSpecs.SuccessMeansMessage | codec/websocket/stream.go:311-366 | if the required report has no error, the peer's bytes begin with a whole message |
| MessageSpecs.MessageMeansSuccess | codec/websocket/stream.go:311-366 | a whole message at the front that fits is reported without error, with all payloads in order and the first opcode, and exactly what follows it is left |
| MessageSpecs.SuccessIffMessage | codec/websocket/stream.go:311-366 | no error if and only if the stream can be read and the peer's bytes begin with acceptable frames, no close among them, whose data frames are one message that fits; that message is then reported and what follows it is left |
| MessageSpecs.MalformedMeansError | codec/websocket/stream.go:311-366 | if the peer sent acceptable frames of which the last cannot go on with the message, the call takes exactly these, with the error of what is wrong with the last, and closes the stream only if the message is too long |
| MessageReaders.Fetch | codec/websocket/stream.go:212-233 | one frame is handed out, or the reading halts with the error that the state and the bytes to come call for, unless the transport fails |
| MessageReaders.AsyncFetch | codec/websocket/stream.go:262-300 | the same for the asynchronous form, from the call to its callback |
| MessageReaders.GiveUp | codec/websocket/stream.go:336-340 | a message that does not fit, and no other error, closes the stream, in either form; in Active exactly a close frame with status 1001 and the reason is queued |
| MessageReaders.LoopFrame | codec/websocket/stream.go:320-362 | after each frame the loop is on the way of the required call, or ends as it requires |
| MessageReaders.CallbackFrame | codec/websocket/stream.go:392-437 | so is the callback form |
| MessageReaders.NextMessage | codec/websocket/stream.go:311-366 | unless the transport fails, the report, the error of the last frame, the state and the bytes left are those the peer's bytes require; if it fails, the report is the one of the frames received until then |
| MessageReaders.AsyncNextMessage | codec/websocket/stream.go:381-440 | the same for the recursive form over all its calls |
| MessageReaders.OneCall | codec/websocket/stream.go:311-440 | a call in either form that the transport does not break off is explained by the peer's frames, returns without error if and only if the stream can be read and the peer's bytes begin with one message that fits, and then gives that message's bytes and type and leaves what follows |
| MessageReaders.MessagesBack | codec/websocket/stream.go:311-440 | bytes that are messages one behind the other, in fragments and among control frames, are read back as exactly those messages |
| MessageReaders.Run | codec/websocket/stream.go:311-440 | without transport failures, any number of calls in either form gives the answers the peer's bytes require, errors included, however the bytes are split; bytes that are messages are read back as those messages |
| MessageReaders.Both | codec/websocket/stream.go:311-440 | without transport failures, both forms give the same reports and the same errors on the same bytes, even if those are split differently |
| Pollers.MaskBits | internal/poll_linux.go:230-311 | the bitwise operators with a flag test, set and clear that bit of an event mask |
| Pollers.DispatchIff | internal/poll_linux.go:189-199 | the test of the loop holds exactly if the kernel reported the event and the slot still asks for it |
| Pollers.MaskChange | internal/poll_linux.go:230-311 | the epoll_ctl call for a changed mask is allowed by the kernel and keeps its interest list equal to the masks |
| Pollers.ActGone | internal/poll_linux.go:189-199 | the handler taken for an event is the one set last |
| Pollers.PendingBits | internal/poll_linux.go:230-311 | arming minus firing and dropping is the number of event bits set on non-waker slots |
| Pollers.Poller.constructor | internal/poll_linux.go:83-111 | only the waker is registered and it does not count as pending |
| Pollers.Poller.SetRW | internal/poll_linux.go:230-244 | the interest is held, counted once, and known to the kernel |
| Pollers.Poller.Set | internal/poll_linux.go:222-244 | the handler waits for the event; pending, masks and kernel agree |
| Pollers.Poller.DelRW | internal/poll_linux.go:287-311 | the handler waits no longer, and a missing interest changes nothing |
| Pollers.Poller.Del | internal/poll_linux.go:279-285 | neither handler of the slot waits any longer |
| Pollers.Poller.Post | internal/poll_linux.go:130-139 | the post is queued and counted; from inside a posted handler it blocks |
| Pollers.Poller.PostDone | internal/poll_linux.go:213-217 | a post stops counting when its handler returns |
| Pollers.Poller.Unlock | internal/poll_linux.go:218-219 | after dispatch no post is left |
| Pollers.Poller.Take | internal/poll_linux.go:189-199 | an event calls its handler only if that still waits, and the interest is gone before the call |
| TimerTraces.NeverAgain | timer.go:61-121 | a callback that is no longer waited for is never waited for again |
| TimerTraces.RunsOnce | timer.go:61-82 | a callback accepted with a positive delay runs at most once |
| TimerTraces.NotAfterCancel | timer.go:114-121 | it never runs after a Cancel or Close that came before its firing |
| TimerTraces.NothingAfterClose | timer.go:127-136 | after Close nothing is accepted for later and nothing accepted runs |
| TimerTraces.DeadUntilCancel | timer.go:114-136 | after Close a timer refuses callbacks exactly until the first Cancel |
| Timers.Timer.constructor | timer.go:42-53 | ready, with nothing scheduled |
| Timers.Timer.Unset | internal/timer_linux.go:59-68 | the poller no longer holds the timer's read interest |
| Timers.Timer.Set | internal/timer_linux.go:36-57 | the poller holds the read interest with the new handler, unless the descriptor is closed |
| Timers.Timer.ScheduleOnce | timer.go:61-82 | accepted, run at once or refused exactly by state, delay and descriptor; Scheduled exactly while the poller holds the read interest |
| Timers.Timer.OnAlarm | timer.go:67-71 | when the handler runs the timer is ready again before the callback starts |
| Timers.Timer.Cancel | timer.go:114-121 | the interest is dropped and the timer is ready |
| Timers.Timer.Close | timer.go:127-136 | the interest is dropped and the timer closed, once |
| LoopSpec.FlagKept | timer.go:36-39 | while the descriptor is open the cancelled flag says exactly that the last thing that happened is a Cancel |
| LoopSpec.RepeatsIff | timer.go:91-108 | a repeating timer is scheduled again exactly if the round left it open and idle and its last action on the timer was not a Cancel; otherwise the end of the round does nothing |
| LoopSpec.CancelUndone | timer.go:91-108 | a round that cancels and then schedules without delay is scheduled again |
| LoopSpec.ReusedAfterClose | timer.go:114-136 | after Close and Cancel a callback without delay runs |
| EventLoops.Loop.AskPoller | internal/poll_linux.go:222-311 | a request of a handler has its plain effect on the waiting handlers |
| EventLoops.Loop.AskTimer | timer.go:61-136 | a timer request of a handler has its plain effect on timer and waiting handlers |
| EventLoops.Loop.Do | timer.go:61-82 | a callback's requests take effect one after the other, callbacks without delay inside of them |
| EventLoops.Loop.Reschedule | timer.go:96-104 | the end of a round of a repeating timer |
| EventLoops.Loop.FireUser | internal/poll_linux.go:189-199 | a reported event of a user's slot calls the waiting handler, or does nothing |
| EventLoops.Loop.FireTimer | internal/poll_linux.go:189-193 | a reported event of the timer runs its callback only if it is still scheduled, even if the event was already in the batch |
| EventLoops.Loop.Dispatch | internal/poll_linux.go:205-220 | the posts run in order, once each, and are all gone afterwards, unless one of them posts |
| EventLoops.Loop.OneEvent | internal/poll_linux.go:177-200 | one reported event: the read handler and then the write handler, looked up after the read handler ran, each if its bit is reported and it waits; the waker runs the posts; every call is noted (said again without this text in LoopLaws) |
| EventLoops.Loop.Poll | internal/poll_linux.go:177-200 | the whole batch, with handlers that change interests of later events |
| EventLoops.Run | internal/poll_linux.go:83-311 | every run with re-entrant handlers: waiting handlers, posts, timer and the list of handlers called are as a plain description says; pending is the number of event bits of non-waker slots plus the posts not yet run; ADD only for absent, MOD and DEL only for present descriptors; the timer agrees with its trace and is Scheduled exactly while its read interest is held |
| LoopLaws.ReportsIff | internal/poll_linux.go:189-199 | an event is reported exactly by its bit, 0 for reading and 2 for writing, and calls the waiting handler with the interest taken out |
| LoopLaws.BatchSplits | internal/poll_linux.go:177-200 | a batch is handled event by event in order |
| LoopLaws.ReadFires | internal/poll_linux.go:189-193 | a reported read event with a waiting handler leaves what the requests of that handler leave, with the interest gone and the call noted, unless the write handler then follows |
| LoopLaws.WriteFires | internal/poll_linux.go:195-199 | the same for a reported write event when no read handler is called |
| LoopLaws.BothFire | internal/poll_linux.go:189-199 | with both reported, the write handler that is called is the one waiting when the read handler is done |
| LoopLaws.NothingFires | internal/poll_linux.go:189-199 | an event none of whose reported bits has a waiting handler changes nothing |
| LoopLaws.RequestsFireNothing | internal/poll_linux.go:222-311 | requests, at any depth, call no handler of the poller |
| LoopLaws.FiresExactly | internal/poll_linux.go:189-199 | one event adds exactly the reported bits whose handlers wait at that moment to the calls of a run |
| LoopLaws.SetThenReported | internal/poll_linux.go:222-244 | in any run a handler that is set and whose event is reported next is called, once, with its requests run and the interest gone |
| LoopLaws.DelThenReported | internal/poll_linux.go:287-311 | in any run a deleted interest is not called |
| LoopLaws.DelAllThenReported | internal/poll_linux.go:279-285 | in any run, after Del neither handler of the slot is called, whatever is reported |
| LoopLaws.PostsRun | internal/poll_linux.go:205-220 | a wake-up runs the requests of all posts, each once and in order, and empties the queue, or blocks exactly if running them under the lock does |
| LoopLaws.PostThenWoken | internal/poll_linux.go:130-139 | in any run what is posted runs behind the posts before it at the next wake-up |
| LoopLaws.TimerRings | timer.go:66-70 | the alarm of a plain callback takes the interest out, makes the timer idle and then runs the callback |
| LoopLaws.ScheduleLaw | timer.go:61-82 | from the timer's trace: ScheduleOnce is refused unless the timer is idle, runs the callback at once without delay, is accepted on an open timer and fails on a closed one |
| LoopLaws.ScheduleThenRings | timer.go:61-82 | in any run a callback accepted with a delay is called, once, when the timer's event is reported next |
| LoopLaws.CancelThenReported | timer.go:114-121 | in any run a cancelled timer is idle and does not ring |
| LoopLaws.CloseThenReported | timer.go:127-136 | in any run a closed timer does not ring, and closing it again changes nothing |
| LoopLaws.RoundRings | timer.go:91-108 | the alarm of a repeating callback runs the round and accepts the remaining rounds exactly if the round left the timer open and idle and did not end with a Cancel |
| LoopSafety.NeverStuck | internal/poll_linux.go:205-220 | a run in which, at any depth, nothing that is posted posts never blocks |
| LoopSafety.StuckRun | internal/poll_linux.go:130-139 | posting a handler that posts blocks when the waker is reported |
| LoopSafety.DispatchBlocks | internal/poll_linux.go:205-220 | a queued handler that posts blocks the dispatch, wherever it is in the queue and whatever runs before it |
| LoopSafety.StuckIff | internal/poll_linux.go:205-220 | where callbacks without delay do not hide posts, a dispatch blocks if and only if a queued handler posts |

## Left out

- Sockets, dialing, listening, multicast, mmap setup, eventfd, pipes, TLS, the HTTP upgrade and SHA-1: system calls and library code.
- The server role of the WebSocket stream, and the random source of masks: a mask is any four bytes, and UTF-8 validity is any predicate.
- `Prefault`, getters such as `Len` and `Cap`, `ReadByte`, `WriteByte`, `WriteString`: easy.
- `PopRange` of the sequenced slots, `Frame.ReadFrom`, read-all and write-all of files (file.go): unfinished or without a promise to prove. Asynchronous writes are those of the asynchronous adapter, which write all bytes or fail.
- Statistics, histograms, trackers, lists and option structs: outside the four cores.
- A 64-bit frame length with its top bit set is one outcome (`BadLength`, `Crashed`): section 5.2 of RFC 6455 forbids it.
- Integer overflow of sums and sizes: integers are unbounded.
- The branches of the frame readers for an oversized flush: `Flush` never reports that error.
- Overlapping asynchronous flushes: nothing else happens between the call of an asynchronous flush and its callback.
- What goes out once a flush has failed and left bytes in the encode buffer.
- Real time of timers: an event reported before Cancel and a new schedule in the same batch may run the new callback early; the model has that run but no clock.
- Failing epoll_ctl calls, reuse of descriptor numbers, access to `pending` from other threads, kqueue.
- A nested `Poll` from inside a handler.
- CodecConns.CodecConn.ReadNext: the generic connection is modelled once per codec.
- FrameBuffers.ExtendSlice: bytes beyond the old length are arbitrary, as a slice's spare capacity is.
- FenwickProcessors.FenwickProcessor.Process: the payload parameter, whose length the source only logs; the packet is the read area.
- LengthCodecs.LengthCodec.Encode: encoding is modelled on the buffer alone, since the codec leaves committing to its caller.
- Streams.Stream.BeginRead: no other call falls between its flush and the read that follows.
- MessageReaders.AsyncNextMessage: its close after a message that does not fit is flushed before the callback.
- MirroredBuffers.MirroredBuffer.Commit: the queue is stated for sizes that are powers of two, the exact condition for the wrap to be right.
