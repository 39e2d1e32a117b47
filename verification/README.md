# A reliable-transfer stack, verified

The repository holds three programs that work on each other's data: a sender and a receiver
that move a file over UDP in numbered packets (`src/`), and a link simulator that sits between
them and loses, cuts, corrupts and delays what passes (`Linksimulator/`). This project models all
three in Dafny and proves what they keep, alone and together.

`dafny verify dfyconfig.toml` checks everything.

| module | what it holds |
|---|---|
| `Bytes`, `Numbers`, `Options` | bytes and their integer values; the lesser and greater of two; optional values |
| `Crc32`, `CrcProofs` | CRC-32 bit by bit; that it is the remainder of a polynomial division (section 8 of RFC 1952), with its check value |
| `Packet` | `src/packet.c`: the packet class with its setters, encoder and decoder, and the functions that specify them |
| `PacketProofs`, `WireLayout` | encoding and decoding are inverse; the messages byte by byte |
| `HeapSpec`, `MinQueue` | `Linksimulator/min_queue.c`: the heap on sequences with its laws, and the array class proved equal to it |
| `HeapTies`, `HeapStrict` | what equal keys do to the heap: in which order elements leave, and when nodes are strictly smaller than their children |
| `Clock` | time values, expiry stamps and the select timeout |
| `LinkFaults`, `FaultProofs` | what the link does to a packet, and that the decoder notices; which roll does what, and what a rejected datagram leaves behind |
| `ProxySpec`, `LinkSim` | one turn of the proxy loop, and the class that runs it |
| `ProxyProofs`, `ChannelProofs`, `ArrivalOrder` | over whole runs of the loop: conservation and faults; losslessness; which arrivals keep their order |
| `TurnProofs` | one turn of the loop: its effect, and when it is the last |
| `WaitProofs`, `DelayProofs` | how long the loop sleeps; which delays are drawn |
| `ReceiverSpec`, `ReceiverProgram`, `ReceiverProofs`, `ReceiverFaults` | the receiver, its class, its window under any arrival order, and what it does with cut, damaged and stray datagrams |
| `SenderSpec`, `SenderProgram`, `SenderProofs` | the sender, its class, and what each half of a pass does |
| `Protocol`, `ProtocolProofs` | both joined by lossless first-in first-out channels that carry encoded packets |
| `TransferOverLink` | both joined by the link simulator |

Code that updates state is a class whose methods are proved equal to functions on values; what the
source promises is proved about those functions, for every input, run and interleaving. The
outcomes of sockets, clocks, `rand()` and the allocator are inputs.

The main results, hardest first:

- **Transfer.** For every file and every interleaving, what the receiver has written is at all
  times a beginning of the file, chunk by chunk, and is the file once either side has finished
  (`OutputIsInput`). A run is stuck exactly when the transfer is complete, with N + 1 sends, receipts
  and acknowledgements for N chunks (`Termination`), and no run takes more than 12 N + 13 steps plus
  two for every time the poll times out early (`RunsAreFinite`). Messages are the encoded bytes, decoded
  by the real decoder into whatever the receiving structure held before.
- **Transfer through the link.** With the link simulator in between, delaying one direction or both
  by a constant or not at all, every step of sender and receiver is one they could take over the
  channels (`EndsRefine`). So in every interleaving of the three programs the output is a beginning
  of the file, and the file once either side has finished (`OutputThroughLink`), and the steps of
  sender and receiver are bounded as over channels (`EndsAreFinite`). From every state that can be
  reached while the proxy runs, some run completes the transfer (`TransferCanComplete`). All this is
  for a proxy whose clock does not fall back and that does not queue two different packets of one
  direction with the same stamp, unless one of them is the first it ever queues. A clock that
  advances from turn to turn ensures that (`AdvancingHarmless`). Without it packets may be reordered
  (`ArrivalOrderIff`), and the receiver would then write a payload twice (`SwappedPair`).
- **Faults.** Whatever the link does to the packets of honest parties over any run, a datagram that
  comes out and is accepted carries the content of a packet that went in (`ProxySoundness`). Exactly
  one kind of damage is accepted at all, an inverted byte among the four that the sender leaves
  unwritten behind an end-of-file packet, and it is harmless (`DamageRejectedIff`). What came out and
  what is queued are, once each, what was to come out (`Accounting`).
- **CRC.** The check behind headers and payloads is, for every message, the complement of the remainder
  that the message, started with inverted and followed by zero bits, leaves when divided by
  x^32 + x^26 + ... + 1 (`CrcIsRemainder`).
- **Heap.** The array whose root is slot 0 and whose children are 2x and 2x + 1 is a priority queue,
  although slot 0 is its own "left child" and 0 also means "no child" (`Refinement`,
  `SmallestChild`), with logarithmic cost.
- **Window.** The receiver's 256 slots and wrapping window position represent what it has seen for any
  arrival order and any duplicates within the window (`WindowRefinement`).

Where the code does not do what its comments or its purpose say, there is an input that shows it and
the exact condition under which it does:

- `timeval_diff` is exact unless the seconds differ by one and a borrow is needed (`DiffExactIff`).
- Stamps are made without carrying microseconds, so a packet may leave up to 998 999 microseconds
  early (`Eligibility`, `NeverEarlyIff`).
- For the same reason select may sleep past a packet's expiry (`OversleepRun`). For a single root stamp,
  and for every queue the proxy can reach, it is known when (`NoOversleepIff`, `QueueWaitIff`); without
  jitter it never happens (`NoOversleepWithoutJitter`).
- The heap does not keep the order of equal keys. Whatever is pushed in order, the elements of each
  kind leave in that order in every interleaving of pushes and pops exactly if, from the second one
  on, no two different ones of a kind tie (`FifoIff`). So with a constant delay packets leave the
  proxy in arrival order, wherever the arrivals stop and whenever sends succeed, exactly if, behind the
  first of all, no two different ones are queued at the same clock read: for all packets
  (`WholeOrderIff`) and for those of each direction (`ArrivalOrderIff`). Of a burst into an idle
  proxy, the first leaves first and the others in reverse (`TiesReorderIff`).
- The comment at Linksimulator/link_sim.c:203 says the delay is capped to 10 s; it is reduced modulo
  10 s (`DelayCappedIff`, for any RAND_MAX). The usage text at Linksimulator/link_sim.c:498 gives a
  closed jitter range; its upper end is never reached, nor is what RAND_MAX does not reach
  (`JitterRange`).
- The receiver stores payloads to write them in order (src/receiver.c:55) but writes the payload that
  just arrived instead (`SwappedPair`, `ReorderCorruptsIff`).
- The receiver's duplicate test forgets what it has written (`DuplicateRecognisedIff`): one late copy
  of packet k makes it write packet k + 255 twice and packet k + 256 never (`LateCopyExample`,
  `LateCopyCorrupts`).
- Neither program looks at the status of pkt_decode; each acts on what the structure then holds, which is
  known for every damage (`RejectedLeaves`, `CutLeaves`, `InvertedLeaves`, `ReplyInvertedLeaves`):
  - a cut packet is answered by the number of the packet before it (`CutAnswered`);
  - for a packet that is damaged behind its number, the payload before it is written and the packet is
    acknowledged (`DamagedNext`, `DamagedPayloadExample`); a damaged number is acknowledged as its complement
    (`NumberDamaged`); damage before it makes the receiver take the packet before once more (`HeaderDamaged`);
  - a damaged ACK counts as an ACK (`DamagedReplyCounts`), and one whose first byte is damaged counts as the
    reply before it (`DamagedFirstByteCounts`).
- The slide loop makes eight turns. If all eight slots are filled it does not find a hole, and the window does
  not move although eight payloads are written (`StoreIs`). For packets within the window that does not
  happen (`ScanFindsHole`).
- src/packet.h:54 says that the header CRC is taken with TR as 0; the code takes the byte as it is, which
  is the same only for packets that are not truncated (`HeaderCrcIgnoresTrIff`). The model follows the code.
- Linksimulator/min_queue.c:40 says a node is always smaller than its children. In general it is only
  not greater. Whatever is pushed, in whatever order, the comment holds in every interleaving of
  pushes and pops exactly if no two of the elements tie (`StrictRunsIff`); for the pops of one heap,
  exactly if no two of its elements tie (`StrictThroughoutIff`); for one push, exactly if the new key
  ties with none on its way up (`PushStrictIff`).

## Model

| member | source | states |
|---|---|---|
| ProtocolProofs.OutputIsInput | src/sender.c:127-178 | in every interleaving the written output is a prefix of the file at chunk granularity, and the whole file once the receiver stopped or the sender returned |
| ProtocolProofs.Termination | src/sender.c:264-284 | in every interleaving, no step is left exactly when the transfer is complete: N + 1 sends, receipts and acknowledgements, empty channels, both programs finished, output equal to the file |
| ProtocolProofs.RunsAreFinite | src/sender.c:127-285 | every run has at most 12 N + 13 steps, and two more for every time the poll times out although something is under way |
| ProtocolProofs.RunBounded | src/sender.c:127-285 | the same from any state that keeps the invariant, with the state's rank for the bound |
| ProtocolProofs.FlowControl | src/sender.c:129-178 | sent minus received is what is in the two channels, the window count differs from it by the end of file only, and never exceeds 1 before and 7 after the first acknowledgement |
| ProtocolProofs.SequenceNumbers | src/receiver.c:97-167 | the next packet to arrive carries the number the window asks for, slots are empty between turns, acknowledgements are one higher, all modulo 256 for files of any length |
| ProtocolProofs.Progress | src/sender.c:264-284 | before the sender has returned some step is always possible, even if polls time out only when nothing is under way |
| ProtocolProofs.StepRank | src/sender.c:127-285 | every step brings a rank nearer to zero, but for an early timeout of the poll, which sets it back by at most one |
| ProtocolProofs.NextInv | src/sender.c:127-285 | each step of either program keeps the joint invariant of counters, channels and slots |
| ProtocolProofs.AtTopInv | src/sender.c:129-178 | a turn at the top sends the chunk that is due, the end of file after the last chunk, or nothing |
| ProtocolProofs.TakeAckInv | src/sender.c:223-249 | taking in the acknowledgement that is due keeps the sender's counters consistent and learns the window once |
| ProtocolProofs.ReceiveChunk | src/receiver.c:129-177 | the next chunk is written at once, leaves all slots empty and is acknowledged |
| ProtocolProofs.ReceiveEof | src/receiver.c:91-120 | the end of file, whatever its unwritten bytes hold, is acknowledged and ends the receiver |
| ProtocolProofs.DoneIsComplete | src/sender.c:264-284 | a sender that has returned leaves a complete transfer |
| SenderProofs.SendHalfIs | src/sender.c:129-178 | when a packet is sent, which, and every field after it |
| SenderProofs.ReturnsIff | src/sender.c:202-284 | the poll half returns exactly on a reply that is neither ACK nor NACK, or, unless recv failed, when the end of file was sent and everything is acknowledged |
| SenderProofs.PollHalfCounts | src/sender.c:202-249 | only an ACK changes counters and window, and every field after any outcome |
| SenderProofs.DamagedReplyCounts | src/sender.c:223-258 | damage behind the first byte of a reply changes nothing but the structure it is decoded into |
| SenderProofs.DamagedFirstByteCounts | src/sender.c:223-258 | a damaged first byte makes the reply before count once more |
| SenderProgram.Sender.SendTurn | src/sender.c:129-178 | the send half of a pass changes the fields and sends the bytes its specification says |
| SenderProgram.Sender.SendChunk | src/sender.c:155-176 | one chunk is encoded, counted and numbered |
| SenderProgram.Sender.SendEof | src/sender.c:131-153 | the end of file is encoded into 16 bytes, of which the last four are not written, and counted |
| SenderProgram.Sender.PollTurn | src/sender.c:202-284 | the poll half of a pass: a timeout, a recv error, or a reply |
| SenderProgram.Sender.TakeAck | src/sender.c:237-246 | an acknowledgement is counted, frees a place, and, if it is the first, tells the window |
| SenderProgram.MakeData | src/sender.c:156-167 | the datagram is the encoding of the packet, followed for an empty one by unwritten bytes up to 16 |
| ReceiverProofs.WindowRefinement | src/receiver.c:61-180 | for any in-window arrival order and copies, window position, slots and number of writes represent the set of indices seen |
| ReceiverProofs.ArrivalTracks | src/receiver.c:122-177 | one arrival: ignored if held, else acknowledged by its successor; the window moves only on the first missing packet |
| ReceiverProofs.StoreTracks | src/receiver.c:129-151 | storing a new packet slides the window to the first missing index |
| ReceiverProofs.ScanFindsHole | src/receiver.c:132-151 | the slide loop stops at the first missing index and empties exactly the slots before it; its eight turns always suffice |
| ReceiverProofs.ReorderCorruptsIff | src/receiver.c:139-150 | the output stays right exactly if the arriving packet is not the first missing one, or all packets held in a row behind it have its payload |
| ReceiverProofs.SwappedPair | src/receiver.c:131-141 | packet 1 before packet 0 writes payload 0 twice |
| ReceiverProofs.DuplicateRecognisedIff | src/receiver.c:122-126 | a packet is taken for a copy exactly when a held packet has its number; of those seen among the last 249 indices, exactly when it is still held |
| ReceiverProofs.LateCopyStored | src/receiver.c:122-151 | a copy of a written packet fills its slot and is acknowledged |
| ReceiverProofs.AfterLateCopy | src/receiver.c:130-151 | packets in order are written once each, until the one before the stale slot is written twice |
| ReceiverProofs.LateCopyCorrupts | src/receiver.c:122-151 | after a late copy of packet k and everything else in order, packet k + 255 is written twice and packet k + 256 never |
| ReceiverProofs.LateCopyExample | src/receiver.c:122-151 | the same from the start, with packet 0 copied |
| ReceiverFaults.StopsIff | src/receiver.c:91-120 | every datagram is counted, and exactly an end of file stops the receiver, whatever is still missing |
| ReceiverFaults.RepliesIff | src/receiver.c:78-201 | exactly when there is no answer, a NACK with the number, or an ACK with the number that follows |
| ReceiverFaults.OnlyStoringChanges | src/receiver.c:78-201 | slots, window and output change only when a new packet without TR is stored |
| ReceiverFaults.StoreIs | src/receiver.c:130-151 | in any state: how many payloads a stored packet writes, which slots it empties and where the window goes, the full slide included |
| ReceiverFaults.CutAnswered | src/receiver.c:181-200 | a cut packet changes no slot, window or output and is answered by a NACK with the number before, or not at all; by its own number exactly if the two are the same |
| ReceiverFaults.DamagedNext | src/receiver.c:122-177 | a packet damaged behind its number is acknowledged, and the payload before it written in its place |
| ReceiverFaults.NumberDamaged | src/receiver.c:122-177 | a damaged number fills and acknowledges the slot of its complement |
| ReceiverFaults.HeaderDamaged | src/receiver.c:122-177 | damage to the first three bytes is a late copy of the packet before |
| ReceiverFaults.DamagedPayloadExample | src/receiver.c:122-177 | packet 0 and a damaged packet 1: payload 0 twice, both acknowledged |
| ReceiverProgram.Receiver.HandleDatagram | src/receiver.c:61-203 | one turn changes the state and replies as its specification says |
| ReceiverProgram.Receiver.AnswerPacket | src/receiver.c:78-201 | the branch on the type |
| ReceiverProgram.Receiver.AnswerDataPacket | src/receiver.c:91-126 | the branches on end of file and duplicate |
| ReceiverProgram.Receiver.EndOfFile | src/receiver.c:91-120 | the end of file is acknowledged and the receiver stops |
| ReceiverProgram.Receiver.TakePacket | src/receiver.c:129-201 | a packet that is not held is stored and acknowledged, or answered by a NACK if truncated |
| ReceiverProgram.Receiver.StorePacket | src/receiver.c:130-151 | the slot is filled and the window slides |
| ReceiverProgram.Receiver.Slide | src/receiver.c:132-151 | the loop that writes and empties consecutive slots and breaks at the first hole |
| ReceiverProgram.MakeReply | src/receiver.c:163-172 | a reply built in uninitialised memory is the encoding of the intended ACK or NACK |
| ProxyProofs.ProxySoundness | Linksimulator/link_sim.c:350-377 | over any run with any faults, an accepted outgoing datagram has the content of a packet received in the same direction |
| ProxyProofs.OriginAuthentic | Linksimulator/link_sim.c:182-244 | a datagram that was relayed or damaged by the link is rejected or decodes to the packet its party sent |
| LinkFaults.LinkSoundness | Linksimulator/link_sim.c:182-200 | what passes the link and is accepted decodes to the packet sent |
| LinkFaults.DamageRejectedIff | Linksimulator/link_sim.c:189-200 | every cut is rejected; an inverted byte is accepted exactly when no check covers it |
| LinkFaults.TruncationRejected | src/packet.c:142-149 | a cut packet fails on its length field |
| LinkFaults.InversionRejected | Linksimulator/link_sim.c:195-200 | an inverted byte covered by type, CRC1 or CRC2 is rejected |
| LinkFaults.OneByteBreaksMatch | src/packet.c:170-197 | changing any byte of a block or of its CRC breaks their agreement |
| CrcProofs.CrcIsRemainder | src/packet.c:171-172 | for every message the CRC is the complement of the remainder of a long division of polynomials, as CRC-32 is defined |
| CrcProofs.GeneratorBits | src/packet.c:171-172 | the bits of the register's constant are the exponents of the CRC-32 generator polynomial |
| CrcProofs.CheckValue | src/packet.c:171-172 | the CRC of the digits 1 to 9 is the check value 0xCBF43926 |
| Crc32.OneByteChangesCrc | src/packet.c:171-178 | two messages that differ in one byte have different CRCs |
| Crc32.FoldInjective | src/packet.c:171-172 | the CRC register before a message is determined by the one after it |
| FaultProofs.FateIs | Linksimulator/link_sim.c:184-200 | which rate and roll decide each fault, in their order, and which bytes it changes |
| FaultProofs.StrikingResidues | Linksimulator/link_sim.c:184-196 | of the 101 residues of a roll exactly as many strike as the rate says |
| FaultProofs.FirstByteIs | src/packet.c:86-133 | type, TR and window are the upper two bits, the next one and the lower five |
| FaultProofs.EarlyStatusIs | src/packet.c:86-158 | when pkt_decode reports a missing header, an inconsistent or a wrong type, or a wrong length |
| FaultProofs.CheckedStatusIs | src/packet.c:170-234 | otherwise it accepts exactly what fits its CRCs and else reports a CRC error |
| FaultProofs.RejectedLeaves | src/packet.c:86-241 | every field of the structure after each kind of rejection |
| FaultProofs.AcceptedLeaves | src/packet.c:86-241 | every field of the structure after acceptance |
| FaultProofs.CutLeaves | src/packet.c:120-149 | a cut packet leaves the number, length and payload of the packet before it, with TR set |
| FaultProofs.FirstInvertedLeaves | src/packet.c:86-125 | an inverted first byte leaves everything as it was |
| FaultProofs.InvertedLeaves | src/packet.c:138-201 | what any other inverted byte of a DATA packet leaves, field by field; the payload is always the old one |
| FaultProofs.ReplyInvertedLeaves | src/packet.c:204-234 | what any other inverted byte of an ACK or NACK leaves |
| WireLayout.DataLayout | src/packet.c:284-331 | the bytes of a DATA packet, with the byte order of each field |
| WireLayout.ReplyLayout | src/packet.c:284-345 | the bytes of an ACK or NACK |
| WireLayout.ChunkHeader | src/sender.c:156-168 | the header of a chunk: type DATA, window 0, its length and number, timestamp 250 |
| WireLayout.EofHeader | src/sender.c:136-144 | the header of the end of file, with the timestamp received last |
| WireLayout.ReplyHeaders | src/receiver.c:163-170 | the headers of the answers: window 7, timestamp 100 |
| WireLayout.FirstAck | src/receiver.c:163-172 | the ten bytes that acknowledge packet 0 |
| PacketProofs.RoundTrip | src/packet.c:255-346 | decoding an encoding returns PKT_OK and the same content, whatever the structure held and whatever follows that the decoder ignores |
| PacketProofs.Canonical | src/packet.c:86-241 | whatever is accepted is the encoding of what was decoded |
| PacketProofs.AcceptedIffEncoded | src/packet.c:78-241 | the accepted byte strings are exactly the encodings |
| PacketProofs.SameWireIffSameContent | src/packet.c:272-345 | encodings are equal exactly when contents are |
| PacketProofs.HeaderCrcIgnoresTrIff | src/packet.h:53-54 | the header CRC is that of the header with TR as 0 exactly if TR is 0 |
| Packet.Pkt.Encode | src/packet.c:255-346 | the buffer holds the encoding and is otherwise unchanged; the cases of too little room and of no type |
| Packet.Pkt.DecodeFrom | src/packet.c:78-241 | status and every field after decoding, with old values where decoding did not get to |
| Packet.Pkt.SetType | src/packet.c:404-413 | accepts exactly the three types |
| Packet.Pkt.SetTr | src/packet.c:415-423 | accepts exactly 0 and 1 |
| Packet.Pkt.SetWindow | src/packet.c:425-433 | accepts exactly windows up to 31 |
| Packet.Pkt.SetLength | src/packet.c:449-457 | accepts exactly lengths up to 512 |
| Packet.Pkt.SetPayload | src/packet.c:484-496 | replaces the payload even when the length is refused |
| HeapSpec.Refinement | Linksimulator/min_queue.c:82-160 | after any run of pushes and pops the array is a heap whose root is a minimum, and the next operation acts on the contents as on a bag that loses a minimum |
| HeapSpec.RootMinimum | Linksimulator/min_queue.c:155-160 | the root of a heap is not greater than any element |
| HeapSpec.SmallestChild | Linksimulator/min_queue.c:117-130 | has_child picks a child no other child is smaller than; its 0 means no child that should rise |
| HeapSpec.Child | Linksimulator/min_queue.c:117-130 | a nonzero answer is a child, greater than its argument and within the array |
| HeapSpec.PushHeap | Linksimulator/min_queue.c:98-112 | heapify-up restores heap order |
| HeapSpec.PopHeap | Linksimulator/min_queue.c:135-152 | heapify-down restores heap order |
| HeapSpec.PushContents | Linksimulator/min_queue.c:82-114 | a push adds exactly the pushed element |
| HeapSpec.PopContents | Linksimulator/min_queue.c:132-153 | a pop removes exactly one occurrence of the root |
| HeapSpec.DrainSorts | Linksimulator/min_queue.c:132-153 | popping until empty yields a sorted permutation |
| HeapStrict.StrictRunsIff | Linksimulator/min_queue.c:39-41 | whatever is pushed, every node is smaller than its children in every interleaving of pushes and pops exactly if no two of the pushed elements tie |
| HeapStrict.StrictThroughoutIff | Linksimulator/min_queue.c:39-41 | a heap stays so through any number of pops exactly if no two of its elements tie |
| HeapStrict.PushStrictIff | Linksimulator/min_queue.c:39-41 | a push keeps every node smaller than its children exactly if the pushed element ties with no slot on its way up |
| HeapStrict.EqualKeysNotStrict | Linksimulator/min_queue.c:39-41 | two equal keys break it |
| HeapStrict.DistinctKeysStrict | Linksimulator/min_queue.c:39-41 | in a heap without ties every node is smaller than its children |
| HeapSpec.UpTurnsBound | Linksimulator/min_queue.h:30-32 | heapify-up from slot n takes at most floor(log2 n) + 1 turns |
| HeapSpec.DownTurnsBound | Linksimulator/min_queue.h:30-32 | heapify-down over m elements takes at most floor(log2 (m - 1)) + 1 turns |
| MinQueue.New | Linksimulator/min_queue.c:59-73 | no queue without a comparison or if an allocation fails, else an empty one with twenty slots |
| MinQueue.MinQueue.constructor | Linksimulator/min_queue.c:65-72 | a new queue is empty with twenty slots |
| MinQueue.MinQueue.Push | Linksimulator/min_queue.c:82-114 | the array after a push, the growth, the number of turns, and that a failed push changes nothing |
| MinQueue.MinQueue.HeapifyUp | Linksimulator/min_queue.c:98-112 | the hole-moving loop is the swapping heapify-up |
| MinQueue.MinQueue.Grow | Linksimulator/min_queue.c:86-97 | reallocation keeps the elements |
| MinQueue.MinQueue.HasChild | Linksimulator/min_queue.c:117-130 | computes the specified child |
| MinQueue.MinQueue.Pop | Linksimulator/min_queue.c:132-153 | the array after a pop and the number of turns |
| MinQueue.MinQueue.HeapifyDown | Linksimulator/min_queue.c:141-152 | the swapping loop is the specified heapify-down |
| MinQueue.MinQueue.Peek | Linksimulator/min_queue.c:155-160 | the root, or nothing |
| MinQueue.MinQueue.Empty | Linksimulator/min_queue.c:162-165 | whether no element is queued |
| MinQueue.MinQueue.Size | Linksimulator/min_queue.c:167-170 | the number of elements |
| Clock.DiffExactIff | Linksimulator/link_sim.c:114-126 | the difference is exact unless the seconds differ by one and a borrow is needed |
| Clock.DiffIs | Linksimulator/link_sim.c:114-126 | the difference in every case: a second too little if the borrow is lost, and normalised otherwise |
| Clock.TimevalDiff | Linksimulator/link_sim.c:115-126 | the statements compute the specified difference |
| Clock.Eligibility | Linksimulator/link_sim.c:227-230 | when a delayed packet becomes eligible, relative to arrival plus delay |
| Clock.NeverEarlyIff | Linksimulator/link_sim.c:227-230 | no packet leaves early exactly for stamps whose microseconds do not exceed a second |
| Clock.ShiftKeepsOrder | Linksimulator/link_sim.c:106-112 | one delay added to two clocks keeps their field-by-field order |
| Clock.TimeoutBound | Linksimulator/link_sim.c:328-347 | the wait is positive, at most the time left or a millisecond, and exact from one second on |
| Clock.TimeoutIs | Linksimulator/link_sim.c:328-347 | exactly when the wait is the time left, and a millisecond otherwise |
| Clock.NoOversleepIff | Linksimulator/link_sim.c:334-345 | the wait fits whatever may be behind the root exactly if the root's microseconds do not exceed a second, or its second has passed, or at most a millisecond is left to it |
| Clock.WaitFitsIff | Linksimulator/link_sim.c:334-345 | the same for one packet behind the root |
| WaitProofs.QueueWaitIff | Linksimulator/link_sim.c:334-345 | for every queue the proxy can reach: select sleeps past no expiry exactly if the root denotes the earliest instant, or one of these two conditions holds |
| WaitProofs.NoOversleepWithoutJitter | Linksimulator/link_sim.c:334-345 | without jitter select never sleeps past an expiry, over whole runs |
| WaitProofs.OversleepRun | Linksimulator/link_sim.c:334-345 | a run with jitter in which select may sleep 999 ms while a packet is due in 200 ms |
| ProxySpec.SlotOrder | Linksimulator/link_sim.c:441-447 | the slot comparison is a strict weak order |
| ProxyProofs.DeliverGood | Linksimulator/link_sim.c:151-171 | with any send failures: sent plus queued is the old queue, sent in stamp order, all expired, none later than what is kept |
| ProxyProofs.DeliverAll | Linksimulator/link_sim.c:151-171 | if no send fails, nothing expired stays |
| ProxyProofs.Conservation | Linksimulator/link_sim.c:350-377 | in every reachable state the queue is a heap and holds exactly what was queued and not delivered |
| ProxyProofs.Accounting | Linksimulator/link_sim.c:182-244 | over any run, what was sent and what is queued are together, each once, what was to leave for the datagrams received; nothing comes out twice, and while the proxy runs nothing is missing |
| ProxyProofs.RunExplained | Linksimulator/link_sim.c:182-244 | everything sent or queued was received in some turn, then relayed or damaged by the link |
| ProxyProofs.ProcessCases | Linksimulator/link_sim.c:247-303 | a receipt stops the loop, does nothing, is sent on, or is queued with its stamp |
| ChannelProofs.StampsInOrder | Linksimulator/link_sim.c:227-230 | constant delay and a clock that does not fall back: packets are queued in the order of their stamps |
| ChannelProofs.DeliveryOrder | Linksimulator/link_sim.c:214-232 | then packets of each kind leave the queue in arrival order, if behind the first no two different ones of a kind have the same stamp |
| ChannelProofs.AdvancingHarmless | Linksimulator/link_sim.c:227-230 | a turn whose clock is later than the last queues nothing that ties |
| ChannelProofs.LosslessFifoChannel | Linksimulator/link_sim.c:182-244 | a link that at most delays, under that condition on clock and ties: in each direction what is on the wire is, unaltered and in order, an initial part of what arrived, and while the proxy runs the rest is in the queue |
| ChannelProofs.ChannelDrains | Linksimulator/link_sim.c:151-171 | a turn past every stamp whose sends succeed empties the queue, and all that arrived has come out |
| TransferOverLink.OutputThroughLink | Linksimulator/link_sim.c:350-377 | through a link that at most delays, with a clock that does not fall back and no two different packets of one direction stamped alike behind the first, in every interleaving of sender, proxy and receiver: the output is a prefix of the file, and the file once either end has finished |
| TransferOverLink.TransferCanComplete | Linksimulator/link_sim.c:350-377 | under the same conditions: from every reachable state in which the proxy runs, some run of the three programs ends in a complete transfer |
| TransferOverLink.EndsAreFinite | src/sender.c:127-285 | under the same conditions: in every run sender and receiver take at most 12 N + 13 steps, and two more for every early timeout of the poll |
| TransferOverLink.Advance | Linksimulator/link_sim.c:350-377 | before the sender has returned, some turns of the proxy and a step of sender or receiver bring the rank nearer to zero |
| TransferOverLink.Flush | Linksimulator/link_sim.c:350-377 | some turns of the proxy let out all that has been sent |
| TransferOverLink.EndsRefine | src/sender.c:127-285 | a step of sender or receiver over the link is a step over lossless channels |
| TransferOverLink.ProxyTurnInv | Linksimulator/link_sim.c:350-377 | a turn of the proxy changes nothing the two can tell |
| TransferOverLink.OutWasSent | Linksimulator/link_sim.c:182-232 | whatever has come out of the proxy was sent, in order |
| ArrivalOrder.ArrivalOrderIff | Linksimulator/link_sim.c:151-171 | constant delay, clock that does not fall back: however many packets have arrived and however sends succeed, those of each kind leave in arrival order exactly if, behind the first of all, no two different ones of a kind come at one clock read |
| ArrivalOrder.WholeOrderIff | Linksimulator/link_sim.c:151-171 | the same for the order of all packets: what was delivered is an initial part of what was queued |
| ArrivalOrder.TiesReorderIff | Linksimulator/min_queue.c:132-153 | of a burst into an idle proxy, n packets read at one clock leave as the first and then the others in reverse, which is arrival order exactly if the others read the same in reverse, and for different packets exactly if n is at most 2 |
| HeapTies.FifoIff | Linksimulator/min_queue.c:82-153 | elements pushed in order leave, kind by kind, in that order in every interleaving of pushes and pops exactly if, from the second on, no two different ones of a kind tie |
| HeapTies.RunFifo | Linksimulator/min_queue.c:82-153 | under that condition each kind has left in turn after every run, and the array holds the rest |
| HeapTies.Misordered | Linksimulator/min_queue.c:132-153 | otherwise a run that takes one of them out of turn |
| HeapTies.RunContents | Linksimulator/min_queue.c:82-153 | over every run, what was pushed is what is held and what was taken out |
| HeapTies.TiedDrain | Linksimulator/min_queue.c:132-153 | tied elements are popped first, last, last but one, and so on |
| DelayProofs.DelayCappedIff | Linksimulator/link_sim.c:203-214 | with or without jitter and with every wrap-around: what is applied is the drawn delay capped to ten seconds, for all rolls up to RAND_MAX, exactly if nothing above ten seconds can be drawn |
| DelayProofs.RawDelayForm | Linksimulator/link_sim.c:205-213 | in every case the drawn delay is a remainder added to the least one, in 32-bit arithmetic |
| DelayProofs.AppliedCongruent | Linksimulator/link_sim.c:214 | the applied delay is the drawn one modulo 10 000 ms |
| DelayProofs.JitterRange | Linksimulator/link_sim.c:497-499 | for sums that fit the type, exactly the delays from delay - jitter up to but not including delay + jitter are drawn, as far as RAND_MAX reaches |
| TurnProofs.LoopStopsIff | Linksimulator/link_sim.c:350-377 | a turn ends the loop exactly on a failure of select, the clock, a delayed send, recvfrom, a send or an allocation |
| TurnProofs.TurnIs | Linksimulator/link_sim.c:350-377 | what any other turn sends, in order, and queues |
| TurnProofs.DeliverUntil | Linksimulator/link_sim.c:151-171 | delivery goes on to the first send that does not succeed and fails exactly if that failed for good |
| TurnProofs.EmissionIs | Linksimulator/link_sim.c:247-303 | which datagrams are passed on: those of the parties, of ten bytes or more, not lost |
| TurnProofs.WhoSuffers | Linksimulator/link_sim.c:287-302 | which direction suffers with which option |
| LinkSim.LinkSim.LoopOnce | Linksimulator/link_sim.c:350-377 | one turn of the loop is the specified step |
| LinkSim.LinkSim.DeliverDelayed | Linksimulator/link_sim.c:151-171 | the delivery loop sends and removes what its specification says |
| LinkSim.LinkSim.SimulateLink | Linksimulator/link_sim.c:182-244 | damage, then queueing or sending, with every failure |
| LinkSim.LinkSim.DamageBuffer | Linksimulator/link_sim.c:184-200 | drop, cut or corrupt |
| LinkSim.LinkSim.DelayPacket | Linksimulator/link_sim.c:216-235 | queueing with its two allocation failures |
| LinkSim.LinkSim.DrawDelay | Linksimulator/link_sim.c:204-214 | the branches that draw the delay compute the specified one |
| LinkSim.LinkSim.ProcessIncoming | Linksimulator/link_sim.c:247-303 | short, alien, relayed and simulated packets |
| LinkSim.LinkSim.GetQueueTimeout | Linksimulator/link_sim.c:328-347 | no timeout for an empty queue, else that of the root |

## Left out

- Sockets, poll and select, files, addresses, options, statistics and logging: sends and receives are queue operations, and their outcomes are inputs.
- Retransmission (src/sender.c:27-43, 193-201, 213-219, 254): it indexes `isEmpty` one past its end and takes the length of binary data with `strlen`.
- SenderProgram.Sender.PollTurn: does not model the datagram that is sent again after a recv error or a NACK, for that reason. Neither occurs on the channels of `Protocol`.
- Recovery from loss: not a property of the code, for the reason above.
- The sender's `isEmpty`, `pckt_window` and time arrays, which only retransmission reads.
- The receiver's `payload_window` (src/receiver.c:131), which is written and never read, and its `window_size`, which is only printed.
- Packet.Pkt.Encode: requires a buffer that holds the payload, because src/packet.c:267 does not look at the length and the code would write past a shorter one.
- Packet.Pkt.DecodeFrom: requires at least one byte, because pkt_decode reads the first byte of an empty datagram from whatever the buffer held before.
- ReceiverProgram.Receiver.HandleDatagram: requires, after a failed decode, that the old payload is as long as the new length, because src/receiver.c:131 would read past it. This is met in every reachable state of `Protocol`.
- ReceiverProgram.Receiver.AnswerPacket: requires the same of the packet it is given.
- ReceiverProgram.Receiver.AnswerDataPacket: requires the same.
- ReceiverProgram.Receiver.TakePacket: requires the same.
- ReceiverProgram.Receiver.StorePacket: requires the same.
- ReceiverProgram.Receiver.Slide: takes fwrite to succeed; a failing one prints a message into the output itself (src/receiver.c:145-148).
- A failing recv of the receiver, which makes it return (src/receiver.c:70-73).
- LinkSim.LinkSim.ProcessIncoming: takes the direction of a datagram as an input; comparing and learning addresses (src/real_address.c, Linksimulator/link_sim.c:273-283) is not modelled.
- Allocation of packets is assumed to succeed, as the code assumes. Null queue pointers are not modelled.
- A delay and jitter whose unsigned sum wraps to 0, which would divide by zero. Other wrap-arounds are modelled.
- The host is taken to store the least significant byte first; only the uninterpreted timestamp depends on it.
- proxy_loop calls process_incoming_pkt only if the socket is readable; here a turn without a datagram is one whose receipt is RecvAgain.
