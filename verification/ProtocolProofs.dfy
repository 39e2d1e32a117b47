/** Reliable transfer: what every interleaving of sender and receiver keeps, where it leads, and
    what it has written when it gets there. */
module ProtocolProofs {
  import opened Bytes
  import opened LinkFaults
  import opened Numbers
  import opened Options
  import opened Packet
  import opened PacketProofs
  import opened Protocol
  import opened ReceiverProofs
  import opened ReceiverSpec
  import opened SenderSpec

  // ---------- Chunks ----------

  lemma ChunkRange(input: seq<byte>, k: nat)
    ensures k < Chunks(input) <==> CHUNK * k < |input|
  {
  }

  /** fread returns chunk k when k chunks were read, and nothing once all were. */
  lemma NextChunkIs(input: seq<byte>, s: Sender)
    requires SenderInv(input, s)
    ensures SenderOk(s)
    ensures var k := DataSent(s);
            && (k < Chunks(input) ==> NextChunk(s) == Chunk(input, k)
                                      && s.pos + |NextChunk(s)| == Least(CHUNK * (k + 1), |input|))
            && (k == Chunks(input) ==> NextChunk(s) == [])
  {
    ChunkRange(input, DataSent(s));
  }

  lemma {:induction false} ConcatIsPrefix(input: seq<byte>, parts: seq<seq<byte>>)
    requires |parts| <= Chunks(input)
    requires forall k :: 0 <= k < |parts| ==> parts[k] == Chunk(input, k)
    ensures Concat(parts) == input[..Least(CHUNK * |parts|, |input|)]
  {
    if |parts| > 0 {
      var n := |parts| - 1;
      ChunkRange(input, n);
      ConcatIsPrefix(input, parts[..n]);
    }
  }

  // ---------- Datagrams ----------

  lemma ChunkCarried(input: seq<byte>, k: nat, m: seq<byte>)
    requires Message(input, k, m) && k < Chunks(input)
    ensures Carries(m, k, Chunk(input, k))
  {
    var p := DataPacket(ToByte(k % SLOTS), Chunk(input, k));
    hide Header, Crc32.Crc, ToByte, Chunk, Chunks;
    assert OnWire(p, m);
    assert p.payload[..p.length] == Chunk(input, k);
  }

  ghost function FirstIndices(k: nat): (s: set<nat>)
    ensures forall j: nat :: j in s <==> j < k
  {
    if k == 0 then {} else FirstIndices(k - 1) + {k - 1}
  }

  /** The receiver's state when it has delivered exactly the first k packets. */
  lemma EmptySlotsTrack(r: Receiver, k: nat)
    requires |r.filled| == SLOTS && forall i :: 0 <= i < SLOTS ==> !r.filled[i]
    requires r.window == k % SLOTS && |r.writes| == k
    ensures Tracks(r, k, FirstIndices(k))
  {
  }

  lemma TracksEmptySlots(r: Receiver, b: nat, seen: set<nat>)
    requires Tracks(r, b, seen) && forall h :: h in seen ==> h < b
    ensures |r.filled| == SLOTS && forall i :: 0 <= i < SLOTS ==> !r.filled[i]
    ensures r.window == b % SLOTS && |r.writes| == b
  {
  }

  /** The next chunk matches the window, is written at once, and leaves every slot empty. */
  lemma ReceiveChunk(input: seq<byte>, r: Receiver, m: seq<byte>)
    requires ReceiverInv(input, r) && r.received < Chunks(input) && Message(input, r.received, m)
    ensures Receivable(r, m)
    ensures var res := Receive(r, m);
            && ReceiverInv(input, res.receiver) && res.receiver.received == r.received + 1
            && res.reply == Some(Ack(ToByte((r.received + 1) % SLOTS)))
  {
    hide Receive, Receivable, Carries, Tracks, Message, Ack, Chunk, Chunks, ToByte, FirstMissing;
    var k, seen := r.received, FirstIndices(r.received);
    ChunkCarried(input, k, m);
    EmptySlotsTrack(r, k);
    var c := ArrivalTracks(r, k, seen, m, k, Chunk(input, k));
    TracksEmptySlots(Receive(r, m).receiver, c, seen + {k});
    assert c == k + 1;
    assert Receive(r, m).receiver.writes == r.writes + [Chunk(input, k)];
  }

  lemma EofDecoded(k: nat, ts: bv32, tail: seq<byte>, was: Fields)
    requires |tail| == DATA_SIZE - HEADER_SIZE
    ensures var m := Wire(EofPacket(ToByte(k % SLOTS), ts)) + tail;
            && |m| > 0
            && var p := Decode(m, was).pkt;
               p.ptype == PTYPE_DATA && p.tr == 0 && p.length == 0 && p.seqnum == ToByte(k % SLOTS)
  {
    RoundTrip(EofPacket(ToByte(k % SLOTS), ts), tail, was);
    hide Decode, ToByte, Header, Crc32.Crc;
  }

  lemma ReceiveEofPacket(r: Receiver, data: seq<byte>)
    requires Receivable(r, data)
    requires var p := Decode(data, r.pkt).pkt; p.ptype == PTYPE_DATA && p.tr == 0 && p.length == 0
    ensures var q := r.(pkt := Decode(data, r.pkt).pkt, received := r.received + 1);
            Receive(r, data) == Received(q.(running := false), Some(Ack(q.pkt.seqnum + 1)))
  {
    hide Decode, ToInt, Ack, AnswerNew;
  }

  /** The end-of-file packet is acknowledged and ends the receiver. */
  lemma ReceiveEof(input: seq<byte>, r: Receiver, m: seq<byte>)
    requires ReceiverInv(input, r) && r.received == Chunks(input) && Message(input, r.received, m)
    ensures Receivable(r, m)
    ensures var res := Receive(r, m);
            && ReceiverInv(input, res.receiver) && res.receiver.received == r.received + 1
            && res.reply == Some(Ack(ToByte((r.received + 1) % SLOTS)))
  {
    hide Decode, ToByte, ToInt, Wire, Ack, Chunk, Chunks, Receive;
    var k := r.received;
    var ts, tail :| |tail| == DATA_SIZE - HEADER_SIZE && m == Wire(EofPacket(ToByte(k % SLOTS), ts)) + tail;
    EofDecoded(k, ts, tail, r.pkt);
    SuccessorOfResidue(k);
    ReceiveEofPacket(r, m);
  }

  lemma AckDecoded(seqnum: byte, was: Fields)
    ensures |Ack(seqnum)| > 0
    ensures var p := Decode(Ack(seqnum), was).pkt;
            p.ptype == PTYPE_ACK && p.window == 7 && p.seqnum == seqnum
  {
    assert Ack(seqnum) == Ack(seqnum) + [];
    RoundTrip(Reply(PTYPE_ACK, seqnum), [], was);
    hide Decode, Header, Crc32.Crc;
  }

  // ---------- Every step keeps the invariant ----------

  /** Sending: the message is the next in line, or there is none. */
  lemma AtTopInv(input: seq<byte>, s: Sender, tail: seq<byte>)
    requires SenderInv(input, s) && s.phase == Top && |tail| == DATA_SIZE - HEADER_SIZE
    ensures SenderOk(s)
    ensures var t := AtTop(s, tail);
            && SenderInv(input, t.sender)
            && t.sender.received == s.received
            && t.sender.sent == s.sent + (if t.message.Some? then 1 else 0)
            && (t.message.Some? ==> Message(input, s.sent, t.message.value))
  {
    hide NextChunk, Chunk, Wire, ToByte, Chunks, SenderInv, Message;
    NextChunkIs(input, s);
    SenderFacts(input, s);
    if s.max > s.space && !s.theLast {
      if DataSent(s) == Chunks(input) {
        SendsEof(input, s, tail);
      } else {
        SendsChunk(input, s, tail);
      }
    } else {
      OnlyPhase(input, s, Poll);
    }
  }

  lemma SenderFacts(input: seq<byte>, s: Sender)
    requires SenderInv(input, s)
    ensures 0 <= DataSent(s) <= Chunks(input)
  {
    hide Chunks;
  }

  lemma OnlyPhase(input: seq<byte>, s: Sender, phase: Phase)
    requires SenderInv(input, s) && phase != Done
    ensures SenderInv(input, s.(phase := phase))
  {
    hide Chunks;
  }

  lemma SendsEof(input: seq<byte>, s: Sender, tail: seq<byte>)
    requires SenderInv(input, s) && s.phase == Top && |tail| == DATA_SIZE - HEADER_SIZE && SenderOk(s)
    requires s.max > s.space && !s.theLast && DataSent(s) == Chunks(input) && NextChunk(s) == []
    ensures var t := AtTop(s, tail);
            && SenderInv(input, t.sender) && t.sender.received == s.received && t.sender.sent == s.sent + 1
            && t.message.Some? && Message(input, s.sent, t.message.value)
  {
    hide NextChunk, Chunk, Wire, ToByte, Chunks;
    var t := AtTop(s, tail);
    assert t.message == Some(Wire(EofPacket(ToByte(s.sent % SLOTS), s.pkt.timestamp)) + tail);
  }

  lemma SendsChunk(input: seq<byte>, s: Sender, tail: seq<byte>)
    requires SenderInv(input, s) && s.phase == Top && SenderOk(s)
    requires var k := DataSent(s);
             && s.max > s.space && !s.theLast && k < Chunks(input) && NextChunk(s) == Chunk(input, k)
             && s.pos + |NextChunk(s)| == Least(CHUNK * (k + 1), |input|)
    ensures var t := AtTop(s, tail);
            && SenderInv(input, t.sender) && t.sender.received == s.received && t.sender.sent == s.sent + 1
            && t.message.Some? && Message(input, s.sent, t.message.value)
  {
    hide NextChunk, Chunk, Wire, ToByte, Chunks;
    ResidueOfSuccessor(s.sent);
  }

  /** Taking in the acknowledgement that is due. */
  lemma TakeAckInv(input: seq<byte>, s: Sender, m: seq<byte>)
    requires SenderInv(input, s) && s.phase == Poll && s.received < s.sent
    requires m == Ack(ToByte((s.received + 1) % SLOTS))
    ensures |m| > 0
    ensures var t := TakeReply(s, m);
            && SenderInv(input, t)
            && t.sent == s.sent && t.received == s.received + 1
            && t.pkt.seqnum == ToByte((s.received + 1) % SLOTS)
  {
    hide Decode, Ack, ToByte, Chunks, TakeReply;
    AckDecoded(ToByte((s.received + 1) % SLOTS), s.pkt);
    TakeAck(s, m);
  }

  lemma TakeAck(s: Sender, m: seq<byte>)
    requires |m| > 0 && Decode(m, s.pkt).pkt.ptype == PTYPE_ACK && Decode(m, s.pkt).pkt.window == 7
    ensures TakeReply(s, m) == AtBottom(s.(pkt := Decode(m, s.pkt).pkt, received := s.received + 1,
                                           space := s.space - 1,
                                           firstAck := false, max := if s.firstAck then 7 else s.max))
  {
    hide Decode;
  }

  lemma SenderTopInv(input: seq<byte>, st: System, tail: seq<byte>)
    requires Inv(input, st) && Enabled(st, SenderTop(tail))
    ensures Inv(input, Next(st, SenderTop(tail)))
  {
    hide AtTop, SenderInv, ReceiverInv, Message, Ack, ToByte, Receivable;
    AtTopInv(input, st.s, tail);
  }

  lemma SenderPollInv(input: seq<byte>, st: System)
    requires Inv(input, st) && Enabled(st, SenderPoll)
    ensures Inv(input, Next(st, SenderPoll))
  {
    hide TakeReply, SenderInv, ReceiverInv, Message, Ack, ToByte, Receivable;
    assert st.acks[0] == Ack(ToByte((st.s.received + 1) % SLOTS));
    TakeAckInv(input, st.s, st.acks[0]);
    var t := Next(st, SenderPoll);
    forall i | 0 <= i < |t.acks|
      ensures t.acks[i] == Ack(ToByte((t.s.received + i + 1) % SLOTS))
    {
      assert t.acks[i] == st.acks[i + 1];
    }
  }

  lemma ReceiverTurnInv(input: seq<byte>, st: System)
    requires Inv(input, st) && Enabled(st, ReceiverTurn)
    ensures Inv(input, Next(st, ReceiverTurn))
  {
    hide Receive, Receivable, SenderInv, Message, Ack, ToByte, Chunks;
    var m := st.data[0];
    assert Message(input, st.r.received + 0, m);
    if st.r.received < Chunks(input) {
      ReceiveChunk(input, st.r, m);
    } else {
      ReceiveEof(input, st.r, m);
    }
    hide ReceiverInv;
    var t := Next(st, ReceiverTurn);
    forall i | 0 <= i < |t.data|
      ensures Message(input, t.r.received + i, t.data[i])
    {
      assert t.data[i] == st.data[i + 1];
    }
  }

  lemma SenderTimeoutInv(input: seq<byte>, st: System)
    requires Inv(input, st) && Enabled(st, SenderTimeout)
    ensures Inv(input, Next(st, SenderTimeout))
  {
    hide Message, Ack, ToByte, Chunks, ReceiverInv, Receivable;
  }

  lemma NextInv(input: seq<byte>, st: System, a: Action)
    requires Inv(input, st) && Enabled(st, a)
    ensures Inv(input, Next(st, a))
  {
    hide Inv, Enabled, Next;
    match a {
      case SenderTop(tail) => SenderTopInv(input, st, tail);
      case SenderPoll => SenderPollInv(input, st);
      case SenderTimeout => SenderTimeoutInv(input, st);
      case ReceiverTurn => ReceiverTurnInv(input, st);
    }
  }

  lemma {:induction false} ExecInv(input: seq<byte>, st: System, acts: seq<Action>)
    requires Inv(input, st)
    ensures Inv(input, Exec(st, acts))
    decreases |acts|
  {
    hide Inv, Enabled, Next;
    if |acts| > 0 {
      if Enabled(st, acts[0]) {
        NextInv(input, st, acts[0]);
        ExecInv(input, Next(st, acts[0]), acts[1..]);
      } else {
        ExecInv(input, st, acts[1..]);
      }
    }
  }

  lemma InitialInv(input: seq<byte>, g: Fields, h: Fields)
    ensures Inv(input, Initial(input, g, h))
  {
  }

  // ---------- Safety ----------

  lemma OutputOfInv(input: seq<byte>, st: System)
    requires Inv(input, st)
    ensures Concat(st.r.writes) <= input
    ensures Concat(st.r.writes) == input[..Least(CHUNK * |st.r.writes|, |input|)]
    ensures !st.r.running || st.s.phase == Done ==> Concat(st.r.writes) == input
  {
    hide Message, Ack, ToByte;
    ConcatIsPrefix(input, st.r.writes);
    ChunkRange(input, |st.r.writes|);
    hide Concat, Chunk;
  }

  /** Over every interleaving: what the receiver has written is the beginning of the file, chunk
      by chunk; it is the whole file once the receiver has stopped, and once the sender has
      returned. */
  lemma OutputIsInput(input: seq<byte>, g: Fields, h: Fields, acts: seq<Action>)
    ensures var st := Exec(Initial(input, g, h), acts);
            && Concat(st.r.writes) <= input
            && Concat(st.r.writes) == input[..Least(CHUNK * |st.r.writes|, |input|)]
            && |st.r.writes| == Least(st.r.received, Chunks(input))
            && (!st.r.running || st.s.phase == Done ==> Concat(st.r.writes) == input)
  {
    var st := Exec(Initial(input, g, h), acts);
    InitialInv(input, g, h);
    ExecInv(input, Initial(input, g, h), acts);
    OutputOfInv(input, st);
    hide Exec, Initial, SenderInv, Message, Ack, ToByte, Concat, Chunk, Chunks;
  }

  /** In every reachable state: nothing is lost or counted twice, the window count is what is
      unacknowledged but for the end of file, and the advertised window is respected: one packet
      under way before the first acknowledgement, seven afterwards. */
  lemma FlowControl(input: seq<byte>, g: Fields, h: Fields, acts: seq<Action>)
    ensures var st := Exec(Initial(input, g, h), acts);
            && st.s.sent - st.s.received == |st.data| + |st.acks|
            && st.s.space == st.s.sent - st.s.received - (if st.s.theLast then 1 else 0)
            && st.s.sent - st.s.received <= st.s.max
            && st.s.max == if st.s.received == 0 then 1 else WINDOW
  {
    InitialInv(input, g, h);
    ExecInv(input, Initial(input, g, h), acts);
    hide Exec, Initial, Message, Ack, ToByte, ReceiverInv;
  }

  /** In every reachable state: the packet that arrives next is the one the window position asks
      for, no slot is filled between turns, and packet k is acknowledged by k + 1, all modulo 256
      and through every wrap-around. */
  lemma SequenceNumbers(input: seq<byte>, g: Fields, h: Fields, acts: seq<Action>, was: Fields)
    ensures var st := Exec(Initial(input, g, h), acts);
            && st.s.seqnum == DataSent(st.s) % SLOTS
            && |st.r.filled| == SLOTS && (forall i :: 0 <= i < SLOTS ==> !st.r.filled[i])
            && (st.r.running ==> st.r.window == st.r.received % SLOTS)
            && (forall i :: 0 <= i < |st.data| ==>
                  |st.data[i]| > 0 && Decode(st.data[i], was).pkt.seqnum == ToByte((st.r.received + i) % SLOTS))
            && (forall i :: 0 <= i < |st.acks| ==>
                  |st.acks[i]| > 0 && Decode(st.acks[i], was).pkt.seqnum == ToByte((st.s.received + i + 1) % SLOTS))
  {
    hide Exec, Initial, Message, Ack, ToByte, Decode, Chunks, Chunk;
    var st := Exec(Initial(input, g, h), acts);
    InitialInv(input, g, h);
    ExecInv(input, Initial(input, g, h), acts);
    forall i | 0 <= i < |st.data|
      ensures |st.data[i]| > 0 && Decode(st.data[i], was).pkt.seqnum == ToByte((st.r.received + i) % SLOTS)
    {
      MessageDecoded(input, st.r.received + i, st.data[i], was);
    }
    forall i | 0 <= i < |st.acks|
      ensures |st.acks[i]| > 0 && Decode(st.acks[i], was).pkt.seqnum == ToByte((st.s.received + i + 1) % SLOTS)
    {
      AckDecoded(ToByte((st.s.received + i + 1) % SLOTS), was);
    }
  }

  lemma MessageDecoded(input: seq<byte>, k: nat, m: seq<byte>, was: Fields)
    requires Message(input, k, m)
    ensures |m| > 0 && Decode(m, was).pkt.seqnum == ToByte(k % SLOTS)
  {
    hide Decode, ToByte, Header, Crc32.Crc;
    if k < Chunks(input) {
      var p := DataPacket(ToByte(k % SLOTS), Chunk(input, k));
      assert m == Wire(p) + [];
      RoundTrip(p, [], was);
    } else {
      var ts, tail :| |tail| == DATA_SIZE - HEADER_SIZE && m == Wire(EofPacket(ToByte(k % SLOTS), ts)) + tail;
      EofDecoded(k, ts, tail, was);
    }
  }

  // ---------- Progress and termination ----------

  /** Sends, receipts and acknowledgements still to come, for N chunks and the end of file. */
  ghost function Outstanding(input: seq<byte>, st: System): int {
    3 * (Chunks(input) + 1) - st.s.sent - st.r.received - st.s.received
  }

  predicate CanSend(s: Sender) {
    s.max > s.space && !s.theLast
  }

  /** Turns the sender may take before it must send, receive or return. */
  ghost function Slack(s: Sender): nat {
    match s.phase
    case Done => 0
    case Top => if CanSend(s) then 1 else 3
    case Poll => 2
  }

  ghost function Rank(input: seq<byte>, st: System): int {
    4 * Outstanding(input, st) + Slack(st.s)
  }

  /** Before the sender has returned there is always a step to take. */
  lemma Progress(input: seq<byte>, st: System)
    requires Inv(input, st) && st.s.phase != Done
    ensures exists a :: Prompt(st, a)
  {
    hide Receive, Receivable, Ack, ToByte, Message, Chunk, Chunks;
    if st.s.phase == Top {
      NextChunkIs(input, st.s);
      assert Prompt(st, SenderTop([0, 0, 0, 0]));
    } else if st.acks != [] {
      AckDecoded(ToByte((st.s.received + 1) % SLOTS), st.s.pkt);
      assert st.acks[0] == Ack(ToByte((st.s.received + 0 + 1) % SLOTS));
      assert Prompt(st, SenderPoll);
    } else if st.data != [] {
      NextReceivable(input, st);
      assert Prompt(st, ReceiverTurn);
    } else {
      assert Prompt(st, SenderTimeout);
    }
  }

  lemma NextReceivable(input: seq<byte>, st: System)
    requires Inv(input, st) && st.data != []
    ensures st.r.running && Receivable(st.r, st.data[0])
  {
    hide Receive, Receivable, Ack, ToByte, Message, Chunk, Chunks;
    assert Message(input, st.r.received + 0, st.data[0]);
    if st.r.received < Chunks(input) {
      ReceiveChunk(input, st.r, st.data[0]);
    } else {
      ReceiveEof(input, st.r, st.data[0]);
    }
  }

  lemma TopDecreases(input: seq<byte>, s: Sender, tail: seq<byte>)
    requires SenderInv(input, s) && s.phase == Top && |tail| == DATA_SIZE - HEADER_SIZE
    ensures SenderOk(s)
    ensures var t := AtTop(s, tail).sender;
            && t.received == s.received
            && (if CanSend(s) then t.sent == s.sent + 1 else t.sent == s.sent && Slack(t) < Slack(s))
  {
    hide NextChunk, Chunk, Wire, ToByte, Chunks;
    NextChunkIs(input, s);
  }

  lemma ReceivedCounts(r: Receiver, data: seq<byte>)
    requires Receivable(r, data)
    ensures Receive(r, data).receiver.received == r.received + 1
  {
    hide Decode, ToInt, Ack, Nack, Scan;
  }

  /** Every step brings the end nearer, but for an early timeout, which may set it back by one. */
  lemma StepRank(input: seq<byte>, st: System, a: Action)
    requires Inv(input, st) && Enabled(st, a)
    ensures Inv(input, Next(st, a))
    ensures 0 <= Rank(input, Next(st, a)) <= Rank(input, st) + if Early(st, a) then 1 else -1
  {
    hide Message, Ack, ToByte, Chunk, Chunks, Receive, Receivable, TakeReply, AtTop, ReceiverInv;
    NextInv(input, st, a);
    RankBound(input, Next(st, a));
    match a {
      case SenderTop(tail) => TopDecreases(input, st.s, tail);
      case SenderPoll =>
        assert st.acks[0] == Ack(ToByte((st.s.received + 0 + 1) % SLOTS));
        TakeAckInv(input, st.s, st.acks[0]);
      case SenderTimeout =>
      case ReceiverTurn => ReceivedCounts(st.r, st.data[0]);
    }
  }

  lemma RankBound(input: seq<byte>, st: System)
    requires Inv(input, st)
    ensures 0 <= Rank(input, st)
  {
    hide Message, Ack, ToByte, Chunk, Chunks;
  }

  lemma {:induction false} RunBounded(input: seq<byte>, st: System, acts: seq<Action>)
    requires Inv(input, st) && IsRun(st, acts)
    ensures |acts| <= Rank(input, st) + 2 * EarlyTimeouts(st, acts)
    decreases |acts|
  {
    hide Inv, Rank, Next, Enabled, Early;
    if |acts| > 0 {
      StepRank(input, st, acts[0]);
      RunBounded(input, Next(st, acts[0]), acts[1..]);
    } else {
      RankBound(input, st);
    }
  }

  /** What it means that the transfer is over: N chunks and the end of file were sent, received
      and acknowledged, once each, and the receiver has written the file. */
  ghost predicate Complete(input: seq<byte>, st: System) {
    && st.s.phase == Done && !st.r.running
    && st.data == [] && st.acks == []
    && st.s.sent == st.r.received == st.s.received == Chunks(input) + 1
    && Concat(st.r.writes) == input
  }

  lemma DoneIsComplete(input: seq<byte>, st: System)
    requires Inv(input, st) && st.s.phase == Done
    ensures Complete(input, st)
  {
    hide Message, Ack, ToByte, Chunk, Chunks;
    ConcatIsPrefix(input, st.r.writes);
    ChunkRange(input, |st.r.writes|);
    hide Concat;
  }

  /** No step is left. */
  ghost predicate Stuck(st: System) {
    forall a :: !Prompt(st, a)
  }

  /** Every run of the two programs, however interleaved: N chunks take at most 12 N + 13 steps, and
      two more for every time the poll times out although something is under way. */
  lemma RunsAreFinite(input: seq<byte>, g: Fields, h: Fields, acts: seq<Action>)
    requires IsRun(Initial(input, g, h), acts)
    ensures |acts| <= 12 * Chunks(input) + 13 + 2 * EarlyTimeouts(Initial(input, g, h), acts)
  {
    var start := Initial(input, g, h);
    InitialInv(input, g, h);
    RunBounded(input, start, acts);
    assert Rank(input, start) == 12 * Chunks(input) + 13;
    hide IsRun, EarlyTimeouts, Inv, Chunks;
  }

  /** No run stops early and none goes on too long: after any sequence of steps, no step is left
      exactly when the transfer is complete. */
  lemma Termination(input: seq<byte>, g: Fields, h: Fields, acts: seq<Action>)
    ensures Stuck(Exec(Initial(input, g, h), acts)) <==> Complete(input, Exec(Initial(input, g, h), acts))
  {
    var st := Exec(Initial(input, g, h), acts);
    InitialInv(input, g, h);
    ExecInv(input, Initial(input, g, h), acts);
    hide Exec, Initial, Inv, Chunks;
    if st.s.phase == Done {
      DoneIsComplete(input, st);
    } else {
      Progress(input, st);
    }
  }
}
