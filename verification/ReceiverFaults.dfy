/** What the receiver (src/receiver.c) answers and writes, whatever it is sent: cut, damaged and stray
    datagrams included. It goes by what pkt_decode leaves in the structure, accepted or not. */
module ReceiverFaults {
  import opened Bytes
  import opened FaultProofs
  import opened LinkFaults
  import opened Options
  import opened Packet
  import opened PacketProofs
  import opened ReceiverProofs
  import opened ReceiverSpec

  // ---------- Every datagram ----------

  /** The structure holds a DATA packet that is neither an end of file nor held back. */
  ghost predicate IsNew(r: Receiver, p: Fields)
    requires |r.filled| == SLOTS
  {
    ToIntRange(p.seqnum);
    p.ptype == PTYPE_DATA && (p.length > 0 || p.tr == 1) && !r.filled[ToInt(p.seqnum)]
  }

  ghost predicate IsEof(p: Fields) {
    p.ptype == PTYPE_DATA && p.length == 0 && p.tr == 0
  }

  /** The receiver with the datagram decoded and counted. */
  ghost function Counted(r: Receiver, data: seq<byte>): Receiver
    requires |data| > 0
  {
    r.(pkt := Decode(data, r.pkt).pkt, received := r.received + 1)
  }

  lemma AnswerCases(r: Receiver, data: seq<byte>)
    requires Receivable(r, data)
    ensures var q := Counted(r, data);
            Receive(r, data) ==
            if IsEof(q.pkt) then Received(q.(running := false), Some(Ack(q.pkt.seqnum + 1)))
            else if !IsNew(r, q.pkt) then Received(q, None)
            else if q.pkt.tr == 1 then Received(q, Some(Nack(q.pkt.seqnum)))
            else Received(Store(q), Some(Ack(q.pkt.seqnum + 1)))
  {
    hide Decode, Ack, Nack, ToInt, Store;
  }

  lemma StoreKeeps(q: Receiver)
    requires |q.filled| == SLOTS && HasPayload(q.pkt) && PayloadPresent(q.pkt)
    ensures Store(q).pkt == q.pkt && Store(q).received == q.received && Store(q).running == q.running
  {
    hide Scan, ToInt;
  }

  /** The receiver stops exactly on an end of file, whatever is still missing. */
  lemma StopsIff(r: Receiver, data: seq<byte>)
    requires Receivable(r, data)
    ensures var r' := Receive(r, data).receiver;
            && r'.pkt == Decode(data, r.pkt).pkt && r'.received == r.received + 1
            && (r'.running <==> r.running && !IsEof(r'.pkt))
  {
    hide Decode, Ack, Nack, Receive, Store, ToInt;
    var q := Counted(r, data);
    AnswerCases(r, data);
    if IsNew(r, q.pkt) && q.pkt.tr == 0 {
      StoreKeeps(q);
    }
  }

  /** It says nothing exactly of what is neither an end of file nor new; asks again exactly for what is new and
      has TR set; and acknowledges the rest, by the number that follows. */
  lemma RepliesIff(r: Receiver, data: seq<byte>)
    requires Receivable(r, data)
    ensures var p, reply := Decode(data, r.pkt).pkt, Receive(r, data).reply;
            && (reply == None <==> !IsEof(p) && !IsNew(r, p))
            && (reply == Some(Nack(p.seqnum)) <==> IsNew(r, p) && p.tr == 1)
            && (reply == Some(Ack(p.seqnum + 1)) <==> IsEof(p) || (IsNew(r, p) && p.tr == 0))
  {
    hide Decode, Ack, Nack, Receive, Store, IsNew;
    var p := Decode(data, r.pkt).pkt;
    AnswerCases(r, data);
    RepliesDiffer(p.seqnum + 1, p.seqnum);
    NewIsNoEof(r, p);
  }

  lemma NewIsNoEof(r: Receiver, p: Fields)
    requires |r.filled| == SLOTS
    ensures !(IsNew(r, p) && IsEof(p)) && (p.tr == 0 || p.tr == 1)
  {
  }

  /** Slots, window and output change only when a new packet whose TR is not set is stored. */
  lemma OnlyStoringChanges(r: Receiver, data: seq<byte>)
    requires Receivable(r, data)
    ensures var q, r' := Counted(r, data), Receive(r, data).receiver;
            && (IsNew(r, q.pkt) && q.pkt.tr == 0 ==> r' == Store(q))
            && (!(IsNew(r, q.pkt) && q.pkt.tr == 0) ==>
                  r'.filled == r.filled && r'.window == r.window && r'.writes == r.writes)
  {
    hide Decode, Ack, Nack, Receive, Store, ToInt;
    AnswerCases(r, data);
  }

  lemma RepliesDiffer(a: byte, n: byte)
    ensures Ack(a) != Nack(n)
  {
    SameWireIffSameContent(Reply(PTYPE_ACK, a), Reply(PTYPE_NACK, n));
    hide Wire;
  }

  /** A NACK decodes to type, window and number. */
  lemma NackDecoded(seqnum: byte, was: Fields)
    ensures |Nack(seqnum)| > 0
    ensures var d := Decode(Nack(seqnum), was);
            d.status == PktOk && d.pkt.ptype == PTYPE_NACK && d.pkt.window == 7 && d.pkt.seqnum == seqnum
  {
    assert Nack(seqnum) == Nack(seqnum) + [];
    RoundTrip(Reply(PTYPE_NACK, seqnum), [], was);
    hide Decode, Header, Crc32.Crc;
  }

  // ---------- The slide, in any state ----------

  /** n slots in a row from index i on are filled, and, unless that is m, no more. */
  ghost predicate RunOf(filled: seq<bool>, i: nat, n: nat, m: nat)
    requires |filled| == SLOTS
  {
    && n <= m
    && (forall j :: i <= j < i + n ==> filled[j % SLOTS])
    && (n < m ==> !filled[(i + n) % SLOTS])
  }

  lemma RunMore(filled: seq<bool>, i: nat, k: nat, m: nat)
    requires |filled| == SLOTS && 0 < m <= 8 && filled[i % SLOTS]
    requires RunOf(filled[i % SLOTS := false], i + 1, k, m - 1)
    ensures RunOf(filled, i, k + 1, m)
  {
    var rest := filled[i % SLOTS := false];
    forall j | i <= j < i + (k + 1)
      ensures filled[j % SLOTS]
    {
      assert j > i ==> rest[j % SLOTS];
    }
    if k + 1 < m {
      ResiduesDiffer(i, i + 1 + k);
      assert !rest[(i + 1 + k) % SLOTS] && i + 1 + k == i + (k + 1);
    }
  }

  /** The slots without the first n from the window on. */
  ghost predicate Emptied(before: seq<bool>, after: seq<bool>, window: nat, n: nat) {
    && |before| == |after| == SLOTS
    && forall i :: 0 <= i < SLOTS ==>
         (after[i] <==> before[i] && forall j :: window <= j < window + n ==> j % SLOTS != i)
  }

  /** The slide loop from slot index i on, with at most m turns left. */
  lemma {:induction false} ScanIs(filled: seq<bool>, i: nat, m: nat) returns (n: nat)
    requires |filled| == SLOTS && m <= 8
    ensures RunOf(filled, i, n, m)
    ensures var s := Scan(filled, i, i + m);
            && s.passed == n && Emptied(filled, s.filled, i, n)
            && s.hole == if n < m then Some((i + n) % SLOTS) else None
    decreases m
  {
    if m == 0 || !filled[i % SLOTS] {
      n := 0;
    } else {
      var rest := filled[i % SLOTS := false];
      var k := ScanIs(rest, i + 1, m - 1);
      n := k + 1;
      hide Scan, RunOf, Emptied;
      ScanOnce(filled, i, m);
      RunMore(filled, i, k, m);
      EmptiedMore(filled, rest, Scan(rest, i + 1, i + m).filled, i, k);
    }
  }

  lemma ScanOnce(filled: seq<bool>, i: nat, m: nat)
    requires |filled| == SLOTS && 0 < m && filled[i % SLOTS]
    ensures var s := Scan(filled[i % SLOTS := false], i + 1, i + m);
            Scan(filled, i, i + m) == Slide(s.filled, s.hole, s.passed + 1)
  {
  }

  lemma EmptiedMore(filled: seq<bool>, rest: seq<bool>, after: seq<bool>, i: nat, k: nat)
    requires |filled| == SLOTS && rest == filled[i % SLOTS := false] && Emptied(rest, after, i + 1, k)
    ensures Emptied(filled, after, i, k + 1)
  {
    forall h | 0 <= h < SLOTS
      ensures after[h] <==> filled[h] && forall j :: i <= j < i + (k + 1) ==> j % SLOTS != h
    {
      if h == i % SLOTS {
        assert !rest[h];
      } else {
        assert rest[h] == filled[h];
      }
    }
  }

  /** Storing a packet writes its payload once for each filled slot in a row from the window on, up to eight, and
      empties them. The window moves to the first slot that is not filled; but if all eight are, the loop runs out
      before it finds one, and the window stays where it was, although eight payloads were written. */
  lemma StoreIs(q: Receiver) returns (n: nat)
    requires |q.filled| == SLOTS && HasPayload(q.pkt) && PayloadPresent(q.pkt)
    requires 0 <= ToInt(q.pkt.seqnum) < SLOTS
    ensures var marked := q.filled[ToInt(q.pkt.seqnum) := true];
            && RunOf(marked, q.window, n, 8)
            && Emptied(marked, Store(q).filled, q.window, n)
            && Store(q).window == (if n < 8 then (q.window + n) % SLOTS else q.window)
            && Store(q).writes == q.writes + Repeat(q.pkt.payload[..q.pkt.length], n)
  {
    hide ToInt, Scan;
    n := ScanIs(q.filled[ToInt(q.pkt.seqnum) := true], q.window, 8);
  }

  // ---------- Cut packets ----------

  /** A cut packet is answered by the number of the packet before it, because the decoder stops before it reads
      the cut packet's own: nothing is said if that slot is filled, and otherwise that one is asked for again.
      Nothing is stored, written or moved. So the right packet is asked for exactly if the two have the same
      number. */
  lemma CutAnswered(r: Receiver, p: Fields, buf: seq<byte>)
    requires |r.filled| == SLOTS && OnWire(p, buf) && |buf| > MIN_PKT_PDATA_LEN
    requires r.pkt.length <= |r.pkt.payload|
    ensures Receivable(r, Truncate(buf))
    ensures 0 <= ToInt(r.pkt.seqnum) < SLOTS
    ensures var res := Receive(r, Truncate(buf));
            && res.receiver == r.(pkt := r.pkt.(ptype := PTYPE_DATA, tr := 1, window := p.window),
                                  received := r.received + 1)
            && res.reply == (if r.filled[ToInt(r.pkt.seqnum)] then None else Some(Nack(r.pkt.seqnum)))
            && (res.reply == Some(Nack(p.seqnum)) <==>
                  !r.filled[ToInt(r.pkt.seqnum)] && r.pkt.seqnum == p.seqnum)
  {
    hide Decode, Nack, Ack, ToInt, Receive, Store, OnWire, Truncate;
    ToIntRange(r.pkt.seqnum);
    CutLeaves(p, buf, r.pkt);
    AnswerCases(r, Truncate(buf));
    NackDecoded(p.seqnum, r.pkt);
    NackDecoded(r.pkt.seqnum, r.pkt);
  }

  // ---------- Damaged packets, in order ----------

  lemma StoreNext(q: Receiver, b: nat)
    requires NoSlot(q, b) && HasPayload(q.pkt) && PayloadPresent(q.pkt) && ToInt(q.pkt.seqnum) == b % SLOTS
    ensures NoSlot(Store(q), b + 1) && Store(q).writes == q.writes + [q.pkt.payload[..q.pkt.length]]
  {
    hide ToInt;
    ResidueOfSuccessor(b);
    ResidueOfResidue(b);
    ResiduesDiffer(b, b + 1);
    var marked, end := q.filled[b % SLOTS := true], q.window + WINDOW + 1;
    var clear := marked[b % SLOTS := false];
    assert Scan(clear, q.window + 1, end) == Slide(clear, Some((b + 1) % SLOTS), 0);
    assert Repeat(q.pkt.payload[..q.pkt.length], 1) == [q.pkt.payload[..q.pkt.length]];
  }

  lemma StoreElsewhere(q: Receiver, b: nat)
    requires NoSlot(q, b) && HasPayload(q.pkt) && PayloadPresent(q.pkt)
    requires 0 <= ToInt(q.pkt.seqnum) < SLOTS && ToInt(q.pkt.seqnum) != b % SLOTS
    ensures Store(q) == q.(filled := q.filled[ToInt(q.pkt.seqnum) := true])
  {
    hide ToInt;
    ResidueOfResidue(b);
    var marked := q.filled[ToInt(q.pkt.seqnum) := true];
    assert Scan(marked, q.window, q.window + WINDOW + 1) == Slide(marked, Some(b % SLOTS), 0);
  }

  /** Datagram `buf` of packet b, the next one due. */
  ghost predicate NextDue(r: Receiver, b: nat, p: Fields, buf: seq<byte>) {
    NoSlot(r, b) && OnWire(p, buf) && HasPayload(p) && ToInt(p.seqnum) == b % SLOTS
  }

  /** Damage behind the number: the packet is taken and acknowledged as if it were whole, and the payload of the
      packet before it is written in its place. */
  lemma DamagedNext(r: Receiver, b: nat, p: Fields, buf: seq<byte>, i: nat)
    requires NextDue(r, b, p, buf) && 4 <= i < |buf| && p.length <= |r.pkt.payload|
    ensures Receivable(r, Invert(buf, i))
    ensures var res := Receive(r, Invert(buf, i));
            && NoSlot(res.receiver, b + 1)
            && res.receiver.writes == r.writes + [r.pkt.payload[..p.length]]
            && res.reply == Some(Ack(p.seqnum + 1))
            && res.receiver.pkt.payload == r.pkt.payload
  {
    hide Decode, OnWire, Invert, ToInt, Store, Receive, Ack, Nack;
    WireLength(p, buf);
    InvertedLeaves(p, buf, i, r.pkt);
    AnswerCases(r, Invert(buf, i));
    StoreNext(Counted(r, Invert(buf, i)), b);
    StoreKeeps(Counted(r, Invert(buf, i)));
  }

  /** A damaged number: the payload of the packet before is held back under the complement of the number, which
      is acknowledged; the packet itself stays due. */
  lemma NumberDamaged(r: Receiver, b: nat, p: Fields, buf: seq<byte>)
    requires NextDue(r, b, p, buf) && p.length <= |r.pkt.payload|
    ensures Receivable(r, Invert(buf, 3))
    ensures var res := Receive(r, Invert(buf, 3));
            && res.receiver.window == r.window && res.receiver.writes == r.writes
            && res.receiver.filled == r.filled[255 - b % SLOTS := true]
            && res.reply == Some(Ack(0xFF - p.seqnum + 1))
  {
    hide Decode, OnWire, Invert, ToInt, Store, Receive, Ack, Nack;
    WireLength(p, buf);
    InvertedLeaves(p, buf, 3, r.pkt);
    ComplementNumber(p.seqnum);
    AnswerCases(r, Invert(buf, 3));
    StoreElsewhere(Counted(r, Invert(buf, 3)), b);
  }

  lemma ComplementNumber(s: byte)
    ensures ToInt(0xFF - s) == 255 - ToInt(s)
  {
  }

  /** The structure still holds packet k. */
  ghost predicate StillHolds(r: Receiver, k: nat) {
    HasPayload(r.pkt) && PayloadPresent(r.pkt) && r.pkt.tr == 0 && ToInt(r.pkt.seqnum) == k % SLOTS
  }

  /** A datagram that leaves the structure as it was, but for the window field, is the packet before once more. */
  lemma TakenAgain(r: Receiver, b: nat, k: nat, data: seq<byte>)
    requires NoSlot(r, b) && StillHolds(r, k) && k < b < k + SLOTS && |data| > 0
    requires Decode(data, r.pkt).pkt == r.pkt.(window := Decode(data, r.pkt).pkt.window)
    ensures Receivable(r, data)
    ensures var res := Receive(r, data);
            && StaleSlot(res.receiver, b, k) && res.receiver.writes == r.writes
            && res.reply == Some(Ack(r.pkt.seqnum + 1))
  {
    hide Decode, ToInt, Store, Receive, Ack, Nack, StaleSlot, NoSlot;
    NoneFilled(r, b, k);
    AnswerCases(r, data);
    StoreElsewhere(Counted(r, data), b);
    OneFilled(r, Store(Counted(r, data)), b, k);
  }

  lemma NoneFilled(r: Receiver, b: nat, k: nat)
    requires NoSlot(r, b) && k < b < k + SLOTS
    ensures 0 <= k % SLOTS < |r.filled| && |r.filled| == SLOTS && !r.filled[k % SLOTS] && k % SLOTS != b % SLOTS
    ensures forall q: Receiver :: q.filled == r.filled && q.window == r.window ==> NoSlot(q, b)
  {
    ResiduesDiffer(k, b);
    ResidueOfResidue(k);
  }

  lemma OneFilled(r: Receiver, r': Receiver, b: nat, k: nat)
    requires NoSlot(r, b) && 0 <= k % SLOTS < SLOTS
    requires r'.filled == r.filled[k % SLOTS := true] && r'.window == r.window
    ensures StaleSlot(r', b, k)
  {
  }

  /** Damage to the first byte or the length: the packet before it is taken once more, like a late copy. */
  lemma HeaderDamaged(r: Receiver, b: nat, p: Fields, buf: seq<byte>, i: nat, k: nat)
    requires NextDue(r, b, p, buf) && i < 3 && StillHolds(r, k) && k < b < k + SLOTS
    ensures Receivable(r, Invert(buf, i))
    ensures var res := Receive(r, Invert(buf, i));
            && StaleSlot(res.receiver, b, k) && res.receiver.writes == r.writes
            && res.reply == Some(Ack(r.pkt.seqnum + 1))
  {
    hide Decode, OnWire, Invert, ToInt, Receive, Receivable, Ack, NoSlot, StaleSlot;
    WireLength(p, buf);
    if i == 0 {
      FirstInvertedLeaves(p, buf, r.pkt);
    } else {
      InvertedLeaves(p, buf, i, r.pkt);
    }
    TakenAgain(r, b, k, Invert(buf, i));
  }

  /** For example: packet 0 whole, then packet 1, no longer, with a damaged payload. Payload 0 is written twice,
      and both packets are acknowledged. */
  lemma DamagedPayloadExample(garbage: Fields, p0: Fields, m0: seq<byte>, p1: Fields, m1: seq<byte>, i: nat)
    requires OnWire(p0, m0) && HasPayload(p0) && p0.seqnum == 0
    requires OnWire(p1, m1) && HasPayload(p1) && p1.seqnum == 1 && p1.length <= p0.length
    requires 12 <= i < 12 + p1.length
    ensures Receivable(Start(garbage), m0)
    ensures var first := Receive(Start(garbage), m0);
            && first.reply == Some(Ack(1))
            && Receivable(first.receiver, Invert(m1, i))
            && var second := Receive(first.receiver, Invert(m1, i));
               && second.reply == Some(Ack(2))
               && second.receiver.writes == [p0.payload[..p0.length], p0.payload[..p1.length]]
  {
    hide Decode, Wire, Invert, Receive, Receivable, Start, Ack, NoSlot, ToInt;
    var r0 := Start(garbage);
    FirstTaken(garbage, p0, m0);
    WireLength(p1, m1);
    SmallNumbers();
    assert p0.payload[..p0.length][..p1.length] == p0.payload[..p1.length];
    assert Receivable(r0, m0) && p1.seqnum + 1 == 2;
    DamagedNext(Receive(r0, m0).receiver, 1, p1, m1, i);
  }

  lemma SmallNumbers()
    ensures ToInt(0) == 0 && ToInt(1) == 1
  {
  }

  lemma FirstTaken(garbage: Fields, p0: Fields, m0: seq<byte>)
    requires OnWire(p0, m0) && HasPayload(p0) && p0.seqnum == 0
    ensures Receivable(Start(garbage), m0)
    ensures var res := Receive(Start(garbage), m0);
            && res.reply == Some(Ack(1)) && NoSlot(res.receiver, 1)
            && res.receiver.pkt.payload == p0.payload[..p0.length]
            && res.receiver.writes == [p0.payload[..p0.length]]
  {
    hide Decode, Wire, Store, Receive, Ack, Nack;
    var r0 := Start(garbage);
    WireTail(p0, m0);
    RoundTrip(p0, m0[|Wire(p0)|..], garbage);
    AcceptedLength(m0, garbage);
    AnswerCases(r0, m0);
    StoreNext(Counted(r0, m0), 0);
    StoreKeeps(Counted(r0, m0));
  }

  lemma AcceptedLength(data: seq<byte>, was: Fields)
    requires |data| > 0 && Decode(data, was).status == PktOk
    ensures var p := Decode(data, was).pkt; HasPayload(p) ==> |p.payload| == p.length
  {
    Accepted(data, was);
    hide Decode, Host16, Host32, FromRaw32, TypeOf, TrOf, WindowOf, Crc32.Crc;
  }
}
