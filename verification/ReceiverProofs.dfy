/** The receiver's window, for packets that arrive in any order within it. */
module ReceiverProofs {
  import opened Bytes
  import opened LinkFaults
  import opened Options
  import opened Packet
  import opened PacketProofs
  import opened ReceiverSpec

  /** b is the first index missing from `seen`. */
  ghost predicate FirstMissing(b: nat, seen: set<nat>) {
    b !in seen && forall j: nat :: j < b ==> j in seen
  }

  /** Nothing was seen that the receiver's window could not hold. */
  ghost predicate WithinWindow(b: nat, seen: set<nat>) {
    forall h :: h in seen ==> h < b + WINDOW
  }

  /** The slots that are filled: those of the seen indices above `b`. */
  ghost predicate SlotsOf(filled: seq<bool>, b: nat, seen: set<nat>)
    requires |filled| == SLOTS
  {
    forall i :: 0 <= i < SLOTS ==> (filled[i] <==> exists h :: h in seen && h >= b && h % SLOTS == i)
  }

  /** The mod-256 state represents: everything below b delivered, and the seen indices above b
      held back. */
  ghost predicate Tracks(r: Receiver, b: nat, seen: set<nat>) {
    && |r.filled| == SLOTS
    && FirstMissing(b, seen) && WithinWindow(b, seen)
    && SlotsOf(r.filled, b, seen)
    && r.window == b % SLOTS
    && |r.writes| == b
  }

  lemma ResiduesDiffer(i: nat, j: nat)
    requires i < j < i + SLOTS
    ensures i % SLOTS != j % SLOTS
  {
  }

  lemma ResidueOfResidue(b: nat)
    ensures b % SLOTS < SLOTS && b % SLOTS % SLOTS == b % SLOTS
  {
  }

  /** The slide loop from the slot of absolute index b on: given enough turns, it stops at the first
      missing index c and empties exactly the slots before it. */
  lemma {:induction false} ScanFindsHole(filled: seq<bool>, w: nat, n: nat, b: nat, c: nat, seen: set<nat>)
    requires |filled| == SLOTS && SlotsOf(filled, b, seen)
    requires FirstMissing(c, seen) && WithinWindow(b, seen)
    requires b <= c && w % SLOTS == b % SLOTS && n > c - b
    ensures var s := Scan(filled, w, w + n);
            && s.hole == Some(c % SLOTS)
            && s.passed == c - b
            && SlotsOf(s.filled, c, seen)
    decreases c - b
  {
    var slot := w % SLOTS;
    if b in seen {
      assert filled[slot];
      var rest := filled[slot := false];
      forall i | 0 <= i < SLOTS
        ensures rest[i] <==> exists h :: h in seen && h >= b + 1 && h % SLOTS == i
      {
        if i == slot {
          forall h | h in seen && h >= b + 1
            ensures h % SLOTS != i
          {
            ResiduesDiffer(b, h);
          }
        } else if filled[i] {
          var h :| h in seen && h >= b && h % SLOTS == i;
          assert h != b;
        }
      }
      ResidueOfSuccessor(w);
      ResidueOfSuccessor(b);
      ScanFindsHole(rest, w + 1, n - 1, b + 1, c, seen);
    } else {
      assert c == b;
      forall h | h in seen && h >= b
        ensures h % SLOTS != slot
      {
        ResiduesDiffer(b, h);
      }
      assert !filled[slot];
    }
  }

  lemma {:induction false} FindMissing(b: nat, bound: nat, seen: set<nat>) returns (c: nat)
    requires forall j: nat :: j < b ==> j in seen
    requires b <= bound && forall h :: h in seen ==> h < bound
    ensures FirstMissing(c, seen) && b <= c <= bound
    decreases bound - b
  {
    if b in seen {
      c := FindMissing(b + 1, bound, seen);
    } else {
      c := b;
    }
  }

  lemma SlotFilledIff(filled: seq<bool>, b: nat, seen: set<nat>, k: nat)
    requires |filled| == SLOTS && SlotsOf(filled, b, seen) && WithinWindow(b, seen)
    requires b <= k < b + WINDOW
    ensures filled[k % SLOTS] <==> k in seen
  {
    if filled[k % SLOTS] {
      var h :| h in seen && h >= b && h % SLOTS == k % SLOTS;
      if h < k { ResiduesDiffer(h, k); }
      if k < h { ResiduesDiffer(k, h); }
    }
  }

  lemma MarkSlot(filled: seq<bool>, b: nat, seen: set<nat>, k: nat)
    requires |filled| == SLOTS && SlotsOf(filled, b, seen) && b <= k
    ensures SlotsOf(filled[k % SLOTS := true], b, seen + {k})
  {
    var marked, now := filled[k % SLOTS := true], seen + {k};
    forall i | 0 <= i < SLOTS
      ensures marked[i] <==> exists h :: h in now && h >= b && h % SLOTS == i
    {
      if i == k % SLOTS {
        assert k in now;
      } else if filled[i] {
        var h :| h in seen && h >= b && h % SLOTS == i;
        assert h in now;
      }
    }
  }

  /** A new packet within the window is stored, and the window slides to the first missing index. */
  lemma StoreTracks(r: Receiver, b: nat, seen: set<nat>, k: nat) returns (c: nat)
    requires Tracks(r, b, seen) && b <= k < b + WINDOW && k !in seen
    requires PayloadPresent(r.pkt) && HasPayload(r.pkt) && ToInt(r.pkt.seqnum) == k % SLOTS
    ensures b <= c && (c > b <==> k == b) && (c > b + 1 ==> b + 1 in seen) && (k == b && c == b + 1 ==> b + 1 !in seen)
    ensures Tracks(Store(r), c, seen + {k})
    ensures Store(r).writes == r.writes + Repeat(r.pkt.payload[..r.pkt.length], c - b)
  {
    hide SlotsOf, Scan, ToInt;
    c := FindMissing(b, b + WINDOW, seen + {k});
    MarkSlot(r.filled, b, seen, k);
    ResidueOfResidue(b);
    ScanFindsHole(r.filled[k % SLOTS := true], r.window, WINDOW + 1, b, c, seen + {k});
  }

  // ---------- One arrival ----------

  /** `data` is a datagram for the non-empty, untruncated DATA packet of absolute index k. */
  ghost predicate Carries(data: seq<byte>, k: nat, payload: seq<byte>) {
    exists p :: OnWire(p, data) && HasPayload(p) && p.seqnum == ToByte(k % SLOTS)
                && p.payload[..p.length] == payload
  }

  lemma CarriedPacket(data: seq<byte>, k: nat, payload: seq<byte>, r: Receiver)
    requires Carries(data, k, payload) && |r.filled| == SLOTS
    ensures Receivable(r, data)
    ensures var q := Decode(data, r.pkt).pkt;
            && HasPayload(q) && PayloadPresent(q) && q.tr == 0
            && q.seqnum == ToByte(k % SLOTS) && ToInt(q.seqnum) == k % SLOTS
            && q.payload[..q.length] == payload
  {
    var p :| OnWire(p, data) && HasPayload(p) && p.seqnum == ToByte(k % SLOTS)
             && p.payload[..p.length] == payload;
    WireTail(p, data);
    RoundTrip(p, data[|Wire(p)|..], r.pkt);
    IntInverse(k % SLOTS);
    hide Decode, Wire, ToInt, ToByte;
  }

  lemma ReceiveData(r: Receiver, data: seq<byte>)
    requires Receivable(r, data)
    requires var p := Decode(data, r.pkt).pkt; HasPayload(p) && p.tr == 0
    ensures var q := r.(pkt := Decode(data, r.pkt).pkt, received := r.received + 1);
            && 0 <= ToInt(q.pkt.seqnum) < SLOTS
            && Receive(r, data) == if r.filled[ToInt(q.pkt.seqnum)] then Received(q, None)
                                   else Received(Store(q), Some(Ack(q.pkt.seqnum + 1)))
  {
    ToIntRange(Decode(data, r.pkt).pkt.seqnum);
    hide Decode, ToInt, Ack, Store;
  }

  /** What the receiver does with such a packet. */
  lemma ReceiveCarried(r: Receiver, data: seq<byte>, k: nat, payload: seq<byte>)
    requires Carries(data, k, payload) && |r.filled| == SLOTS
    ensures Receivable(r, data)
    ensures var q := r.(pkt := Decode(data, r.pkt).pkt, received := r.received + 1);
            && HasPayload(q.pkt) && PayloadPresent(q.pkt) && ToInt(q.pkt.seqnum) == k % SLOTS
            && q.pkt.payload[..q.pkt.length] == payload
            && Receive(r, data) == if r.filled[k % SLOTS] then Received(q, None)
                                   else Received(Store(q), Some(Ack(ToByte((k + 1) % SLOTS))))
  {
    hide Receive, Carries, Decode, ToInt, ToByte, Ack, Store;
    CarriedPacket(data, k, payload, r);
    SuccessorOfResidue(k);
    ReceiveData(r, data);
  }

  /** Any packet within the window, in any order, new or not: the receiver goes on tracking what
      it has seen. A packet it still holds is ignored, any other acknowledged by the number that
      follows its own; the window moves only when the first missing packet arrives, and writes
      that packet once for every slot it slides over. */
  lemma ArrivalTracks(r: Receiver, b: nat, seen: set<nat>, data: seq<byte>, k: nat, payload: seq<byte>)
    returns (c: nat)
    requires Tracks(r, b, seen) && b <= k < b + WINDOW && Carries(data, k, payload)
    ensures Receivable(r, data)
    ensures b <= c && (c > b <==> k == b) && (k == b ==> (c == b + 1 <==> b + 1 !in seen))
    ensures var res := Receive(r, data);
            && Tracks(res.receiver, c, seen + {k})
            && res.receiver.running == r.running && res.receiver.received == r.received + 1
            && res.receiver.writes == r.writes + Repeat(payload, c - b)
            && res.reply == if k in seen then None else Some(Ack(ToByte((k + 1) % SLOTS)))
  {
    ReceiveCarried(r, data, k, payload);
    SlotFilledIff(r.filled, b, seen, k);
    var q := r.(pkt := Decode(data, r.pkt).pkt, received := r.received + 1);
    hide Receive, Decode, ToInt, ToByte, Ack, SlotsOf;
    if k in seen {
      c := b;
      assert seen + {k} == seen;
    } else {
      c := StoreTracks(q, b, seen, k);
    }
  }

  /** is_empty_buff is there to tell whether a packet was already received. It tells whether a
      packet still held back has the same number modulo 256. Of the packets seen among the last
      249 indices that recognises exactly those still held: a copy of one that was already written
      is taken for new, stored and acknowledged again. */
  lemma DuplicateRecognisedIff(r: Receiver, b: nat, seen: set<nat>, data: seq<byte>, k: nat, payload: seq<byte>)
    requires Tracks(r, b, seen) && Carries(data, k, payload)
    ensures Receivable(r, data)
    ensures Receive(r, data).reply == None <==> exists h :: h in seen && h >= b && h % SLOTS == k % SLOTS
    ensures k in seen && b <= k + SLOTS - WINDOW ==> (Receive(r, data).reply == None <==> k >= b)
  {
    ReceiveCarried(r, data, k, payload);
    hide Receive, Carries, Decode, ToInt, ToByte, Ack, Store;
    ResidueOfResidue(k);
    if k in seen && k < b && b <= k + SLOTS - WINDOW && r.filled[k % SLOTS] {
      var h :| h in seen && h >= b && h % SLOTS == k % SLOTS;
      ResiduesDiffer(k, h);
    }
  }

  // ---------- Whole runs ----------

  /** The receiver after any number of datagrams. */
  ghost function Feed(r: Receiver, msgs: seq<seq<byte>>): Receiver {
    if |msgs| == 0 then r
    else
      var before, data := Feed(r, msgs[..|msgs| - 1]), msgs[|msgs| - 1];
      if Receivable(before, data) then Receive(before, data).receiver else before
  }

  ghost function Seen(ks: seq<nat>): set<nat> {
    set k | k in ks
  }

  /** Every index arrives within the window that starts at the first index then missing. */
  ghost predicate ArriveInWindow(ks: seq<nat>) {
    forall i :: 0 <= i < |ks| ==> Fits(ks[i], Seen(ks[..i]))
  }

  ghost predicate Fits(k: nat, seen: set<nat>) {
    exists b: nat :: FirstMissing(b, seen) && b <= k < b + WINDOW
  }

  lemma StartTracks(garbage: Fields)
    ensures Tracks(Start(garbage), 0, {})
  {
  }

  lemma FirstMissingUnique(a: nat, b: nat, seen: set<nat>)
    requires FirstMissing(a, seen) && FirstMissing(b, seen)
    ensures a == b
  {
  }

  lemma FeedOneMore(r: Receiver, msgs: seq<seq<byte>>, data: seq<byte>)
    requires Receivable(Feed(r, msgs), data)
    ensures Feed(r, msgs + [data]) == Receive(Feed(r, msgs), data).receiver
  {
    hide Receive, Receivable;
    assert (msgs + [data])[..|msgs|] == msgs;
  }

  lemma WindowStep(r0: Receiver, a: nat, ks: seq<nat>, msgs: seq<seq<byte>>,
                   k: nat, data: seq<byte>, payload: seq<byte>)
    returns (b: nat)
    requires Tracks(Feed(r0, msgs), a, Seen(ks)) && Fits(k, Seen(ks)) && Carries(data, k, payload)
    ensures Tracks(Feed(r0, msgs + [data]), b, Seen(ks + [k]))
  {
    hide Feed, Receive, Receivable, Carries, Tracks, FirstMissing;
    var w: nat :| FirstMissing(w, Seen(ks)) && w <= k < w + WINDOW;
    TracksBase(Feed(r0, msgs), a, Seen(ks));
    FirstMissingUnique(a, w, Seen(ks));
    b := ArrivalTracks(Feed(r0, msgs), a, Seen(ks), data, k, payload);
    FeedOneMore(r0, msgs, data);
    assert Seen(ks + [k]) == Seen(ks) + {k};
  }

  /** The receiver represents what it has seen, with the window at the first missing index. */
  ghost predicate Represents(r: Receiver, seen: set<nat>) {
    exists b: nat :: Tracks(r, b, seen)
  }

  /** Packets in any order and any number of copies, each within the window when it arrives: the
      256 slots and the wrapping window position always represent what was seen, and as many
      payloads were written as indices are complete. */
  lemma {:induction false} WindowRefinement(garbage: Fields, ks: seq<nat>, msgs: seq<seq<byte>>, pay: nat -> seq<byte>)
    requires |ks| == |msgs| && ArriveInWindow(ks)
    requires forall i :: 0 <= i < |ks| ==> Carries(msgs[i], ks[i], pay(ks[i]))
    ensures Represents(Feed(Start(garbage), msgs), Seen(ks))
    decreases |ks|
  {
    hide Receive, Receivable, Carries, Tracks, Start, Fits;
    if |ks| == 0 {
      StartTracks(garbage);
      assert Seen(ks) == {};
    } else {
      var n := |ks| - 1;
      hide Feed, Seen;
      assert forall i :: 0 <= i < n ==> ks[..n][..i] == ks[..i];
      WindowRefinement(garbage, ks[..n], msgs[..n], pay);
      var a: nat :| Tracks(Feed(Start(garbage), msgs[..n]), a, Seen(ks[..n]));
      assert ks == ks[..n] + [ks[n]] && msgs == msgs[..n] + [msgs[n]];
      var b := WindowStep(Start(garbage), a, ks[..n], msgs[..n], ks[n], msgs[n], pay(ks[n]));
      assert Represents(Feed(Start(garbage), msgs), Seen(ks));
    }
  }

  // ---------- What reordering does to the contents ----------

  ghost predicate WritesAre(writes: seq<seq<byte>>, pay: nat -> seq<byte>) {
    forall j :: 0 <= j < |writes| ==> writes[j] == pay(j)
  }

  lemma TracksBase(r: Receiver, b: nat, seen: set<nat>)
    requires Tracks(r, b, seen)
    ensures |r.writes| == b && FirstMissing(b, seen)
  {
  }

  /** Every packet after b up to j was already seen. */
  ghost predicate HeldUpTo(b: nat, j: nat, seen: set<nat>) {
    forall i :: b < i <= j ==> i in seen
  }

  /** The slide writes the payload of the packet that just arrived, not the stored ones. So the
      output stays right if and only if the arriving packet is not the first missing one, or all
      the packets held in a row behind it happen to have its payload. */
  lemma ReorderCorruptsIff(r: Receiver, b: nat, seen: set<nat>, data: seq<byte>, k: nat, pay: nat -> seq<byte>)
    requires Tracks(r, b, seen) && b <= k < b + WINDOW && Carries(data, k, pay(k))
    requires WritesAre(r.writes, pay)
    ensures Receivable(r, data)
    ensures WritesAre(Receive(r, data).receiver.writes, pay) <==>
            (k == b ==> forall j: nat :: b < j && HeldUpTo(b, j, seen) ==> pay(j) == pay(b))
  {
    hide Receive, Receivable, Carries, Tracks;
    TracksBase(r, b, seen);
    var c := ArrivalTracks(r, b, seen, data, k, pay(k));
    var writes := Receive(r, data).receiver.writes;
    TracksBase(Receive(r, data).receiver, c, seen + {k});
    if k == b {
      SlideReaches(b, c, seen);
      assert forall j :: b < j < c ==> writes[j] == pay(b);
    }
  }

  /** The packets held in a row behind b are those before the next missing index. */
  lemma SlideReaches(b: nat, c: nat, seen: set<nat>)
    requires FirstMissing(c, seen + {b}) && b < c
    ensures forall j: nat :: b < j ==> (HeldUpTo(b, j, seen) <==> j < c)
  {
    forall j: nat | b < j
      ensures HeldUpTo(b, j, seen) <==> j < c
    {
      if j >= c {
        assert c !in seen;
      } else {
        forall i | b < i <= j
          ensures i in seen
        {
          var n: nat := i;
          assert n in seen + {b};
        }
      }
    }
  }

  /** Packet 1 before packet 0: the receiver writes payload 0 twice and payload 1 never. */
  lemma SwappedPair(garbage: Fields, m0: seq<byte>, m1: seq<byte>, pay: nat -> seq<byte>)
    requires Carries(m0, 0, pay(0)) && Carries(m1, 1, pay(1))
    ensures Feed(Start(garbage), [m1, m0]).writes == [pay(0), pay(0)]
  {
    hide Receive, Receivable, Carries, Tracks, Start, FirstMissing;
    var r0 := Start(garbage);
    StartTracks(garbage);
    var _ := ArrivalTracks(r0, 0, {}, m1, 1, pay(1));
    var r1 := Receive(r0, m1).receiver;
    var c := ArrivalTracks(r1, 0, {} + {1}, m0, 0, pay(0));
    TracksBase(Receive(r1, m0).receiver, c, {} + {1} + {0});
    TwoSeen();
    FirstMissingUnique(c, 2, {} + {1} + {0});
    FeedOneMore(r0, [], m1);
    FeedOneMore(r0, [m1], m0);
    assert [] + [m1] == [m1] && [m1] + [m0] == [m1, m0];
  }

  lemma TwoSeen()
    ensures FirstMissing(2, {} + {1} + {0})
  {
  }

  // ---------- What a late copy does ----------

  /** The state a copy of the written packet k leaves behind: only its slot is filled. */
  ghost predicate StaleSlot(r: Receiver, b: nat, k: nat) {
    && |r.filled| == SLOTS
    && r.window == b % SLOTS
    && forall i :: 0 <= i < SLOTS ==> (r.filled[i] <==> i == k % SLOTS)
  }

  ghost predicate NoSlot(r: Receiver, b: nat) {
    && |r.filled| == SLOTS
    && r.window == b % SLOTS
    && forall i :: 0 <= i < SLOTS ==> !r.filled[i]
  }

  /** A copy of packet k after it was written is stored and acknowledged; nothing is written. */
  lemma LateCopyStored(r: Receiver, b: nat, data: seq<byte>, k: nat, payload: seq<byte>)
    requires NoSlot(r, b) && k < b < k + SLOTS && Carries(data, k, payload)
    ensures Receivable(r, data)
    ensures var res := Receive(r, data);
            && StaleSlot(res.receiver, b, k) && res.receiver.writes == r.writes
            && res.reply == Some(Ack(ToByte((k + 1) % SLOTS)))
  {
    hide Carries, Decode, ToInt, ToByte, Ack, Receive;
    ReceiveCarried(r, data, k, payload);
    ResiduesDiffer(k, b);
    ResidueOfResidue(b);
    ResidueOfResidue(k);
    var marked := r.filled[k % SLOTS := true];
    assert Scan(marked, r.window, r.window + WINDOW + 1) == Slide(marked, Some(b % SLOTS), 0);
  }

  /** Packets in order are written once each until their number comes round to the stale slot's
      neighbour; that one is written twice. */
  lemma AfterLateCopy(r: Receiver, b: nat, data: seq<byte>, k: nat, payload: seq<byte>)
    requires StaleSlot(r, b, k) && k < b < k + SLOTS && Carries(data, b, payload)
    ensures Receivable(r, data)
    ensures var r' := Receive(r, data).receiver;
            if b + 1 < k + SLOTS then StaleSlot(r', b + 1, k) && r'.writes == r.writes + [payload]
            else NoSlot(r', b + 2) && r'.writes == r.writes + [payload, payload]
  {
    hide Carries, Decode, ToInt, ToByte, Ack, Receive;
    ReceiveCarried(r, data, b, payload);
    ResiduesDiffer(k, b);
    ResidueOfSuccessor(b);
    ResidueOfResidue(b);
    var marked := r.filled[b % SLOTS := true];
    var end := r.window + WINDOW + 1;
    assert marked[b % SLOTS := false] == r.filled;
    if b + 1 < k + SLOTS {
      ResiduesDiffer(k, b + 1);
      assert Scan(r.filled, r.window + 1, end) == Slide(r.filled, Some((b + 1) % SLOTS), 0);
      assert Repeat(payload, 1) == [payload];
    } else {
      ScanStale(r.filled, b, k, end);
      assert Repeat(payload, 2) == [payload, payload];
    }
  }

  /** The slide over the stale slot itself. */
  lemma ScanStale(filled: seq<bool>, b: nat, k: nat, end: nat)
    requires |filled| == SLOTS && b + 1 == k + SLOTS && end == b % SLOTS + WINDOW + 1
    requires forall i :: 0 <= i < SLOTS ==> (filled[i] <==> i == k % SLOTS)
    ensures Scan(filled, b % SLOTS + 1, end) == Slide(filled[k % SLOTS := false], Some((b + 2) % SLOTS), 1)
  {
    StaleNeighbour(b, k);
    var clear := filled[k % SLOTS := false];
    assert Scan(clear, b % SLOTS + 2, end) == Slide(clear, Some((b + 2) % SLOTS), 0);
  }

  lemma StaleNeighbour(b: nat, k: nat)
    requires b + 1 == k + SLOTS
    ensures (b % SLOTS + 1) % SLOTS == k % SLOTS && (b % SLOTS + 2) % SLOTS == (b + 2) % SLOTS
  {
    ResidueOfSuccessor(b);
    ResidueOfSuccessor(b + 1);
    ResidueOfSuccessor(b % SLOTS + 1);
    AddTurn(k);
  }

  lemma AddTurn(k: nat)
    ensures (k + SLOTS) % SLOTS == k % SLOTS
  {
  }

  /** From the late copy on, in order up to the packet before its number comes round. */
  lemma {:induction false} AfterLateCopies(r: Receiver, b: nat, msgs: seq<seq<byte>>, k: nat, pay: nat -> seq<byte>)
    requires StaleSlot(r, b, k) && k < b && b + |msgs| < k + SLOTS
    requires forall i :: 0 <= i < |msgs| ==> Carries(msgs[i], b + i, pay(b + i))
    ensures var r' := Feed(r, msgs);
            && StaleSlot(r', b + |msgs|, k)
            && r'.writes == r.writes + seq(|msgs|, i requires i >= 0 => pay(b + i))
    decreases |msgs|
  {
    hide Receive, Receivable, Carries, StaleSlot;
    if |msgs| > 0 {
      var n := |msgs| - 1;
      AfterLateCopies(r, b, msgs[..n], k, pay);
      AfterLateCopy(Feed(r, msgs[..n]), b + n, msgs[n], k, pay(b + n));
    }
  }

  lemma {:induction false} FeedConcat(r: Receiver, first: seq<seq<byte>>, last: seq<seq<byte>>)
    ensures Feed(r, first + last) == Feed(Feed(r, first), last)
    decreases |last|
  {
    hide Receive, Receivable;
    if |last| == 0 {
      assert first + last == first;
    } else {
      var n := |last| - 1;
      assert (first + last)[..|first + last| - 1] == first + last[..n];
      FeedConcat(r, first, last[..n]);
    }
  }

  lemma FeedOne(r: Receiver, data: seq<byte>)
    requires Receivable(r, data)
    ensures Feed(r, [data]) == Receive(r, data).receiver
  {
    hide Receive, Receivable;
    assert [data][..0] == [];
    assert Feed(r, []) == r;
  }

  lemma FeedParts(r: Receiver, a: seq<seq<byte>>, b: seq<seq<byte>>, c: seq<seq<byte>>, d: seq<seq<byte>>)
    ensures Feed(r, a + b + c + d) == Feed(Feed(Feed(Feed(r, a), b), c), d)
  {
    FeedConcat(r, a + b + c, d);
    FeedConcat(r, a + b, c);
    FeedConcat(r, a, b);
    hide Feed;
  }

  /** The packet whose number comes round next to the stale slot, and the one after it. */
  lemma DoubleThenLost(r: Receiver, k: nat, double: seq<byte>, lost: seq<byte>, pay: nat -> seq<byte>)
    requires StaleSlot(r, k + SLOTS - 1, k)
    requires Carries(double, k + SLOTS - 1, pay(k + SLOTS - 1)) && Carries(lost, k + SLOTS, pay(k + SLOTS))
    ensures var p := pay(k + SLOTS - 1);
            Feed(Feed(r, [double]), [lost]).writes == r.writes + [p, p]
  {
    hide Receive, Receivable, Carries, StaleSlot, NoSlot, Feed;
    AfterLateCopy(r, k + SLOTS - 1, double, k, pay(k + SLOTS - 1));
    FeedOne(r, double);
    var r' := Feed(r, [double]);
    LateCopyStored(r', k + SLOTS + 1, lost, k + SLOTS, pay(k + SLOTS));
    FeedOne(r', lost);
  }

  /** A late copy of packet k spoils the file 255 packets later, although everything else arrives
      in order and once: packet k + 255 is written twice and packet k + 256 never. */
  lemma LateCopyCorrupts(r: Receiver, b: nat, late: seq<byte>, k: nat, msgs: seq<seq<byte>>, pay: nat -> seq<byte>)
    requires NoSlot(r, b) && k < b < k + SLOTS && Carries(late, k, pay(k))
    requires b + |msgs| == k + SLOTS + 1
    requires forall i :: 0 <= i < |msgs| ==> Carries(msgs[i], b + i, pay(b + i))
    ensures Feed(r, [late] + msgs).writes ==
            r.writes + seq(|msgs| - 1, i requires i >= 0 => pay(b + i)) + [pay(k + SLOTS - 1)]
  {
    hide Receive, Receivable, Carries, StaleSlot, NoSlot, Feed;
    var n := |msgs| - 2;
    LateCopyStored(r, b, late, k, pay(k));
    FeedOne(r, late);
    AfterLateCopies(Feed(r, [late]), b, msgs[..n], k, pay);
    DoubleThenLost(Feed(Feed(r, [late]), msgs[..n]), k, msgs[n], msgs[n + 1], pay);
    LastTwo(late, msgs);
    FeedParts(r, [late], msgs[..n], [msgs[n]], [msgs[n + 1]]);
    PayloadsOnce(pay, b, n);
  }

  lemma LastTwo(late: seq<byte>, msgs: seq<seq<byte>>)
    requires |msgs| >= 2
    ensures var n := |msgs| - 2; [late] + msgs == [late] + msgs[..n] + [msgs[n]] + [msgs[n + 1]]
  {
  }

  /** The payloads of n packets from b on, and one more. */
  lemma PayloadsOnce(pay: nat -> seq<byte>, b: nat, n: nat)
    ensures seq(n + 1, i requires i >= 0 => pay(b + i)) == seq(n, i requires i >= 0 => pay(b + i)) + [pay(b + n)]
  {
  }

  /** For example, packet 0, its copy, and packets 1 to 256: 257 payloads are written, of which
      the last is payload 255 again. */
  lemma LateCopyExample(garbage: Fields, msgs: seq<seq<byte>>, pay: nat -> seq<byte>)
    requires |msgs| == SLOTS + 2 && Carries(msgs[0], 0, pay(0))
    requires forall i :: 1 <= i < |msgs| ==> Carries(msgs[i], i - 1, pay(i - 1))
    ensures var writes := Feed(Start(garbage), msgs).writes;
            && |writes| == SLOTS + 1
            && (forall i :: 0 <= i < SLOTS ==> writes[i] == pay(i))
            && writes[SLOTS] == pay(SLOTS - 1)
  {
    hide Receive, Receivable, Carries, Tracks, SlotsOf;
    var r0, m0 := Start(garbage), msgs[0];
    StartTracks(garbage);
    var c := ArrivalTracks(r0, 0, {}, m0, 0, pay(0));
    var r1 := Receive(r0, m0).receiver;
    FirstSlots(r1, c, {} + {0});
    FeedOne(r0, m0);
    LateCopyCorrupts(r1, 1, msgs[1], 0, msgs[2..], pay);
    assert msgs == [m0] + ([msgs[1]] + msgs[2..]);
    FeedConcat(r0, [m0], [msgs[1]] + msgs[2..]);
    hide Feed, Start;
  }

  lemma FirstSlots(r: Receiver, b: nat, seen: set<nat>)
    requires Tracks(r, b, seen) && forall h :: h in seen ==> h < b
    ensures NoSlot(r, b)
  {
  }
}
