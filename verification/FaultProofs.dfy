/** What the link simulator does with each roll (Linksimulator/link_sim.c, simulate_link), and what a datagram
    that pkt_decode rejects leaves in the structure (src/packet.c). Neither program looks at the status of
    pkt_decode, so both act on what it leaves. */
module FaultProofs {
  import opened Bytes
  import opened Crc32
  import opened LinkFaults
  import opened Packet
  import opened PacketProofs

  // ---------- Which fault strikes ----------

  /** rand() % 101 is below a rate that is not 0. */
  predicate Hit(rate: int, roll: nat) {
    0 < rate && roll % 101 < rate
  }

  lemma CutByte(b: byte)
    ensures TypeOf(b | 0x20) == TypeOf(b) && WindowOf(b | 0x20) == WindowOf(b) && TrOf(b | 0x20) == 1
  {
  }

  lemma StrikesIs(rate: uint32, roll: nat)
    ensures Strikes(rate, roll) <==> Hit(rate, roll)
  {
  }

  /** A packet is lost, else cut, else corrupted, as the rates and rolls of these faults have it. */
  lemma FateIs(cfg: Config, rolls: Rolls, buf: seq<byte>)
    requires |buf| > 0
    ensures var fate := Damage(cfg, rolls, buf);
            && (fate == Dropped <==> Hit(cfg.lossRate, rolls.loss))
            && (fate.Passed? ==>
                  if Hit(cfg.cutRate, rolls.cut) && |buf| > 12 then IsCut(buf, fate.buf)
                  else if Hit(cfg.errRate, rolls.err) then IsCorrupted(buf, rolls.index % |buf|, fate.buf)
                  else fate.buf == buf)
  {
    hide Strikes, Hit, IsCut, IsCorrupted, Truncate, Invert;
    StrikesIs(cfg.lossRate, rolls.loss);
    StrikesIs(cfg.cutRate, rolls.cut);
    StrikesIs(cfg.errRate, rolls.err);
    if |buf| > 12 {
      TruncateCuts(buf);
    }
    InvertCorrupts(buf, rolls.index % |buf|);
  }

  /** The first twelve bytes are left, TR is set, and nothing else has changed. */
  predicate IsCut(buf: seq<byte>, cut: seq<byte>)
    requires |buf| > 12
  {
    && |cut| == 12 && cut[1..] == buf[1..12]
    && TrOf(cut[0]) == 1 && TypeOf(cut[0]) == TypeOf(buf[0]) && WindowOf(cut[0]) == WindowOf(buf[0])
  }

  /** All bits of byte i have changed, and nothing else. */
  predicate IsCorrupted(buf: seq<byte>, i: nat, bad: seq<byte>) {
    |bad| == |buf| && forall j :: 0 <= j < |buf| ==> bad[j] == if j == i then 0xFF - buf[j] else buf[j]
  }

  lemma TruncateCuts(buf: seq<byte>)
    requires |buf| > 12
    ensures IsCut(buf, Truncate(buf))
  {
    hide TypeOf, TrOf, WindowOf;
    CutByte(buf[0]);
  }

  lemma InvertCorrupts(buf: seq<byte>, i: nat)
    requires i < |buf|
    ensures IsCorrupted(buf, i, Invert(buf, i))
  {
    InvertedByte(buf[i]);
  }

  lemma InvertedByte(b: byte)
    ensures !b == 0xFF - b
  {
  }

  ghost function Residues(n: nat): (s: set<nat>)
    ensures |s| == n && forall r: nat :: r in s <==> r < n
  {
    if n == 0 then {} else Residues(n - 1) + {n - 1}
  }

  /** Of the 101 residues of a roll exactly `rate` strike. */
  lemma StrikingResidues(rate: uint32)
    requires rate <= 101
    ensures |set r: nat | r < 101 && Strikes(rate, r)| == rate
  {
    var striking := set r: nat | r < 101 && Strikes(rate, r);
    forall r: nat
      ensures r in striking <==> r in Residues(rate)
    {
      if r < 101 {
        assert r % 101 == r;
      }
    }
    assert striking == Residues(rate);
  }

  // ---------- What a rejected datagram leaves ----------

  /** The first byte, two bits, one bit and five. */
  lemma FirstByteIs(b: byte)
    ensures TypeOf(b) as byte == b >> 6
    ensures TrOf(b) as byte == (b >> 5) & 1
    ensures WindowOf(b) as byte == b & 31
  {
  }

  /** The check over the header, and the one over the payload. */
  ghost predicate HeaderFits(data: seq<byte>) {
    if |data| > 0 && TypeOf(data[0]) == PTYPE_DATA then |data| >= 12 && Crc(data[..8]) == Host32(data[8..12])
    else |data| >= 10 && Crc(data[..6]) == Host32(data[6..10])
  }

  /** The CRC1 field of a datagram that has a header. */
  ghost function Crc1Field(data: seq<byte>): bv32
    requires |data| > 0 && |data| >= if TypeOf(data[0]) == PTYPE_DATA then 12 else 10
  {
    if TypeOf(data[0]) == PTYPE_DATA then Host32(data[8..12]) else Host32(data[6..10])
  }

  ghost predicate PayloadFits(data: seq<byte>) {
    |data| > 16 ==> Crc(data[12..|data| - 4]) == Host32(data[|data| - 4..])
  }

  /** Which error pkt_decode gives before it checks a CRC. */
  lemma EarlyStatusIs(data: seq<byte>, was: Fields)
    requires |data| > 0
    ensures var t, tr, status := TypeOf(data[0]), TrOf(data[0]), Decode(data, was).status;
            && (status == ErrNoHeader <==> if t == 1 then |data| < 12 else t != 0 && |data| < 10)
            && (status == ErrUnconsistent <==> tr == 1 && (t == 0 || (t != 1 && |data| >= 10)))
            && (status == ErrType <==> t == 0 && tr == 0)
            && (status == ErrLength <==>
                  t == 1 && |data| >= 12 && (Host16(data[1..3]) + 16 != |data| || |data| > 528))
  {
    hide TypeOf, TrOf, Host16, Host32, Crc, FromRaw32, WindowOf;
  }

  /** Otherwise it accepts the datagram if and only if its checks fit, or reports a CRC error. */
  lemma CheckedStatusIs(data: seq<byte>, was: Fields)
    requires |data| > 0
    requires var t := TypeOf(data[0]);
             if t == 1 then |data| >= 12 && |data| <= 528 && Host16(data[1..3]) + 16 == |data|
             else t != 0 && TrOf(data[0]) == 0 && |data| >= 10
    ensures Decode(data, was).status ==
            if HeaderFits(data) && (TypeOf(data[0]) == 1 ==> PayloadFits(data)) then PktOk else ErrCrc
  {
    hide TypeOf, TrOf, Host16, Host32, Crc, FromRaw32, WindowOf, DecodePayload;
    if TypeOf(data[0]) == 1 && HeaderFits(data) {
      var p := was.(ptype := 1, tr := TrOf(data[0]), window := WindowOf(data[0]), length := Host16(data[1..3]),
                    seqnum := data[3], timestamp := FromRaw32(data[4..8]), crc1 := Host32(data[8..12]));
      PayloadStatusIs(data, p);
      assert Decode(data, was) == DecodePayload(data, p);
    }
  }

  lemma PayloadStatusIs(data: seq<byte>, was: Fields)
    requires |data| == was.length + 16
    ensures DecodePayload(data, was).status == if PayloadFits(data) then PktOk else ErrCrc
  {
    hide Crc, Host32;
    assert data[12..12 + was.length] == data[12..|data| - 4];
    assert data[12 + was.length..16 + was.length] == data[|data| - 4..];
  }

  /** What the structure holds after a datagram was rejected. A datagram that is too short, has no type or is a
      truncated ACK or NACK leaves everything as it was; one of the wrong length sets type, TR and window; a
      wrong CRC leaves the header that was sent, but never the payload and its CRC. */
  lemma RejectedLeaves(data: seq<byte>, was: Fields)
    requires |data| > 0 && Decode(data, was).status != PktOk
    ensures var status, p, t := Decode(data, was).status, Decode(data, was).pkt, TypeOf(data[0]);
            && status in {ErrNoHeader, ErrUnconsistent, ErrType, ErrLength, ErrCrc}
            && (status in {ErrNoHeader, ErrUnconsistent, ErrType} ==> p == was)
            && (status == ErrLength ==> p == was.(ptype := t, tr := TrOf(data[0]), window := WindowOf(data[0])))
            && (status == ErrCrc ==>
                  && p.ptype == t && p.tr == TrOf(data[0]) && p.window == WindowOf(data[0])
                  && p.payload == was.payload && p.crc2 == was.crc2
                  && p.crc1 == (if HeaderFits(data) then Crc1Field(data) else was.crc1)
                  && (if t == 1 then
                        p.length == Host16(data[1..3]) && p.seqnum == data[3] && p.timestamp == FromRaw32(data[4..8])
                      else p.length == was.length && p.seqnum == data[1] && p.timestamp == FromRaw32(data[2..6])))
  {
    hide TypeOf, TrOf, Host16, Host32, Crc, FromRaw32, WindowOf;
  }

  /** What the structure holds after a datagram was accepted. An ACK or NACK leaves the old length and payload; an
      empty DATA packet leaves the old payload. */
  lemma AcceptedLeaves(data: seq<byte>, was: Fields)
    requires |data| > 0 && Decode(data, was).status == PktOk
    ensures var p, t := Decode(data, was).pkt, TypeOf(data[0]);
            && p.ptype == t && p.tr == TrOf(data[0]) && p.window == WindowOf(data[0])
            && |data| >= (if t == 1 then 16 else 10)
            && p.crc1 == Crc1Field(data)
            && (t != 1 ==>
                  && p.seqnum == data[1] && p.timestamp == FromRaw32(data[2..6])
                  && p.length == was.length && p.payload == was.payload && p.crc2 == was.crc2)
            && (t == 1 ==>
                  && p.seqnum == data[3] && p.timestamp == FromRaw32(data[4..8]) && p.length == |data| - 16
                  && p.payload == (if |data| > 16 then data[12..|data| - 4] else was.payload)
                  && p.crc2 == (if |data| > 16 then Host32(data[|data| - 4..]) else was.crc2))
  {
    hide TypeOf, TrOf, Host16, Host32, Crc, FromRaw32, WindowOf, DecodePayload;
    if TypeOf(data[0]) == 1 {
      var p := was.(ptype := 1, tr := TrOf(data[0]), window := WindowOf(data[0]), length := Host16(data[1..3]),
                    seqnum := data[3], timestamp := FromRaw32(data[4..8]), crc1 := Host32(data[8..12]));
      assert Decode(data, was) == DecodePayload(data, p);
      PayloadLeaves(data, p);
    }
  }

  lemma PayloadLeaves(data: seq<byte>, was: Fields)
    requires |data| == was.length + 16 && DecodePayload(data, was).status == PktOk
    ensures DecodePayload(data, was).pkt ==
            if |data| > 16 then was.(payload := data[12..|data| - 4], crc2 := Host32(data[|data| - 4..])) else was
  {
    hide Crc, Host32;
    assert data[12..12 + was.length] == data[12..|data| - 4];
    assert data[12 + was.length..16 + was.length] == data[|data| - 4..];
  }

  // ---------- What damage leaves ----------

  /** A cut packet sets type, TR and window, and nothing else: the number and the length are those of the
      packet before it. */
  lemma CutLeaves(p: Fields, buf: seq<byte>, was: Fields)
    requires OnWire(p, buf) && |buf| > MIN_PKT_PDATA_LEN
    ensures p.ptype == PTYPE_DATA
    ensures Decode(Truncate(buf), was).pkt == was.(ptype := PTYPE_DATA, tr := 1, window := p.window)
  {
    TruncationRejected(p, buf, was);
    RejectedLeaves(Truncate(buf), was);
    SentHeader(p, buf);
    CutByte(buf[0]);
    hide Decode, TypeOf, TrOf, WindowOf;
  }

  lemma SentHeader(p: Fields, buf: seq<byte>)
    requires OnWire(p, buf)
    ensures |buf| >= (if p.ptype == PTYPE_DATA then 16 else 10)
    ensures TypeOf(buf[0]) == p.ptype && TrOf(buf[0]) == 0 && WindowOf(buf[0]) == p.window
    ensures p.ptype == PTYPE_DATA ==>
              Host16(buf[1..3]) == p.length && buf[3] == p.seqnum && FromRaw32(buf[4..8]) == p.timestamp
    ensures p.ptype != PTYPE_DATA ==> buf[1] == p.seqnum && FromRaw32(buf[2..6]) == p.timestamp
  {
    HeaderReadBack(p, buf);
    hide Wire, TypeOf, TrOf, WindowOf, Host16, FromRaw32, Crc, Header;
  }

  lemma WireLength(p: Fields, buf: seq<byte>)
    requires OnWire(p, buf)
    ensures |buf| == (if p.ptype == PTYPE_DATA then 16 + p.length else 10) && p.ptype != 0
    ensures p.ptype == PTYPE_DATA ==> p.length <= 512
  {
    hide Wire;
  }

  /** An inverted first byte leaves everything as it was. */
  lemma FirstInvertedLeaves(p: Fields, buf: seq<byte>, was: Fields)
    requires OnWire(p, buf)
    ensures Decode(Invert(buf, 0), was).pkt == was
  {
    FirstByteRejected(p, buf, was);
    RejectedLeaves(Invert(buf, 0), was);
    hide Decode, TypeOf, TrOf, WindowOf;
  }

  /** An inverted byte of a DATA packet behind the first, but for those no check covers. In the length field it
      keeps the number, the length and the timestamp of the packet before; in the number it gives the
      complement; in the timestamp another timestamp; in either CRC or the payload it leaves the header that was
      sent. The payload is always the old one. */
  lemma InvertedLeaves(p: Fields, buf: seq<byte>, i: nat, was: Fields)
    requires OnWire(p, buf) && p.ptype == PTYPE_DATA && 1 <= i < |buf| && !Unchecked(p, i)
    ensures var q := Decode(Invert(buf, i), was).pkt;
            && q.ptype == PTYPE_DATA && q.tr == 0 && q.window == p.window
            && q.payload == was.payload && q.crc2 == was.crc2
            && (i < 3 ==> q == was.(ptype := PTYPE_DATA, tr := 0, window := p.window))
            && (i >= 3 ==> q.length == p.length)
            && (i >= 3 ==> q.seqnum == if i == 3 then 0xFF - p.seqnum else p.seqnum)
            && (i >= 3 ==> (q.timestamp == p.timestamp <==> !(4 <= i < 8)))
  {
    hide Decode, TypeOf, TrOf, WindowOf, OnWire, Host16, FromRaw32;
    var bad := Invert(buf, i);
    WireLength(p, buf);
    SentHeader(p, buf);
    InversionRejected(p, buf, i, was);
    RejectedLeaves(bad, was);
    EarlyStatusIs(bad, was);
    InvertedByte(buf[i]);
    if i < 3 {
      LengthChanges(buf, i);
    } else {
      assert bad[1..3] == buf[1..3];
      TimestampChanges(buf, 4, i);
    }
  }

  lemma LengthChanges(buf: seq<byte>, i: nat)
    requires |buf| >= 3 && 1 <= i < 3
    ensures Host16(Invert(buf, i)[1..3]) != Host16(buf[1..3])
  {
    var s, t := Invert(buf, i)[1..3], buf[1..3];
    Complement(buf[i]);
    assert s[i - 1] != t[i - 1];
    if Host16(s) == Host16(t) {
      Net16Canonical(s);
      Net16Canonical(t);
    }
    hide Host16, Net16;
  }

  lemma TimestampChanges(buf: seq<byte>, at: nat, i: nat)
    requires |buf| >= at + 4 && i < |buf|
    ensures FromRaw32(Invert(buf, i)[at..at + 4]) == FromRaw32(buf[at..at + 4]) <==> !(at <= i < at + 4)
  {
    var s, t := Invert(buf, i)[at..at + 4], buf[at..at + 4];
    Complement(buf[i]);
    hide FromRaw32, Raw32;
    if at <= i < at + 4 {
      assert s[i - at] != t[i - at];
      Raw32Canonical(s);
      Raw32Canonical(t);
    } else {
      assert s == t;
    }
  }

  /** An inverted byte of an ACK or NACK behind the first: type, TR and window are those that were sent, and the
      number too unless its byte was hit. */
  lemma ReplyInvertedLeaves(p: Fields, buf: seq<byte>, i: nat, was: Fields)
    requires OnWire(p, buf) && p.ptype != PTYPE_DATA && 1 <= i < |buf|
    ensures var q := Decode(Invert(buf, i), was).pkt;
            && q.ptype == p.ptype && q.tr == 0 && q.window == p.window
            && q.seqnum == (if i == 1 then 0xFF - p.seqnum else p.seqnum)
            && (q.timestamp == p.timestamp <==> !(2 <= i < 6))
            && q.length == was.length && q.payload == was.payload && q.crc2 == was.crc2
  {
    hide Decode, TypeOf, TrOf, WindowOf, OnWire, Host16, FromRaw32;
    var bad := Invert(buf, i);
    WireLength(p, buf);
    SentHeader(p, buf);
    InversionRejected(p, buf, i, was);
    RejectedLeaves(bad, was);
    EarlyStatusIs(bad, was);
    InvertedByte(buf[i]);
    TimestampChanges(buf, 2, i);
  }
}
