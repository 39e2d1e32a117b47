/** One pass of the sender's loop (src/sender.c): what it sends, what it counts, and when it returns. */
module SenderProofs {
  import opened Bytes
  import opened FaultProofs
  import opened LinkFaults
  import opened Numbers
  import opened Options
  import opened Packet
  import opened PacketProofs
  import opened ReceiverSpec
  import opened SenderSpec

  // ---------- The send half ----------

  /** There is room in the window, and the end of file was not sent. */
  predicate MaySend(s: Sender) {
    s.space < s.max && !s.theLast
  }

  /** What is left of the file. */
  function Left(s: Sender): int {
    |s.input| - s.pos
  }

  /** A packet is sent exactly if there is room and the end of file was not sent; it is the end of file exactly
      if nothing is left, and else the next 512 bytes or what is left of them. The end of file is counted as
      sent, but takes no place in the window and no number, and the window test is made once more. */
  lemma SendHalfIs(s: Sender, tail: seq<byte>)
    requires SenderOk(s)
    ensures var r, t := AtTop(s, tail), AtTop(s, tail).sender;
            var chunk, eof := MaySend(s) && Left(s) > 0, MaySend(s) && Left(s) == 0;
            && (r.message.Some? <==> chunk || eof)
            && (chunk ==> r.message.value ==
                          Wire(DataPacket(ToByte(s.seqnum), s.input[s.pos..s.pos + Least(512, Left(s))])))
            && (eof ==> r.message.value == Wire(EofPacket(ToByte(s.seqnum), s.pkt.timestamp)) + tail)
            && t == s.(phase := if eof then s.phase else Poll,
                       pos := s.pos + (if chunk then Least(512, Left(s)) else 0),
                       seqnum := if chunk then (if s.seqnum == 255 then 0 else s.seqnum + 1) else s.seqnum,
                       space := s.space + (if chunk then 1 else 0),
                       sent := s.sent + (if chunk || eof then 1 else 0),
                       theLast := s.theLast || eof)
  {
    hide Wire, ToByte;
  }

  // ---------- The poll half ----------

  /** The type of the packet in the structure after a reply, or none. */
  ghost function ReplyType(s: Sender, polled: Polled): (t: bv2)
    requires polled.Arrived? ==> polled.data != []
  {
    if polled.Arrived? then Decode(polled.data, s.pkt).pkt.ptype else 0
  }

  /** An acknowledgement was counted in this turn. */
  ghost function Acknowledged(s: Sender, polled: Polled): int
    requires polled.Arrived? ==> polled.data != []
  {
    if polled.Arrived? && ReplyType(s, polled) == PTYPE_ACK then 1 else 0
  }

  /** The sender returns exactly if a reply is neither ACK nor NACK, or if recv did not fail, the end of file was
      sent, and as many packets were acknowledged as sent, this reply included. A time-out does not make it
      return otherwise. */
  lemma ReturnsIff(s: Sender, polled: Polled)
    requires polled.Arrived? ==> polled.data != []
    ensures AfterPoll(s, polled).phase == Done <==>
            || (polled.Arrived? && ReplyType(s, polled) !in {PTYPE_ACK, PTYPE_NACK})
            || (!polled.RecvError? && s.theLast && s.sent == s.received + Acknowledged(s, polled))
    ensures AfterPoll(s, polled).phase != Poll
  {
    hide Decode;
  }

  /** The poll half counts an acknowledgement and nothing else: a time-out, a recv error, a NACK and a stray
      packet leave every counter, position and window field as it was. The first acknowledgement tells the
      window; later ones do not change it. */
  lemma PollHalfCounts(s: Sender, polled: Polled)
    requires polled.Arrived? ==> polled.data != []
    ensures var t, a := AfterPoll(s, polled), Acknowledged(s, polled);
            && t.received == s.received + a && t.space == s.space - a
            && t.input == s.input && t.pos == s.pos && t.seqnum == s.seqnum && t.sent == s.sent
            && t.theLast == s.theLast
            && t.firstAck == (s.firstAck && a == 0)
            && t.max == (if s.firstAck && a == 1 then t.pkt.window as int else s.max)
            && t.pkt == (if polled.Arrived? then Decode(polled.data, s.pkt).pkt else s.pkt)
  {
    hide Decode;
  }

  // ---------- Damaged replies ----------

  /** The status of pkt_decode is not looked at: damage behind the first byte of an ACK or NACK changes nothing
      but the structure it is decoded into. */
  lemma DamagedReplyCounts(s: Sender, p: Fields, buf: seq<byte>, i: nat)
    requires OnWire(p, buf) && p.ptype != PTYPE_DATA && 1 <= i < |buf|
    ensures AfterPoll(s, Arrived(Invert(buf, i))).(pkt := s.pkt) == AfterPoll(s, Arrived(buf)).(pkt := s.pkt)
  {
    WireTail(p, buf);
    RoundTrip(p, buf[|Wire(p)|..], s.pkt);
    ReplyInvertedLeaves(p, buf, i, s.pkt);
    hide Decode, Wire, OnWire, Invert;
  }

  /** Damage to the first byte makes it take the reply before once more: an ACK is counted twice. */
  lemma DamagedFirstByteCounts(s: Sender, p: Fields, buf: seq<byte>)
    requires OnWire(p, buf) && p.ptype != PTYPE_DATA
    ensures var polled := Arrived(Invert(buf, 0));
            && Acknowledged(s, polled) == (if s.pkt.ptype == PTYPE_ACK then 1 else 0)
            && AfterPoll(s, polled).pkt == s.pkt
  {
    FirstInvertedLeaves(p, buf, s.pkt);
    PollHalfCounts(s, Arrived(Invert(buf, 0)));
    hide Decode, Wire, OnWire, Invert, AfterPoll;
  }
}
