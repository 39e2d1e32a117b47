/** The sender of src/sender.c on values. One pass of its loop is a turn at the top, which may
    send, and a turn at the poll, which may take in one reply. */
module SenderSpec {
  import opened Bytes
  import opened Options
  import opened Packet
  import opened ReceiverSpec

  /** buffer_size. */
  const CHUNK := 512

  /** Before the window test, before the poll, or returned. */
  datatype Phase = Top | Poll | Done

  /** `input` is the file, of which `pos` bytes were read; `space` and `max` are
      receiver_window_space and receiver_window_max; `pkt` is what rcv_packet holds. */
  datatype Sender = Sender(
    phase: Phase,
    input: seq<byte>,
    pos: nat,
    seqnum: nat,
    space: int,
    max: int,
    sent: nat,
    received: nat,
    theLast: bool,
    firstAck: bool,
    pkt: Fields)

  predicate SenderOk(s: Sender) {
    s.pos <= |s.input| && s.seqnum < SLOTS
  }

  function DataPacket(seqnum: byte, chunk: seq<byte>): Fields
    requires |chunk| <= CHUNK
  {
    Fields(PTYPE_DATA, 0, 0, |chunk|, seqnum, 250, 0, chunk, 0)
  }

  /** The end-of-file packet; its timestamp is that of the last packet received. */
  function EofPacket(seqnum: byte, timestamp: bv32): Fields {
    Fields(PTYPE_DATA, 0, 0, 0, seqnum, timestamp, 0, [], 0)
  }

  datatype Sent = Sent(sender: Sender, message: Option<seq<byte>>)

  /** What fread returns. */
  function NextChunk(s: Sender): (c: seq<byte>)
    requires SenderOk(s)
    ensures |c| <= CHUNK && s.pos + |c| <= |s.input|
  {
    s.input[s.pos..if s.pos + CHUNK <= |s.input| then s.pos + CHUNK else |s.input|]
  }

  /** The window test and what follows it. The last four bytes of the 16-byte end-of-file buffer
      are never written: `tail` is what they happen to hold. */
  function AtTop(s: Sender, tail: seq<byte>): (r: Sent)
    requires SenderOk(s)
    ensures SenderOk(r.sender)
  {
    if !(s.max > s.space && !s.theLast) then Sent(s.(phase := Poll), None)
    else
      var chunk := NextChunk(s);
      if |chunk| == 0 then
        Sent(s.(theLast := true, sent := s.sent + 1),
             Some(Wire(EofPacket(ToByte(s.seqnum), s.pkt.timestamp)) + tail))
      else
        Sent(s.(phase := Poll, pos := s.pos + |chunk|, space := s.space + 1, sent := s.sent + 1,
                seqnum := (s.seqnum + 1) % SLOTS),
             Some(Wire(DataPacket(ToByte(s.seqnum), chunk))))
  }

  /** The test at the end of the loop body. */
  function AtBottom(s: Sender): Sender {
    s.(phase := if s.theLast && s.sent == s.received then Done else Top)
  }

  /** A reply has arrived; the status of pkt_decode is not looked at. */
  function TakeReply(was: Sender, data: seq<byte>): Sender
    requires |data| > 0
  {
    var p := Decode(data, was.pkt).pkt;
    var s := was.(pkt := p);
    if p.ptype == PTYPE_ACK then
      AtBottom(s.(received := s.received + 1, space := s.space - 1, firstAck := false,
                  max := if s.firstAck then p.window as int else s.max))
    else if p.ptype == PTYPE_NACK then AtBottom(s)
    else s.(phase := Done)
  }

  /** How the poll and the recv behind it end. */
  datatype Polled = TimedOut | RecvError | Arrived(data: seq<byte>)

  /** The second half of a pass. After a recv error the bottom test is skipped. */
  function AfterPoll(s: Sender, polled: Polled): Sender
    requires polled.Arrived? ==> polled.data != []
  {
    match polled
    case TimedOut => AtBottom(s)
    case RecvError => s.(phase := Top)
    case Arrived(data) => TakeReply(s, data)
  }

  /** send_package before its first pass; rcv_packet is not initialised. */
  function StartSender(input: seq<byte>, garbage: Fields): Sender {
    Sender(Top, input, 0, 0, 0, 1, 0, 0, false, true, garbage)
  }
}
