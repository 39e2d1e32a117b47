/** The receiver of src/receiver.c on values: one call of Receive is one turn of receive_package. */
module ReceiverSpec {
  import opened Bytes
  import opened Options
  import opened Packet

  /** Slots of the circular presence array: one per sequence number. */
  const SLOTS := 256

  /** window_available. */
  const WINDOW := 7

  /** `filled` says which slots of is_empty_buff are not -1; `writes` are the payloads handed to
      fwrite, in order; `pkt` is what rcv_packet holds. */
  datatype Receiver = Receiver(
    running: bool,
    filled: seq<bool>,
    window: nat,
    pkt: Fields,
    received: nat,
    writes: seq<seq<byte>>)

  /** An ACK or NACK as the receiver fills it in. */
  function Reply(ptype: bv2, seqnum: byte): (p: Fields)
    requires ptype in {PTYPE_ACK, PTYPE_NACK}
  {
    Fields(ptype, 0, 7, 0, seqnum, 100, 0, [], 0)
  }

  function Ack(seqnum: byte): seq<byte> {
    Wire(Reply(PTYPE_ACK, seqnum))
  }

  function Nack(seqnum: byte): seq<byte> {
    Wire(Reply(PTYPE_NACK, seqnum))
  }

  /** The outcome of the slide loop: the slots left, the hole it broke at, the slots it passed. */
  datatype Slide = Slide(filled: seq<bool>, hole: Option<nat>, passed: nat)

  /** The slide loop from index i to the bound `end`, which it does not reach. */
  function Scan(filled: seq<bool>, i: nat, end: nat): (s: Slide)
    requires |filled| == SLOTS
    ensures |s.filled| == SLOTS
    ensures s.hole.Some? ==> s.hole.value < SLOTS
    decreases end - i
  {
    if i >= end then Slide(filled, None, 0)
    else if !filled[i % SLOTS] then Slide(filled, Some(i % SLOTS), 0)
    else
      var s := Scan(filled[i % SLOTS := false], i + 1, end);
      s.(passed := s.passed + 1)
  }

  function Repeat(x: seq<byte>, n: nat): (r: seq<seq<byte>>)
    ensures |r| == n
    ensures forall i :: 0 <= i < n ==> r[i] == x
  {
    seq(n, _ => x)
  }

  /** Storing a new packet: its slot is filled, then the window slides over consecutive filled
      slots, each time writing the payload of the packet just received. */
  function Store(r: Receiver): (r': Receiver)
    requires |r.filled| == SLOTS && PayloadPresent(r.pkt) && r.pkt.ptype == PTYPE_DATA && r.pkt.length > 0
    ensures |r'.filled| == SLOTS
  {
    ToIntRange(r.pkt.seqnum);
    var s := Scan(r.filled[ToInt(r.pkt.seqnum) := true], r.window, r.window + WINDOW + 1);
    r.(filled := s.filled,
       window := if s.hole.Some? then s.hole.value else r.window,
       writes := r.writes + Repeat(r.pkt.payload[..r.pkt.length], s.passed))
  }

  /** What the source needs of the packet it has just decoded: a new, untruncated, non-empty
      DATA packet is copied from its payload buffer, which must be that long. */
  ghost predicate Receivable(r: Receiver, data: seq<byte>) {
    && |r.filled| == SLOTS
    && |data| > 0
    && PayloadPresent(Decode(data, r.pkt).pkt)
  }

  datatype Received = Received(receiver: Receiver, reply: Option<seq<byte>>)

  /** A packet that is neither held nor an end of file: store and acknowledge it, or, if it was
      truncated, ask for it again. */
  function AnswerNew(r: Receiver): (res: Received)
    requires |r.filled| == SLOTS && PayloadPresent(r.pkt)
    requires r.pkt.ptype == PTYPE_DATA && (r.pkt.length > 0 || r.pkt.tr != 0)
    ensures |res.receiver.filled| == SLOTS
  {
    if r.pkt.tr == 1 then Received(r, Some(Nack(r.pkt.seqnum)))
    else Received(Store(r), Some(Ack(r.pkt.seqnum + 1)))
  }

  /** A DATA packet. */
  function AnswerData(r: Receiver): (res: Received)
    requires |r.filled| == SLOTS && PayloadPresent(r.pkt) && r.pkt.ptype == PTYPE_DATA
    ensures |res.receiver.filled| == SLOTS
  {
    ToIntRange(r.pkt.seqnum);
    if r.pkt.length == 0 && r.pkt.tr == 0 then Received(r.(running := false), Some(Ack(r.pkt.seqnum + 1)))
    else if r.filled[ToInt(r.pkt.seqnum)] then Received(r, None)
    else AnswerNew(r)
  }

  /** The branches of receive_package, for the packet in `pkt`. */
  function Answer(r: Receiver): (res: Received)
    requires |r.filled| == SLOTS && PayloadPresent(r.pkt)
    ensures |res.receiver.filled| == SLOTS
  {
    if r.pkt.ptype != PTYPE_DATA then Received(r, None) else AnswerData(r)
  }

  /** One datagram. The status of pkt_decode is not looked at. */
  function Receive(was: Receiver, data: seq<byte>): (res: Received)
    requires Receivable(was, data)
    ensures |res.receiver.filled| == SLOTS
  {
    Answer(was.(pkt := Decode(data, was.pkt).pkt, received := was.received + 1))
  }

  /** receive_package before its first datagram; rcv_packet is not initialised. */
  function Start(garbage: Fields): Receiver {
    Receiver(true, seq(SLOTS, _ => false), 0, garbage, 0, [])
  }
}
