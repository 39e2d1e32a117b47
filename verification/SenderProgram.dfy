/** src/sender.c itself: the loop of send_package, turn by turn. */
module SenderProgram {
  import opened Bytes
  import opened Options
  import opened Packet
  import opened PacketProofs
  import opened ReceiverSpec
  import opened SenderSpec

  /** Fill in a fresh DATA packet and encode it into a buffer of 16 bytes more than the payload. */
  method MakeData(seqnum: byte, timestamp: bv32, payload: seq<byte>) returns (msg: seq<byte>)
    requires |payload| <= CHUNK
    ensures var p := Fields(PTYPE_DATA, 0, 0, |payload|, seqnum, timestamp, 0, payload, 0);
            && Wire(p) <= msg
            && |msg| == DATA_SIZE + |payload|
            && (payload != [] ==> msg == Wire(p))
  {
    hide Header, Crc32.Crc;
    var garbage: Fields := *;
    var pkt := new Pkt(garbage);
    FieldWidths(PTYPE_DATA, 0, 0);
    var _ := pkt.SetType(1);
    var _ := pkt.SetTr(0);
    var _ := pkt.SetWindow(0);
    pkt.seqnum := seqnum;
    pkt.timestamp := timestamp;
    var _ := pkt.SetPayload(payload);
    var data := new byte[DATA_SIZE + |payload|];
    var status, len := pkt.Encode(data, DATA_SIZE + |payload|);
    SameWireIffSameContent(pkt.Value(), Fields(PTYPE_DATA, 0, 0, |payload|, seqnum, timestamp, 0, payload, 0));
    msg := data[..len];
  }

  class Sender {
    const input: seq<byte>
    var phase: Phase
    var pos: nat
    var actualSeqnum: nat
    var receiverWindowSpace: int
    var receiverWindowMax: int
    var sent: nat
    var received: nat
    var theLast: bool
    var firstAck: bool
    const rcvPacket: Pkt

    ghost function State(): SenderSpec.Sender
      reads this, rcvPacket
    {
      SenderSpec.Sender(phase, input, pos, actualSeqnum, receiverWindowSpace, receiverWindowMax,
                        sent, received, theLast, firstAck, rcvPacket.Value())
    }

    constructor (input: seq<byte>, garbage: Fields)
      ensures State() == StartSender(input, garbage) && fresh(rcvPacket)
    {
      this.input := input;
      phase, pos, actualSeqnum := Top, 0, 0;
      receiverWindowSpace, receiverWindowMax, sent, received := 0, 1, 0, 0;
      theLast, firstAck := false, true;
      rcvPacket := new Pkt(garbage);
    }

    /** The window test and the sending of one chunk, or of the end of file. */
    method SendTurn() returns (message: Option<seq<byte>>, ghost tail: seq<byte>)
      requires SenderOk(State())
      modifies this
      ensures |tail| == DATA_SIZE - HEADER_SIZE
      ensures Sent(State(), message) == AtTop(old(State()), tail)
    {
      hide Wire;
      tail := [0, 0, 0, 0];
      if !(receiverWindowMax > receiverWindowSpace && !theLast) {
        phase := Poll;
        return None, tail;
      }
      var n := if pos + CHUNK <= |input| then CHUNK else |input| - pos;
      var payload := input[pos..pos + n];
      if n == 0 {
        var data;
        data, tail := SendEof();
        return Some(data), tail;
      }
      var data := SendChunk(payload);
      return Some(data), tail;
    }

    /** The end-of-file packet, in a buffer of 16 bytes. */
    method SendEof() returns (data: seq<byte>, ghost tail: seq<byte>)
      requires SenderOk(State())
      modifies this
      ensures |tail| == DATA_SIZE - HEADER_SIZE
      ensures data == Wire(EofPacket(ToByte(old(actualSeqnum)), rcvPacket.timestamp)) + tail
      ensures State() == old(State()).(theLast := true, sent := old(sent) + 1)
    {
      hide Wire;
      theLast := true;
      data := MakeData(ToByte(actualSeqnum), rcvPacket.timestamp, []);
      tail := data[HEADER_SIZE..];
      assert data[..HEADER_SIZE] == Wire(EofPacket(ToByte(actualSeqnum), rcvPacket.timestamp));
      assert data == data[..HEADER_SIZE] + tail;
      sent := sent + 1;
    }

    method SendChunk(payload: seq<byte>) returns (data: seq<byte>)
      requires SenderOk(State()) && NextChunk(State()) == payload != []
      modifies this
      ensures data == Wire(DataPacket(ToByte(old(actualSeqnum)), payload))
      ensures State() == old(State()).(
        phase := Poll, pos := old(pos) + |payload|, space := old(receiverWindowSpace) + 1,
        sent := old(sent) + 1, seqnum := (old(actualSeqnum) + 1) % SLOTS)
    {
      hide Wire, NextChunk;
      data := MakeData(ToByte(actualSeqnum), 250, payload);
      pos := pos + |payload|;
      receiverWindowSpace := receiverWindowSpace + 1;
      sent := sent + 1;
      actualSeqnum := (actualSeqnum + 1) % SLOTS;
      phase := Poll;
    }

    /** The test that ends the loop body. */
    method Bottom()
      modifies this`phase
      ensures State() == AtBottom(old(State()))
    {
      phase := if theLast && sent == received then Done else Top;
    }

    /** The poll: a time-out, an error, or one reply. */
    method PollTurn(polled: Polled)
      requires polled.Arrived? ==> polled.data != []
      modifies this, rcvPacket
      ensures State() == AfterPoll(old(State()), polled)
    {
      hide Decode;
      if polled.RecvError? {
        phase := Top;
        return;
      }
      if polled.Arrived? {
        var _ := rcvPacket.DecodeFrom(polled.data);
        if rcvPacket.ptype == PTYPE_ACK {
          TakeAck();
        } else if rcvPacket.ptype != PTYPE_NACK {
          phase := Done;
          return;
        }
      }
      Bottom();
    }

    /** Count an acknowledgement; the first one tells the receiver's window. */
    method TakeAck()
      modifies this
      ensures State() == old(State()).(
        received := old(received) + 1, space := old(receiverWindowSpace) - 1, firstAck := false,
        max := if old(firstAck) then rcvPacket.window as int else old(receiverWindowMax))
    {
      received := received + 1;
      receiverWindowSpace := receiverWindowSpace - 1;
      if firstAck {
        firstAck := false;
        receiverWindowMax := rcvPacket.window as int;
      }
    }
  }
}
