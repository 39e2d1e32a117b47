/** src/receiver.c itself: receive_package, one datagram at a time. */
module ReceiverProgram {
  import opened Bytes
  import opened Options
  import opened Packet
  import opened PacketProofs
  import opened ReceiverSpec

  /** The slots whose entry is not -1. */
  function FilledOf(slots: seq<int>): (f: seq<bool>)
    ensures |f| == |slots|
    ensures forall i :: 0 <= i < |f| ==> f[i] == (slots[i] != -1)
  {
    seq(|slots|, i requires 0 <= i < |slots| => slots[i] != -1)
  }

  /** Fill in a fresh packet as an ACK or NACK and encode it. */
  method MakeReply(ptype: bv2, seqnum: byte) returns (msg: seq<byte>)
    requires ptype in {PTYPE_ACK, PTYPE_NACK}
    ensures msg == Wire(Reply(ptype, seqnum))
  {
    hide Header, Crc32.Crc;
    var garbage: Fields := *;
    var pkt := new Pkt(garbage);
    FieldWidths(ptype, 0, 7);
    var _ := pkt.SetType(ptype as byte);
    var _ := pkt.SetTr(0);
    var _ := pkt.SetWindow(7);
    pkt.seqnum := seqnum;
    pkt.timestamp := 100;
    var _ := pkt.SetLength(0);
    var buf := new byte[ACK_SIZE];
    var status, len := pkt.Encode(buf, ACK_SIZE);
    SameWireIffSameContent(pkt.Value(), Reply(ptype, seqnum));
    msg := buf[..len];
  }

  class Receiver {
    var running: bool
    const isEmptyBuff: array<int>
    var actualWindow: nat
    const rcvPacket: Pkt
    var packetReceived: nat
    var output: seq<seq<byte>>

    ghost predicate Valid()
      reads this
    {
      isEmptyBuff.Length == SLOTS
    }

    ghost function State(): ReceiverSpec.Receiver
      requires Valid()
      reads this, isEmptyBuff, rcvPacket
    {
      ReceiverSpec.Receiver(running, FilledOf(isEmptyBuff[..]), actualWindow, rcvPacket.Value(), packetReceived, output)
    }

    constructor (garbage: Fields)
      ensures Valid() && fresh(isEmptyBuff) && fresh(rcvPacket)
      ensures State() == Start(garbage)
    {
      running, actualWindow, packetReceived, output := true, 0, 0, [];
      isEmptyBuff := new int[SLOTS](_ => -1);
      rcvPacket := new Pkt(garbage);
    }

    /** The slide loop: write and empty every filled slot from the window on, up to a hole. */
    method Slide(payload: seq<byte>)
      requires Valid()
      modifies this`actualWindow, this`output, isEmptyBuff
      ensures var s := Scan(old(FilledOf(isEmptyBuff[..])), old(actualWindow), old(actualWindow) + WINDOW + 1);
              && FilledOf(isEmptyBuff[..]) == s.filled
              && actualWindow == (if s.hole.Some? then s.hole.value else old(actualWindow))
              && output == old(output) + Repeat(payload, s.passed)
    {
      var end := actualWindow + WINDOW + 1;
      ghost var total := Scan(FilledOf(isEmptyBuff[..]), actualWindow, end);
      ghost var passed := 0;
      var i := actualWindow;
      while i < end
        invariant actualWindow == old(actualWindow) && i <= end
        invariant var s := Scan(FilledOf(isEmptyBuff[..]), i, end);
                  total.filled == s.filled && total.hole == s.hole && total.passed == passed + s.passed
        invariant output == old(output) + Repeat(payload, passed)
      {
        if isEmptyBuff[i % SLOTS] == -1 {
          actualWindow := i % SLOTS;
          break;
        }
        ghost var before := FilledOf(isEmptyBuff[..]);
        output := output + [payload];
        isEmptyBuff[i % SLOTS] := -1;
        assert FilledOf(isEmptyBuff[..]) == before[i % SLOTS := false];
        assert Repeat(payload, passed + 1) == Repeat(payload, passed) + [payload];
        passed := passed + 1;
        i := i + 1;
      }
    }

    /** Mark the slot of the packet just received and slide. */
    method StorePacket(seqnum: nat)
      requires Valid() && seqnum < SLOTS && seqnum == ToInt(rcvPacket.seqnum)
      requires HasPayload(State().pkt) && PayloadPresent(State().pkt)
      modifies this`actualWindow, this`output, isEmptyBuff
      ensures State() == Store(old(State()))
    {
      hide Scan, ToInt;
      ghost var filled := FilledOf(isEmptyBuff[..]);
      isEmptyBuff[seqnum] := 1;
      assert FilledOf(isEmptyBuff[..]) == filled[seqnum := true];
      Slide(rcvPacket.payload[..rcvPacket.length]);
    }

    /** One turn of receive_package: a datagram in, at most one reply out. */
    method HandleDatagram(data: seq<byte>) returns (reply: Option<seq<byte>>)
      requires Valid() && Receivable(State(), data)
      modifies this, isEmptyBuff, rcvPacket
      ensures Valid()
      ensures Received(State(), reply) == Receive(old(State()), data)
    {
      hide Answer, Decode;
      var _ := rcvPacket.DecodeFrom(data);
      packetReceived := packetReceived + 1;
      reply := AnswerPacket();
    }

    /** What receive_package does with the packet it decoded. */
    method AnswerPacket() returns (reply: Option<seq<byte>>)
      requires Valid() && PayloadPresent(State().pkt)
      modifies this, isEmptyBuff
      ensures Valid()
      ensures Received(State(), reply) == Answer(old(State()))
    {
      hide AnswerData;
      if rcvPacket.ptype != PTYPE_DATA {
        return None;
      }
      reply := AnswerDataPacket();
    }

    method AnswerDataPacket() returns (reply: Option<seq<byte>>)
      requires Valid() && PayloadPresent(State().pkt) && rcvPacket.ptype == PTYPE_DATA
      modifies this, isEmptyBuff
      ensures Valid()
      ensures Received(State(), reply) == AnswerData(old(State()))
    {
      hide AnswerNew, Ack, ToInt;
      ToIntRange(rcvPacket.seqnum);
      if rcvPacket.length == 0 && rcvPacket.tr == 0 {
        var ack := EndOfFile();
        return Some(ack);
      }
      var seqnum := ToInt(rcvPacket.seqnum);
      if isEmptyBuff[seqnum] != -1 {
        return None;
      }
      var msg := TakePacket(seqnum);
      return Some(msg);
    }

    /** Acknowledge the end of file and stop. */
    method EndOfFile() returns (ack: seq<byte>)
      requires Valid()
      modifies this`running
      ensures State() == old(State()).(running := false)
      ensures ack == Ack(rcvPacket.seqnum + 1)
    {
      hide Wire;
      ack := MakeReply(PTYPE_ACK, rcvPacket.seqnum + 1);
      running := false;
    }

    /** A packet that is not held yet: store and acknowledge it, or ask for it again. */
    method TakePacket(seqnum: nat) returns (msg: seq<byte>)
      requires Valid() && seqnum < SLOTS && seqnum == ToInt(rcvPacket.seqnum)
      requires PayloadPresent(State().pkt) && rcvPacket.ptype == PTYPE_DATA
      requires rcvPacket.length > 0 || rcvPacket.tr != 0
      modifies this, isEmptyBuff
      ensures Received(State(), Some(msg)) == AnswerNew(old(State()))
    {
      hide Wire, Store, ToInt;
      if rcvPacket.tr != 1 {
        StorePacket(seqnum);
        msg := MakeReply(PTYPE_ACK, rcvPacket.seqnum + 1);
      } else {
        msg := MakeReply(PTYPE_NACK, rcvPacket.seqnum);
      }
    }
  }
}
