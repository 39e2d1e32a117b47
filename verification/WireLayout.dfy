/** The bytes of the messages, one by one (src/packet.c, pkt_encode; src/sender.c; src/receiver.c). */
module WireLayout {
  import opened Bytes
  import opened Crc32
  import opened CrcProofs
  import opened Packet
  import opened PacketProofs
  import opened ReceiverSpec
  import opened SenderSpec

  /** Four bytes spell a number, the most significant first. */
  predicate Spells(s: seq<byte>, n: bv32) {
    |s| == 4 && n == ((s[0] as bv32) << 24) | ((s[1] as bv32) << 16) | ((s[2] as bv32) << 8) | (s[3] as bv32)
  }

  lemma NetSpells(n: bv32)
    ensures Spells(Net32(n), n)
  {
  }

  lemma RawSpells(n: bv32)
    ensures var s := Raw32(n); Spells([s[3], s[2], s[1], s[0]], n)
  {
  }

  lemma LengthSpells(n: uint16)
    ensures var s := Net16(n); n == ToInt(s[0]) * 256 + ToInt(s[1])
  {
    Net16Inverse(n);
    hide ToInt, ToByte;
  }

  lemma FirstByteSpells(t: bv2, tr: bv1, w: bv5)
    ensures var b := FirstByte(t, tr, w);
            b >> 6 == t as byte && (b >> 5) & 1 == tr as byte && b & 31 == w as byte
  {
  }

  /** A DATA packet: type, TR and window in the first byte, the length, the number, the timestamp, the CRC of these
      eight bytes, and, if there is a payload, the payload and its CRC. The timestamp alone is not in network
      byte order. */
  lemma DataLayout(p: Fields)
    requires p.ptype == PTYPE_DATA && PayloadPresent(p)
    ensures var w, n := Wire(p), p.length;
            && |w| == (if n == 0 then 12 else 16 + n)
            && w[0] >> 6 == 1 && (w[0] >> 5) & 1 == p.tr as byte && w[0] & 31 == p.window as byte
            && ToInt(w[1]) * 256 + ToInt(w[2]) == n
            && w[3] == p.seqnum
            && Spells([w[7], w[6], w[5], w[4]], p.timestamp)
            && Spells(w[8..12], Crc(w[..8]))
            && (n > 0 ==> w[12..12 + n] == p.payload[..n] && Spells(w[12 + n..], Crc(p.payload[..n])))
  {
    hide Crc, FirstByte, Net16, Net32, Raw32, Spells, ToInt;
    FirstByteSpells(p.ptype, p.tr, p.window);
    LengthSpells(p.length);
    RawSpells(p.timestamp);
    NetSpells(Crc(Header(p)));
    assert Wire(p)[..8] == Header(p) && Wire(p)[8..12] == Net32(Crc(Header(p)));
    if p.length > 0 {
      NetSpells(Crc(p.payload[..p.length]));
      assert Wire(p)[12..12 + p.length] == p.payload[..p.length];
      assert Wire(p)[12 + p.length..] == Net32(Crc(p.payload[..p.length]));
    }
  }

  /** An ACK or NACK has no length and no payload. */
  lemma ReplyLayout(p: Fields)
    requires p.ptype != PTYPE_DATA
    ensures var w := Wire(p);
            && |w| == 10
            && w[0] >> 6 == p.ptype as byte && (w[0] >> 5) & 1 == p.tr as byte && w[0] & 31 == p.window as byte
            && w[1] == p.seqnum
            && Spells([w[5], w[4], w[3], w[2]], p.timestamp)
            && Spells(w[6..10], Crc(w[..6]))
  {
    hide Crc, FirstByte, Net32, Raw32, Spells;
    FirstByteSpells(p.ptype, p.tr, p.window);
    RawSpells(p.timestamp);
    NetSpells(Crc(Header(p)));
    assert Wire(p)[..6] == Header(p) && Wire(p)[6..10] == Net32(Crc(Header(p)));
  }

  // ---------- What the two programs send ----------

  lemma Constants()
    ensures FirstByte(PTYPE_DATA, 0, 0) == 0x40
    ensures FirstByte(PTYPE_ACK, 0, 7) == 0x87 && FirstByte(PTYPE_NACK, 0, 7) == 0xC7
    ensures Raw32(250) == [250, 0, 0, 0] && Raw32(100) == [100, 0, 0, 0]
  {
  }

  /** The header of a chunk: window 0 and timestamp 250. */
  lemma ChunkHeader(seqnum: byte, chunk: seq<byte>)
    requires 0 < |chunk| <= 512
    ensures var w := Wire(DataPacket(seqnum, chunk));
            && |w| == 16 + |chunk|
            && w[..8] == [0x40, ToByte(|chunk| / 256), ToByte(|chunk| % 256), seqnum, 250, 0, 0, 0]
            && w[12..12 + |chunk|] == chunk
  {
    hide Crc, FirstByte, Net32, Raw32, ToByte;
    Constants();
    var p := DataPacket(seqnum, chunk);
    assert chunk[..|chunk|] == chunk;
    assert Wire(p)[..8] == Header(p);
  }

  /** That of the end of file: the timestamp is the last one received. */
  lemma EofHeader(seqnum: byte, timestamp: bv32)
    ensures var w := Wire(EofPacket(seqnum, timestamp));
            |w| == 12 && w[..4] == [0x40, 0, 0, seqnum] && w[4..8] == Raw32(timestamp)
  {
    hide Crc, FirstByte, Net32, Raw32;
    Constants();
    var p := EofPacket(seqnum, timestamp);
    assert Wire(p)[..8] == Header(p);
    assert Net16(0) == [0, 0];
    assert Wire(p)[..4] == Header(p)[..4] && Wire(p)[4..8] == Header(p)[4..8];
  }

  /** Those of the receiver's answers: window 7 and timestamp 100. */
  lemma ReplyHeaders(seqnum: byte)
    ensures |Ack(seqnum)| == |Nack(seqnum)| == 10
    ensures Ack(seqnum)[..6] == [0x87, seqnum, 100, 0, 0, 0]
    ensures Nack(seqnum)[..6] == [0xC7, seqnum, 100, 0, 0, 0]
  {
    hide Crc, FirstByte, Net32, Raw32;
    Constants();
    assert Ack(seqnum)[..6] == Header(Reply(PTYPE_ACK, seqnum));
    assert Nack(seqnum)[..6] == Header(Reply(PTYPE_NACK, seqnum));
  }

  /** The acknowledgement of packet 0, byte by byte. */
  lemma FirstAck()
    ensures Ack(1) == [0x87, 0x01, 0x64, 0x00, 0x00, 0x00, 0x3B, 0x53, 0xCC, 0x27]
  {
    hide Crc, FirstByte, Net32, Raw32;
    Constants();
    FirstAckCrc();
    FirstAckCrcBytes();
    assert Header(Reply(PTYPE_ACK, 1)) == [0x87, 0x01, 0x64, 0x00, 0x00, 0x00];
  }

  lemma FirstAckCrcBytes()
    ensures Net32(0x3B53CC27) == [0x3B, 0x53, 0xCC, 0x27]
  {
  }
}
