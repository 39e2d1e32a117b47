/** What the wire codec of src/packet.c promises: encoding and decoding are inverse. */
module PacketProofs {
  import opened Bytes
  import opened Crc32
  import opened Packet

  /** The fields that travel: an ACK or NACK carries neither length nor payload. */
  ghost predicate SameContent(p: Fields, q: Fields) {
    && p.ptype == q.ptype && p.tr == q.tr && p.window == q.window
    && p.seqnum == q.seqnum && p.timestamp == q.timestamp
    && (p.ptype == PTYPE_DATA ==> p.length == q.length)
    && (HasPayload(p) ==> p.length <= |p.payload| && p.length <= |q.payload|
                          && p.payload[..p.length] == q.payload[..p.length])
  }

  /** A packet the setters can build and pkt_encode accepts, and pkt_decode will take. */
  ghost predicate Encodable(p: Fields) {
    && p.ptype != 0
    && (p.ptype != PTYPE_DATA ==> p.tr == 0)
    && (p.ptype == PTYPE_DATA ==> p.length <= MAX_PAYLOAD_SIZE)
    && PayloadPresent(p)
  }

  /** The bytes behind the encoding that pkt_decode does not look at: none after a payload,
      the missing CRC2 after an empty DATA packet, anything after an ACK or NACK. */
  ghost predicate IgnoredTail(p: Fields, tail: seq<byte>) {
    p.ptype == PTYPE_DATA ==> |tail| == if p.length == 0 then DATA_SIZE - HEADER_SIZE else 0
  }

  // ---------- Byte-level inverses ----------

  lemma FirstByteInverse(t: bv2, tr: bv1, w: bv5)
    ensures var b := FirstByte(t, tr, w); TypeOf(b) == t && TrOf(b) == tr && WindowOf(b) == w
  {
  }

  lemma FirstByteCanonical(b: byte)
    ensures FirstByte(TypeOf(b), TrOf(b), WindowOf(b)) == b
  {
  }

  lemma Net16Inverse(n: uint16)
    ensures Host16(Net16(n)) == n
  {
    hide ToInt, ToByte;
    IntInverse(n / 256);
    IntInverse(n % 256);
  }

  lemma Net16Canonical(s: seq<byte>)
    requires |s| == 2
    ensures Net16(Host16(s)) == s
  {
    hide ToInt, ToByte;
    ToIntRange(s[0]);
    ToIntRange(s[1]);
    ByteInverse(s[0]);
    ByteInverse(s[1]);
    BigEndianDigits(ToInt(s[0]), ToInt(s[1]));
  }

  lemma BigEndianDigits(hi: int, lo: int)
    requires 0 <= lo < 256
    ensures (hi * 256 + lo) / 256 == hi && (hi * 256 + lo) % 256 == lo
  {
  }

  lemma Net32Inverse(n: bv32)
    ensures Host32(Net32(n)) == n
  {
  }

  lemma Net32Canonical(s: seq<byte>)
    requires |s| == 4
    ensures Net32(Host32(s)) == s
  {
  }

  lemma Raw32Inverse(n: bv32)
    ensures FromRaw32(Raw32(n)) == n
  {
  }

  lemma Raw32Canonical(s: seq<byte>)
    requires |s| == 4
    ensures Raw32(FromRaw32(s)) == s
  {
  }

  // ---------- Round trip ----------

  /** A tail the decoder ignores does not hide the encoded fields from it. */
  lemma HeaderReadBack(p: Fields, data: seq<byte>)
    requires PayloadPresent(p) && Wire(p) <= data
    ensures TypeOf(data[0]) == p.ptype && TrOf(data[0]) == p.tr && WindowOf(data[0]) == p.window
    ensures p.ptype == PTYPE_DATA ==>
              && data[..8] == Header(p) && Host16(data[1..3]) == p.length && data[3] == p.seqnum
              && FromRaw32(data[4..8]) == p.timestamp && Host32(data[8..12]) == Crc(Header(p))
    ensures p.ptype != PTYPE_DATA ==>
              && data[..6] == Header(p) && data[1] == p.seqnum
              && FromRaw32(data[2..6]) == p.timestamp && Host32(data[6..10]) == Crc(Header(p))
  {
    hide Crc, FirstByte, TypeOf, TrOf, WindowOf, Host16, Host32, FromRaw32, Net16, Net32, Raw32;
    var n := |Header(p)|;
    FirstByteInverse(p.ptype, p.tr, p.window);
    Net16Inverse(p.length);
    Raw32Inverse(p.timestamp);
    Net32Inverse(Crc(Header(p)));
    assert data[..n] == Wire(p)[..n] == Header(p);
    assert data[n..n + 4] == Wire(p)[n..n + 4] == Net32(Crc(Header(p)));
    if p.ptype == PTYPE_DATA {
      assert data[1..3] == data[..n][1..3] == Net16(p.length);
      assert data[4..8] == data[..n][4..8] == Raw32(p.timestamp);
    } else {
      assert data[2..6] == data[..n][2..6] == Raw32(p.timestamp);
    }
  }

  lemma PayloadReadBack(p: Fields)
    requires HasPayload(p) && PayloadPresent(p)
    ensures Wire(p)[12..12 + p.length] == p.payload[..p.length]
    ensures Host32(Wire(p)[12 + p.length..16 + p.length]) == Crc(p.payload[..p.length])
  {
    hide Crc, Host32, Net32, Net16, Raw32, FirstByte;
    var body := p.payload[..p.length];
    assert Wire(p) == (Header(p) + Net32(Crc(Header(p)))) + (body + Net32(Crc(body)));
    assert Wire(p)[12..12 + p.length] == body;
    assert Wire(p)[12 + p.length..16 + p.length] == Net32(Crc(body));
    Net32Inverse(Crc(body));
  }

  /** The decoder accepts `data`, whatever it held before, as packet p. */
  ghost predicate DecodesTo(data: seq<byte>, was: Fields, p: Fields) {
    |data| > 0 && Decode(data, was).status == PktOk && SameContent(p, Decode(data, was).pkt)
  }

  /** Decoding an encoded packet, whatever the receiving structure held, gives the packet. */
  lemma RoundTrip(p: Fields, tail: seq<byte>, was: Fields)
    requires Encodable(p) && IgnoredTail(p, tail)
    ensures DecodesTo(Wire(p) + tail, was, p)
  {
    hide Crc, FirstByte, TypeOf, TrOf, WindowOf, Host16, Host32, FromRaw32, Header;
    var data := Wire(p) + tail;
    HeaderReadBack(p, data);
    if HasPayload(p) {
      assert data == Wire(p);
      PayloadReadBack(p);
    }
  }

  // ---------- Canonical form ----------

  lemma AcceptedPayload(data: seq<byte>, was: Fields)
    requires |data| == was.length + DATA_SIZE && DecodePayload(data, was).status == PktOk
    ensures var p, n := DecodePayload(data, was).pkt, was.length;
            && p.(payload := was.payload, crc2 := was.crc2) == was
            && (n > 0 ==> p.payload == data[12..12 + n] && Crc(p.payload) == Host32(data[12 + n..16 + n]))
  {
    hide Crc, Host32;
  }

  lemma AcceptedHeader(data: seq<byte>, was: Fields)
    requires |data| >= HEADER_SIZE && DecodeData(data, was).status == PktOk
    ensures var n := Host16(data[1..3]);
            && n + DATA_SIZE == |data| && n <= MAX_PAYLOAD_SIZE
            && Crc(data[..8]) == Host32(data[8..12])
            && DecodeData(data, was) == DecodePayload(data, was.(length := n, seqnum := data[3],
                                                                 timestamp := FromRaw32(data[4..8]),
                                                                 crc1 := Host32(data[8..12])))
  {
    hide Crc, Host16, Host32, FromRaw32, DecodePayload;
  }

  lemma AcceptedData(data: seq<byte>, was: Fields)
    requires |data| >= HEADER_SIZE && DecodeData(data, was).status == PktOk
    ensures var p := DecodeData(data, was).pkt;
            && p.ptype == was.ptype && p.tr == was.tr && p.window == was.window
            && |data| == p.length + DATA_SIZE && p.length <= MAX_PAYLOAD_SIZE
            && p.length == Host16(data[1..3]) && p.seqnum == data[3]
            && p.timestamp == FromRaw32(data[4..8]) && Crc(data[..8]) == Host32(data[8..12])
            && (p.length > 0 ==>
                  && p.payload == data[12..12 + p.length]
                  && Crc(p.payload) == Host32(data[12 + p.length..16 + p.length]))
  {
    hide Crc, Host16, Host32, FromRaw32, DecodePayload, DecodeData;
    AcceptedHeader(data, was);
    AcceptedPayload(data, was.(length := Host16(data[1..3]), seqnum := data[3],
                               timestamp := FromRaw32(data[4..8]), crc1 := Host32(data[8..12])));
  }

  lemma AcceptedAck(data: seq<byte>, was: Fields)
    requires |data| >= ACK_SIZE && DecodeAck(data, was).status == PktOk
    ensures var p := DecodeAck(data, was).pkt;
            && p == was.(seqnum := data[1], timestamp := FromRaw32(data[2..6]), crc1 := Host32(data[6..10]))
            && Crc(data[..6]) == Host32(data[6..10])
  {
    hide Crc, Host32, FromRaw32;
  }

  /** Decoding is by the type in the first byte. */
  lemma AcceptedByType(data: seq<byte>, was: Fields)
    requires |data| > 0 && Decode(data, was).status == PktOk
    ensures var t := TypeOf(data[0]);
            var p := was.(ptype := t, tr := TrOf(data[0]), window := WindowOf(data[0]));
            && t != 0
            && (t != PTYPE_DATA ==> |data| >= ACK_SIZE && p.tr == 0 && Decode(data, was) == DecodeAck(data, p))
            && (t == PTYPE_DATA ==> |data| >= HEADER_SIZE && Decode(data, was) == DecodeData(data, p))
  {
    hide DecodeData, DecodeAck, TypeOf, TrOf, WindowOf;
  }

  /** What an accepted datagram must look like, field by field. */
  lemma Accepted(data: seq<byte>, was: Fields)
    requires |data| > 0 && Decode(data, was).status == PktOk
    ensures var p := Decode(data, was).pkt;
            && p.ptype == TypeOf(data[0]) != 0 && p.tr == TrOf(data[0]) && p.window == WindowOf(data[0])
            && (p.ptype != PTYPE_DATA ==>
                  && p.tr == 0 && |data| >= ACK_SIZE && p.seqnum == data[1]
                  && p.timestamp == FromRaw32(data[2..6]) && Crc(data[..6]) == Host32(data[6..10]))
            && (p.ptype == PTYPE_DATA ==>
                  && |data| == p.length + DATA_SIZE && p.length <= MAX_PAYLOAD_SIZE
                  && p.length == Host16(data[1..3]) && p.seqnum == data[3]
                  && p.timestamp == FromRaw32(data[4..8]) && Crc(data[..8]) == Host32(data[8..12]))
            && (HasPayload(p) ==>
                  && p.payload == data[12..12 + p.length]
                  && Crc(p.payload) == Host32(data[12 + p.length..16 + p.length]))
  {
    hide Decode, DecodeData, DecodeAck, Crc, Host16, Host32, FromRaw32, TypeOf, TrOf, WindowOf;
    AcceptedByType(data, was);
    var p := was.(ptype := TypeOf(data[0]), tr := TrOf(data[0]), window := WindowOf(data[0]));
    if p.ptype == PTYPE_DATA {
      AcceptedData(data, p);
    } else {
      AcceptedAck(data, p);
    }
  }

  lemma HeaderCanonical(data: seq<byte>, was: Fields)
    requires |data| > 0 && Decode(data, was).status == PktOk
    ensures var p := Decode(data, was).pkt; data[..|Header(p)|] == Header(p)
  {
    Accepted(data, was);
    hide Decode, Crc, Net16, Host16, Raw32, FromRaw32, FirstByte, TypeOf, TrOf, WindowOf;
    var p := Decode(data, was).pkt;
    FirstByteCanonical(data[0]);
    if p.ptype == PTYPE_DATA {
      Net16Canonical(data[1..3]);
      Raw32Canonical(data[4..8]);
      assert data[..8] == [data[0]] + data[1..3] + [data[3]] + data[4..8];
    } else {
      Raw32Canonical(data[2..6]);
      assert data[..6] == [data[0], data[1]] + data[2..6];
    }
  }

  lemma PayloadCanonical(data: seq<byte>, p: Fields)
    requires HasPayload(p) && |data| == p.length + DATA_SIZE
    requires p.payload == data[12..12 + p.length]
    requires Crc(p.payload) == Host32(data[12 + p.length..16 + p.length])
    ensures data[12..] == p.payload[..p.length] + Net32(Crc(p.payload[..p.length]))
  {
    hide Crc, Net32, Host32;
    assert p.payload[..p.length] == p.payload;
    Net32Canonical(data[12 + p.length..16 + p.length]);
    assert data[12..] == data[12..12 + p.length] + data[12 + p.length..16 + p.length];
  }

  /** Whatever the decoder accepts is, byte for byte, the encoding of what it decoded,
      followed only by bytes it ignores. */
  lemma Canonical(data: seq<byte>, was: Fields)
    requires |data| > 0 && Decode(data, was).status == PktOk
    ensures var p := Decode(data, was).pkt;
            && Encodable(p)
            && Wire(p) <= data
            && IgnoredTail(p, data[|Wire(p)|..])
  {
    Accepted(data, was);
    HeaderCanonical(data, was);
    hide Decode, Crc, Header, Net32, Host32, Host16, FromRaw32, TypeOf, TrOf, WindowOf;
    var p := Decode(data, was).pkt;
    var n := |Header(p)|;
    Net32Canonical(data[n..n + 4]);
    assert data[..n + 4] == Header(p) + Net32(Crc(Header(p)));
    if HasPayload(p) {
      PayloadCanonical(data, p);
      assert data == data[..12] + data[12..];
    }
  }

  /** The accepted byte strings are exactly the encodings. */
  lemma AcceptedIffEncoded(data: seq<byte>, was: Fields)
    requires |data| > 0
    ensures Decode(data, was).status == PktOk <==>
            exists p, tail :: Encodable(p) && IgnoredTail(p, tail) && data == Wire(p) + tail
  {
    if Decode(data, was).status == PktOk {
      Canonical(data, was);
      var p := Decode(data, was).pkt;
      assert data == Wire(p) + data[|Wire(p)|..];
    }
    forall p, tail | Encodable(p) && IgnoredTail(p, tail) && data == Wire(p) + tail
      ensures Decode(data, was).status == PktOk
    {
      RoundTrip(p, tail, was);
    }
  }

  /** The encoding determines the content, and the content the encoding. */
  lemma SameWireIffSameContent(p: Fields, q: Fields)
    requires Encodable(p) && Encodable(q)
    ensures Wire(p) == Wire(q) <==> SameContent(p, q)
  {
    if Wire(p) == Wire(q) {
      WireInjective(p, q);
    }
    hide Crc, FirstByte, Net16, Net32, Raw32;
    if SameContent(p, q) {
      assert Header(p) == Header(q);
    }
  }

  lemma WireInjective(p: Fields, q: Fields)
    requires Encodable(p) && Encodable(q) && Wire(p) == Wire(q)
    ensures SameContent(p, q)
  {
    var zeros: seq<byte> := [0, 0, 0, 0];
    var tail := if p.ptype == PTYPE_DATA && p.length == 0 then zeros else [];
    HeaderReadBack(p, Wire(p));
    HeaderReadBack(q, Wire(q));
    RoundTrip(p, tail, p);
    RoundTrip(q, tail, p);
  }

  // ---------- The header CRC and TR ----------

  lemma TrChangesFirstByte(t: bv2, w: bv5)
    ensures FirstByte(t, 1, w) != FirstByte(t, 0, w)
  {
  }

  /** packet.h promises a header CRC taken with TR as 0. It is taken over the byte as it stands, so
      the promise is kept exactly by packets that are not truncated. */
  lemma HeaderCrcIgnoresTrIff(p: Fields)
    ensures Crc(Header(p)) == Crc(Header(p.(tr := 0))) <==> p.tr == 0
  {
    hide Crc, FirstByte, Net16, Raw32;
    if p.tr != 0 {
      assert p.tr == 1;
      var plain := Header(p.(tr := 0));
      TrChangesFirstByte(p.ptype, p.window);
      assert Header(p) == plain[0 := FirstByte(p.ptype, 1, p.window)];
      OneByteChangesCrc(plain, 0, FirstByte(p.ptype, 1, p.window));
    }
  }
}
