/** src/packet.c: the packet structure, its validating setters, and the wire codec. */
module Packet {
  import opened Bytes
  import opened Crc32

  type uint16 = x: int | 0 <= x < 0x1_0000

  const MAX_PAYLOAD_SIZE := 512
  const MAX_WINDOW_SIZE: byte := 31
  const ACK_SIZE := 10     // header and CRC1 of an ACK or NACK
  const HEADER_SIZE := 12  // header and CRC1 of a DATA packet
  const DATA_SIZE := 16    // HEADER_SIZE and CRC2

  const PTYPE_DATA: bv2 := 1
  const PTYPE_ACK: bv2 := 2
  const PTYPE_NACK: bv2 := 3

  datatype Status =
    | PktOk
    | ErrType
    | ErrTr
    | ErrLength
    | ErrCrc
    | ErrWindow
    | ErrNoMem
    | ErrNoHeader
    | ErrUnconsistent

  /** The contents of `struct pkt`; the bit-fields have their declared widths. */
  datatype Fields = Fields(
    ptype: bv2,
    tr: bv1,
    window: bv5,
    length: uint16,
    seqnum: byte,
    timestamp: bv32,
    crc1: bv32,
    payload: seq<byte>,
    crc2: bv32)

  // ---------- Byte order ----------

  /** htons: most significant byte first. */
  function Net16(n: uint16): (s: seq<byte>)
    ensures |s| == 2
  {
    [ToByte(n / 256), ToByte(n % 256)]
  }

  /** ntohs. */
  function Host16(s: seq<byte>): uint16
    requires |s| == 2
  {
    ToIntRange(s[0]);
    ToIntRange(s[1]);
    ToInt(s[0]) * 256 + ToInt(s[1])
  }

  /** htonl: most significant byte first. */
  function Net32(n: bv32): (s: seq<byte>)
    ensures |s| == 4
  {
    [(n >> 24) as byte, ((n >> 16) & 0xFF) as byte, ((n >> 8) & 0xFF) as byte, (n & 0xFF) as byte]
  }

  /** ntohl. */
  function Host32(s: seq<byte>): bv32
    requires |s| == 4
  {
    ((s[0] as bv32) << 24) | ((s[1] as bv32) << 16) | ((s[2] as bv32) << 8) | (s[3] as bv32)
  }

  /** The timestamp is copied without conversion: host order, least significant byte first. */
  function Raw32(n: bv32): (s: seq<byte>)
    ensures |s| == 4
  {
    [(n & 0xFF) as byte, ((n >> 8) & 0xFF) as byte, ((n >> 16) & 0xFF) as byte, (n >> 24) as byte]
  }

  function FromRaw32(s: seq<byte>): bv32
    requires |s| == 4
  {
    ((s[3] as bv32) << 24) | ((s[2] as bv32) << 16) | ((s[1] as bv32) << 8) | (s[0] as bv32)
  }

  function FirstByte(t: bv2, tr: bv1, w: bv5): byte {
    ((t as byte) << 6) | ((tr as byte) << 5) | (w as byte)
  }

  function TypeOf(b: byte): bv2 { ((b >> 6) & 3) as bv2 }

  function TrOf(b: byte): bv1 { ((b & 0x20) >> 5) as bv1 }

  function WindowOf(b: byte): bv5 { (b & 0x1F) as bv5 }

  // ---------- What encoding writes and decoding reads ----------

  /** The bytes CRC1 covers. */
  function Header(p: Fields): (s: seq<byte>)
    ensures |s| == if p.ptype == PTYPE_DATA then 8 else 6
  {
    if p.ptype == PTYPE_DATA then
      [FirstByte(p.ptype, p.tr, p.window)] + Net16(p.length) + [p.seqnum] + Raw32(p.timestamp)
    else
      [FirstByte(p.ptype, p.tr, p.window), p.seqnum] + Raw32(p.timestamp)
  }

  predicate HasPayload(p: Fields) {
    p.ptype == PTYPE_DATA && p.length > 0
  }

  predicate PayloadPresent(p: Fields) {
    HasPayload(p) ==> p.length <= |p.payload|
  }

  /** The bytes pkt_encode writes for a packet with a valid type. */
  function Wire(p: Fields): (s: seq<byte>)
    requires PayloadPresent(p)
    ensures |s| == WireSize(p)
  {
    Header(p) + Net32(Crc(Header(p))) +
    if HasPayload(p) then p.payload[..p.length] + Net32(Crc(p.payload[..p.length])) else []
  }

  function WireSize(p: Fields): nat {
    if p.ptype != PTYPE_DATA then ACK_SIZE
    else if p.length == 0 then HEADER_SIZE
    else DATA_SIZE + p.length
  }

  datatype Decoded = Decoded(status: Status, pkt: Fields)

  /** pkt_decode of a datagram into a packet that held `was`: fields that a failing test
      or a short packet kind does not reach keep their old values. */
  function Decode(data: seq<byte>, was: Fields): Decoded
    requires |data| > 0
  {
    var t, tr := TypeOf(data[0]), TrOf(data[0]);
    if t in {PTYPE_ACK, PTYPE_NACK} && |data| < ACK_SIZE then Decoded(ErrNoHeader, was)
    else if t == PTYPE_DATA && |data| < HEADER_SIZE then Decoded(ErrNoHeader, was)
    else if t != PTYPE_DATA && tr == 1 then Decoded(ErrUnconsistent, was)
    else if t == 0 then Decoded(ErrType, was)
    else
      var p := was.(ptype := t, tr := tr, window := WindowOf(data[0]));
      if t == PTYPE_DATA then DecodeData(data, p) else DecodeAck(data, p)
  }

  function DecodeData(data: seq<byte>, was: Fields): Decoded
    requires |data| >= HEADER_SIZE
  {
    var length := Host16(data[1..3]);
    if length + DATA_SIZE != |data| || length > MAX_PAYLOAD_SIZE then Decoded(ErrLength, was)
    else
      var p := was.(length := length, seqnum := data[3], timestamp := FromRaw32(data[4..8]));
      var crc1 := Host32(data[8..12]);
      if Crc(data[..8]) != crc1 then Decoded(ErrCrc, p) else DecodePayload(data, p.(crc1 := crc1))
  }

  function DecodePayload(data: seq<byte>, was: Fields): Decoded
    requires |data| == was.length + DATA_SIZE
  {
    var n := was.length;
    if n == 0 then Decoded(PktOk, was)
    else
      var crc2 := Host32(data[12 + n..16 + n]);
      if Crc(data[12..12 + n]) != crc2 then Decoded(ErrCrc, was)
      else Decoded(PktOk, was.(crc2 := crc2, payload := data[12..12 + n]))
  }

  function DecodeAck(data: seq<byte>, was: Fields): Decoded
    requires |data| >= ACK_SIZE
  {
    var p := was.(seqnum := data[1], timestamp := FromRaw32(data[2..6]));
    var crc1 := Host32(data[6..10]);
    if Crc(data[..6]) != crc1 then Decoded(ErrCrc, p)
    else Decoded(PktOk, p.(crc1 := crc1))
  }

  // ---------- The code itself ----------

  class Pkt {
    var ptype: bv2
    var tr: bv1
    var window: bv5
    var length: uint16
    var seqnum: byte
    var timestamp: bv32
    var crc1: bv32
    var payload: seq<byte>
    var crc2: bv32

    ghost function Value(): Fields
      reads this
    {
      Fields(ptype, tr, window, length, seqnum, timestamp, crc1, payload, crc2)
    }

    /** pkt_new: the fields hold whatever the allocator left there. */
    constructor (garbage: Fields)
      ensures Value() == garbage
    {
      ptype, tr, window := garbage.ptype, garbage.tr, garbage.window;
      length, seqnum, timestamp := garbage.length, garbage.seqnum, garbage.timestamp;
      crc1, payload, crc2 := garbage.crc1, garbage.payload, garbage.crc2;
    }

    method SetType(t: byte) returns (status: Status)
      modifies this`ptype
      ensures status == PktOk <==> 1 <= t <= 3
      ensures status == PktOk ==> t <= 3 && ptype == t as bv2
      ensures status != PktOk ==> status == ErrType && ptype == old(ptype)
    {
      if t != 1 && t != 2 && t != 3 {
        return ErrType;
      }
      ptype := t as bv2;
      return PktOk;
    }

    method SetTr(t: byte) returns (status: Status)
      modifies this`tr
      ensures status == PktOk <==> t <= 1
      ensures status == PktOk ==> t <= 1 && tr == t as bv1
      ensures status != PktOk ==> status == ErrTr && tr == old(tr)
    {
      if t != 1 && t != 0 {
        return ErrTr;
      }
      tr := t as bv1;
      return PktOk;
    }

    method SetWindow(w: byte) returns (status: Status)
      modifies this`window
      ensures status == PktOk <==> w <= MAX_WINDOW_SIZE
      ensures status == PktOk ==> w <= 31 && window == w as bv5
      ensures status != PktOk ==> status == ErrWindow && window == old(window)
    {
      if w > MAX_WINDOW_SIZE {
        return ErrWindow;
      }
      window := w as bv5;
      return PktOk;
    }

    method SetLength(n: uint16) returns (status: Status)
      modifies this`length
      ensures status == PktOk <==> n <= MAX_PAYLOAD_SIZE
      ensures length == if status == PktOk then n else old(length)
      ensures status != PktOk ==> status == ErrLength
    {
      if n > MAX_PAYLOAD_SIZE {
        return ErrLength;
      }
      length := n;
      return PktOk;
    }

    /** The payload is replaced even when its length is then refused. */
    method SetPayload(data: seq<byte>) returns (status: Status)
      requires |data| < 0x1_0000
      modifies this`payload, this`length
      ensures payload == data
      ensures status == PktOk <==> |data| <= MAX_PAYLOAD_SIZE
      ensures length == if status == PktOk then |data| else old(length)
      ensures status != PktOk ==> status == ErrLength
    {
      payload := data;
      status := SetLength(|data|);
    }

    method DecodeFrom(data: seq<byte>) returns (status: Status)
      requires |data| > 0
      modifies this
      ensures Decoded(status, Value()) == Decode(data, old(Value()))
    {
      hide DecodeData, DecodeAck, TypeOf, TrOf, WindowOf;
      var t, r := TypeOf(data[0]), TrOf(data[0]);
      if (t == PTYPE_ACK || t == PTYPE_NACK) && |data| < ACK_SIZE {
        return ErrNoHeader;
      }
      if t == PTYPE_DATA && |data| < HEADER_SIZE {
        return ErrNoHeader;
      }
      if t != PTYPE_DATA && r == 1 {
        return ErrUnconsistent;
      }
      var ok := SetFirst(t, r, WindowOf(data[0]));
      if !ok {
        return ErrType;
      }
      if t == PTYPE_DATA {
        status := DecodeDataPart(data);
      } else {
        status := DecodeAckPart(data);
      }
    }

    /** Set the three fields of the first byte; only the type can be refused. */
    method SetFirst(t: bv2, r: bv1, w: bv5) returns (ok: bool)
      modifies this`ptype, this`tr, this`window
      ensures ok <==> t != 0
      ensures Value() == if ok then old(Value()).(ptype := t, tr := r, window := w) else old(Value())
    {
      FieldWidths(t, r, w);
      var status := SetType(t as byte);
      if status != PktOk {
        return false;
      }
      var _ := SetTr(r as byte);
      var _ := SetWindow(w as byte);
      return true;
    }

    method DecodeDataPart(data: seq<byte>) returns (status: Status)
      requires |data| >= HEADER_SIZE
      modifies this
      ensures Decoded(status, Value()) == DecodeData(data, old(Value()))
    {
      hide Crc, Host16, Host32, FromRaw32;
      var n := Host16(data[1..3]);
      if n + DATA_SIZE != |data| {
        return ErrLength;
      }
      status := SetLength(n);
      if status == ErrLength {
        return ErrLength;
      }
      seqnum := data[3];
      timestamp := FromRaw32(data[4..8]);
      var c1 := Host32(data[8..12]);
      if Crc(data[..8]) != c1 {
        return ErrCrc;
      }
      crc1 := c1;
      if n > 0 {
        var c2 := Host32(data[12 + n..16 + n]);
        if Crc(data[12..12 + n]) != c2 {
          return ErrCrc;
        }
        crc2 := c2;
        var _ := SetPayload(data[12..12 + n]);
      }
      return PktOk;
    }

    method DecodeAckPart(data: seq<byte>) returns (status: Status)
      requires |data| >= ACK_SIZE
      modifies this
      ensures Decoded(status, Value()) == DecodeAck(data, old(Value()))
    {
      hide Crc, Host32, FromRaw32;
      seqnum := data[1];
      timestamp := FromRaw32(data[2..6]);
      var c1 := Host32(data[6..10]);
      if Crc(data[..6]) != c1 {
        return ErrCrc;
      }
      crc1 := c1;
      return PktOk;
    }

    /** pkt_encode into `buf`, of which `len` bytes are said to be available. For an empty
        DATA packet the available length is returned as it came. A packet of type 0 is
        refused only after its first byte has been written. */
    method Encode(buf: array<byte>, len: nat) returns (status: Status, written: nat)
      requires 0 < buf.Length
      requires ptype == 0 || len <= buf.Length
      requires PayloadPresent(Value())
      requires HasPayload(Value()) && DATA_SIZE <= len ==> DATA_SIZE + length <= buf.Length
      modifies buf
      ensures status == PktOk <==>
              ptype != 0 && len >= (if ptype == PTYPE_DATA then DATA_SIZE else ACK_SIZE)
      ensures status != PktOk ==> status == ErrNoMem && written == len && buf[1..] == old(buf[1..])
      ensures status != PktOk && ptype != 0 ==> buf[..] == old(buf[..])
      ensures status == PktOk ==> WireSize(Value()) <= buf.Length
      ensures status == PktOk ==> buf[..] == Wire(Value()) + old(buf[WireSize(Value())..])
      ensures status == PktOk ==>
              written == if ptype == PTYPE_DATA && length == 0 then len else WireSize(Value())
    {
      hide Wire, Paste, FirstByte;
      written := len;
      if (ptype == PTYPE_ACK || ptype == PTYPE_NACK) && len < ACK_SIZE {
        return ErrNoMem, written;
      }
      if ptype == PTYPE_DATA && len < DATA_SIZE {
        return ErrNoMem, written;
      }
      ghost var start := buf[..];
      Copy(buf, 0, [FirstByte(ptype, tr, window)]);
      if ptype == PTYPE_DATA {
        written := EncodeDataPart(buf, len, start);
        PasteFront(start, Wire(Value()));
      } else if ptype == PTYPE_ACK || ptype == PTYPE_NACK {
        written := EncodeAckPart(buf, start);
        PasteFront(start, Wire(Value()));
      } else {
        PasteFront(start, [FirstByte(ptype, tr, window)]);
        return ErrNoMem, written;
      }
      return PktOk, written;
    }

    /** The DATA branch, in a buffer that held `start` before its first byte was written. */
    method EncodeDataPart(buf: array<byte>, len: nat, ghost start: seq<byte>) returns (written: nat)
      requires ptype == PTYPE_DATA && PayloadPresent(Value())
      requires |start| == buf.Length && DATA_SIZE + length <= buf.Length
      requires buf[..] == Paste(start, 0, [FirstByte(ptype, tr, window)])
      modifies buf
      ensures WireSize(Value()) <= buf.Length && buf[..] == Paste(start, 0, Wire(Value()))
      ensures written == if length == 0 then len else WireSize(Value())
    {
      hide Crc, Header, Net32, Paste, FirstByte;
      EncodeHeader(buf, start);
      ghost var head := Header(Value());
      PasteRead(start, [], head);
      Copy(buf, 8, Net32(Crc(buf[..8])));
      PasteMore(start, head, Net32(Crc(head)));
      written := len;
      if length > 0 {
        written := EncodePayload(buf, start, head + Net32(Crc(head)));
      } else {
        assert Wire(Value()) == head + Net32(Crc(head));
      }
    }

    method EncodeHeader(buf: array<byte>, ghost start: seq<byte>)
      requires ptype == PTYPE_DATA && |start| == buf.Length && HEADER_SIZE <= buf.Length
      requires buf[..] == Paste(start, 0, [FirstByte(ptype, tr, window)])
      modifies buf
      ensures buf[..] == Paste(start, 0, Header(Value()))
    {
      hide FirstByte, Net16, Raw32, Paste;
      ghost var first := [FirstByte(ptype, tr, window)];
      Copy(buf, 1, Net16(length));
      PasteMore(start, first, Net16(length));
      Copy(buf, 3, [seqnum]);
      PasteMore(start, first + Net16(length), [seqnum]);
      Copy(buf, 4, Raw32(timestamp));
      PasteMore(start, first + Net16(length) + [seqnum], Raw32(timestamp));
    }

    method EncodePayload(buf: array<byte>, ghost start: seq<byte>, ghost head: seq<byte>) returns (written: nat)
      requires HasPayload(Value()) && length <= |payload|
      requires |start| == buf.Length && DATA_SIZE + length <= buf.Length
      requires |head| == HEADER_SIZE && head == Header(Value()) + Net32(Crc(Header(Value())))
      requires buf[..] == Paste(start, 0, head)
      modifies buf
      ensures buf[..] == Paste(start, 0, Wire(Value()))
      ensures written == WireSize(Value())
    {
      hide Crc, Header, Net32, Paste;
      ghost var body := payload[..length];
      Copy(buf, 12, payload[..length]);
      PasteMore(start, head, body);
      PasteRead(start, head, body);
      Copy(buf, 12 + length, Net32(Crc(buf[12..12 + length])));
      PasteMore(start, head + body, Net32(Crc(body)));
      assert Wire(Value()) == head + body + Net32(Crc(body));
      written := DATA_SIZE + length;
    }

    /** The ACK and NACK branch. */
    method EncodeAckPart(buf: array<byte>, ghost start: seq<byte>) returns (written: nat)
      requires ptype != PTYPE_DATA && |start| == buf.Length && ACK_SIZE <= buf.Length
      requires buf[..] == Paste(start, 0, [FirstByte(ptype, tr, window)])
      modifies buf
      ensures buf[..] == Paste(start, 0, Wire(Value()))
      ensures written == ACK_SIZE
    {
      hide Crc, FirstByte, Net32, Raw32, Paste;
      ghost var first, head := [FirstByte(ptype, tr, window)], Header(Value());
      Copy(buf, 1, [seqnum]);
      PasteMore(start, first, [seqnum]);
      Copy(buf, 2, Raw32(timestamp));
      PasteMore(start, first + [seqnum], Raw32(timestamp));
      assert first + [seqnum] + Raw32(timestamp) == head;
      PasteRead(start, [], head);
      Copy(buf, 6, Net32(Crc(buf[..6])));
      PasteMore(start, head, Net32(Crc(head)));
      assert Wire(Value()) == head + Net32(Crc(head));
      written := ACK_SIZE;
    }
  }

  /** b with s written over it from index `at` on. */
  function Paste(b: seq<byte>, at: nat, s: seq<byte>): (r: seq<byte>)
    requires at + |s| <= |b|
    ensures |r| == |b|
  {
    b[..at] + s + b[at + |s|..]
  }

  /** What is written next extends what was written from the start. */
  lemma PasteMore(b: seq<byte>, s: seq<byte>, t: seq<byte>)
    requires |s| + |t| <= |b|
    ensures Paste(Paste(b, 0, s), |s|, t) == Paste(b, 0, s + t)
  {
  }

  lemma PasteRead(b: seq<byte>, s: seq<byte>, t: seq<byte>)
    requires |s| + |t| <= |b|
    ensures Paste(b, 0, s + t)[|s|..|s| + |t|] == t
    ensures s == [] ==> s + t == t && Paste(b, 0, t)[..|t|] == t
  {
  }

  lemma PasteFront(b: seq<byte>, s: seq<byte>)
    requires |s| <= |b|
    ensures Paste(b, 0, s) == s + b[|s|..]
    ensures |s| == 1 ==> Paste(b, 0, s)[1..] == b[1..]
  {
  }

  /** memcpy(buf + at, s, |s|). */
  method Copy(buf: array<byte>, at: nat, s: seq<byte>)
    requires at + |s| <= buf.Length
    modifies buf
    ensures buf[..] == Paste(old(buf[..]), at, s)
  {
    for i := 0 to |s|
      invariant buf[..at] == old(buf[..at])
      invariant buf[at..at + i] == s[..i]
      invariant buf[at + i..] == old(buf[at + i..])
    {
      buf[at + i] := s[i];
    }
  }

  /** A bit-field value survives the trip through the uint8_t its setter takes. */
  lemma FieldWidths(t: bv2, r: bv1, w: bv5)
    ensures t as byte <= 3 && (t as byte) as bv2 == t && (t != 0 <==> 1 <= t as byte)
    ensures r as byte <= 1 && (r as byte) as bv1 == r
    ensures w as byte <= MAX_WINDOW_SIZE && (w as byte) as bv5 == w
  {
  }
}
