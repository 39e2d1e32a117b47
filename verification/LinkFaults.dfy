/** What the link simulator does to a packet's bytes (Linksimulator/link_sim.c, simulate_link),
    and that no such damage gets past pkt_decode. */
module LinkFaults {
  import opened Bytes
  import opened Crc32
  import opened Packet
  import opened PacketProofs

  const MIN_PKT_PDATA_LEN := 12

  type uint32 = x: int | 0 <= x < 0x1_0000_0000

  /** The command-line rates, delay and jitter. */
  datatype Config = Config(delay: uint32, jitter: uint32, errRate: uint32, cutRate: uint32, lossRate: uint32)

  /** The values rand() returns at each place that calls it. */
  datatype Rolls = Rolls(loss: nat, cut: nat, err: nat, index: nat, delay: nat)

  datatype Fate = Dropped | Passed(buf: seq<byte>)

  /** A fault of rate 0 is off; any other strikes when rand() % 101 is below its rate. */
  predicate Strikes(rate: uint32, roll: nat) {
    rate != 0 && roll % 101 < rate
  }

  /** Cut after the header and marked as truncated. */
  function Truncate(buf: seq<byte>): (r: seq<byte>)
    requires |buf| > MIN_PKT_PDATA_LEN
    ensures |r| == MIN_PKT_PDATA_LEN
  {
    buf[..MIN_PKT_PDATA_LEN][0 := buf[0] | 0x20]
  }

  function Invert(buf: seq<byte>, i: nat): (r: seq<byte>)
    requires i < |buf|
    ensures |r| == |buf|
  {
    buf[i := !buf[i]]
  }

  /** The losing, cutting and corrupting part of simulate_link. */
  function Damage(cfg: Config, rolls: Rolls, buf: seq<byte>): Fate
    requires |buf| > 0
  {
    if Strikes(cfg.lossRate, rolls.loss) then Dropped
    else if Strikes(cfg.cutRate, rolls.cut) && |buf| > MIN_PKT_PDATA_LEN then Passed(Truncate(buf))
    else if Strikes(cfg.errRate, rolls.err) then Passed(Invert(buf, rolls.index % |buf|))
    else Passed(buf)
  }

  // ---------- Soundness ----------

  /** `buf` is what sender or receiver put on the network for `p`, which is not truncated: a
      payload comes with its CRC, an empty DATA packet with four bytes nobody wrote. */
  ghost predicate OnWire(p: Fields, buf: seq<byte>) {
    && Encodable(p) && p.tr == 0
    && Wire(p) <= buf
    && |buf| == if p.ptype == PTYPE_DATA then DATA_SIZE + p.length else ACK_SIZE
  }

  lemma WireTail(p: Fields, buf: seq<byte>)
    requires OnWire(p, buf)
    ensures buf == Wire(p) + buf[|Wire(p)|..] && IgnoredTail(p, buf[|Wire(p)|..])
  {
    hide Crc, Header;
    assert buf[..|Wire(p)|] == Wire(p);
  }

  /** The length field of a cut packet no longer fits. */
  lemma TruncationRejected(p: Fields, buf: seq<byte>, was: Fields)
    requires OnWire(p, buf) && |buf| > MIN_PKT_PDATA_LEN
    ensures Decode(Truncate(buf), was).status == ErrLength
  {
    hide Crc, Header, Host16, Host32, FromRaw32, FirstByte;
    var cut := Truncate(buf);
    HeaderReadBack(p, buf);
    FirstByteCut(buf[0]);
    hide TypeOf, TrOf, WindowOf;
    assert cut[1..3] == buf[1..3];
  }

  lemma FirstByteCut(b: byte)
    ensures TypeOf(b | 0x20) == TypeOf(b)
  {
  }

  lemma FirstByteInverted(b: byte)
    ensures TrOf(b) == 0 ==> TrOf(!b) == 1
    ensures TypeOf(b) == PTYPE_DATA ==> TypeOf(!b) == PTYPE_ACK
    ensures TypeOf(b) == PTYPE_ACK ==> TypeOf(!b) == PTYPE_DATA
    ensures TypeOf(b) == PTYPE_NACK ==> TypeOf(!b) == 0
  {
  }

  /** Inverting the first byte turns DATA into a truncated ACK, NACK into no type at all, and an
      ACK into a DATA packet too short to have a header. */
  lemma FirstByteRejected(p: Fields, buf: seq<byte>, was: Fields)
    requires OnWire(p, buf)
    ensures Decode(Invert(buf, 0), was).status in {ErrUnconsistent, ErrNoHeader}
  {
    hide Crc, Header, Host16, Host32, FromRaw32, FirstByte;
    HeaderReadBack(p, buf);
    FirstByteInverted(buf[0]);
  }

  lemma Host32Changes(s: seq<byte>, i: nat, b: byte)
    requires |s| == 4 && i < 4 && b != s[i]
    ensures Host32(s[i := b]) != Host32(s)
  {
    hide Host32, Net32;
    assert s[i := b][i] == b;
    if Host32(s[i := b]) == Host32(s) {
      Net32Canonical(s);
      Net32Canonical(s[i := b]);
    }
  }

  /** A block of n bytes followed by its CRC: changing any one byte of either breaks the match. */
  ghost predicate Matches(w: seq<byte>, at: nat, n: nat)
    requires at + n + 4 <= |w|
  {
    Crc(w[at..at + n]) == Host32(w[at + n..at + n + 4])
  }

  lemma OneByteBreaksMatch(w: seq<byte>, at: nat, n: nat, i: nat, b: byte)
    requires at + n + 4 <= |w| && Matches(w, at, n)
    requires at <= i < at + n + 4 && b != w[i]
    ensures !Matches(w[i := b], at, n)
  {
    hide Crc, Host32;
    var c := w[i := b];
    var message, field := w[at..at + n], w[at + n..at + n + 4];
    if i < at + n {
      assert c[at..at + n] == message[i - at := b];
      assert c[at + n..at + n + 4] == field;
      OneByteChangesCrc(message, i - at, b);
    } else {
      assert c[at..at + n] == message;
      assert c[at + n..at + n + 4] == field[i - at - n := b];
      Host32Changes(field, i - at - n, b);
    }
  }

  lemma SentMatches(p: Fields, buf: seq<byte>)
    requires OnWire(p, buf)
    ensures TypeOf(buf[0]) == p.ptype
    ensures Matches(buf, 0, if p.ptype == PTYPE_DATA then 8 else 6)
    ensures HasPayload(p) ==> Matches(buf, 12, p.length)
    ensures p.ptype == PTYPE_DATA ==> Host16(buf[1..3]) == p.length
  {
    hide Crc, Header, Host16, Host32, FromRaw32, FirstByte, TypeOf, TrOf, WindowOf;
    HeaderReadBack(p, buf);
    if p.ptype == PTYPE_DATA {
      assert buf[0..8] == buf[..8];
    } else {
      assert buf[0..6] == buf[..6];
    }
    if HasPayload(p) {
      PayloadReadBack(p);
      assert buf == Wire(p);
    }
  }

  lemma AcceptedMatches(data: seq<byte>, was: Fields)
    requires |data| > 0 && Decode(data, was).status == PktOk
    ensures TypeOf(data[0]) != PTYPE_DATA ==> |data| >= ACK_SIZE && Matches(data, 0, 6)
    ensures TypeOf(data[0]) == PTYPE_DATA ==>
              && |data| >= HEADER_SIZE && Matches(data, 0, 8)
              && var n := Host16(data[1..3]);
                 n + DATA_SIZE == |data| && (n > 0 ==> Matches(data, 12, n))
  {
    hide Decode, Crc, Header, Host16, Host32, FromRaw32, TypeOf, TrOf, WindowOf;
    Accepted(data, was);
    if TypeOf(data[0]) == PTYPE_DATA {
      assert data[0..8] == data[..8];
    } else {
      assert data[0..6] == data[..6];
    }
  }

  /** The four bytes behind an empty DATA packet are the only ones not covered by a check. */
  ghost predicate Unchecked(p: Fields, i: nat) {
    p.ptype == PTYPE_DATA && p.length == 0 && i >= HEADER_SIZE
  }

  lemma InversionRejected(p: Fields, buf: seq<byte>, i: nat, was: Fields)
    requires OnWire(p, buf) && i < |buf| && !Unchecked(p, i)
    ensures Decode(Invert(buf, i), was).status != PktOk
  {
    if i == 0 {
      FirstByteRejected(p, buf, was);
    } else {
      var bad := Invert(buf, i);
      SentMatches(p, buf);
      Complement(buf[i]);
      var n := if p.ptype == PTYPE_DATA then 8 else 6;
      if i < n + 4 {
        OneByteBreaksMatch(buf, 0, n, i, !buf[i]);
      } else {
        OneByteBreaksMatch(buf, 12, p.length, i, !buf[i]);
        assert bad[1..3] == buf[1..3];
      }
      hide Decode, Matches, TypeOf, Host16;
      if Decode(bad, was).status == PktOk {
        AcceptedMatches(bad, was);
      }
    }
  }

  lemma Complement(b: byte)
    ensures !b != b
  {
  }

  /** Which damage is noticed: every cut, and every inverted byte some check covers. */
  lemma DamageRejectedIff(p: Fields, buf: seq<byte>, i: nat, was: Fields)
    requires OnWire(p, buf) && i < |buf|
    ensures |buf| > MIN_PKT_PDATA_LEN ==> Decode(Truncate(buf), was).status != PktOk
    ensures Decode(Invert(buf, i), was).status == PktOk <==> Unchecked(p, i)
  {
    hide Decode;
    if |buf| > MIN_PKT_PDATA_LEN {
      TruncationRejected(p, buf, was);
    }
    if Unchecked(p, i) {
      UncheckedInversionHarmless(p, buf, i, was);
    } else {
      InversionRejected(p, buf, i, was);
    }
  }

  lemma UncheckedInversionHarmless(p: Fields, buf: seq<byte>, i: nat, was: Fields)
    requires OnWire(p, buf) && i < |buf| && Unchecked(p, i)
    ensures DecodesTo(Invert(buf, i), was, p)
  {
    hide Decode, Crc, Header;
    var bad := Invert(buf, i);
    assert bad[..12] == buf[..12] == Wire(p);
    assert bad == Wire(p) + bad[12..];
    RoundTrip(p, bad[12..], was);
  }

  /** Whatever the link lets through, in whatever state the receiving structure is: if the
      decoder accepts it, it decodes to the packet that was sent. */
  lemma LinkSoundness(cfg: Config, rolls: Rolls, p: Fields, buf: seq<byte>, was: Fields)
    requires OnWire(p, buf) && Damage(cfg, rolls, buf).Passed?
    requires Decode(Damage(cfg, rolls, buf).buf, was).status == PktOk
    ensures SameContent(p, Decode(Damage(cfg, rolls, buf).buf, was).pkt)
  {
    hide Decode;
    var got := Damage(cfg, rolls, buf).buf;
    var i := rolls.index % |buf|;
    DamageRejectedIff(p, buf, i, was);
    if Unchecked(p, i) {
      UncheckedInversionHarmless(p, buf, i, was);
    }
    WireTail(p, buf);
    RoundTrip(p, buf[|Wire(p)|..], was);
  }
}
