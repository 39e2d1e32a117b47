/** Sender and receiver joined by two lossless FIFO channels that carry encoded packets. */
module Protocol {
  import opened Bytes
  import opened Numbers
  import opened Options
  import opened Packet
  import opened ReceiverSpec
  import opened SenderSpec

  datatype System = System(s: Sender, r: Receiver, data: seq<seq<byte>>, acks: seq<seq<byte>>)

  /** The steps of the two programs, in any interleaving. The poll of the sender may time out
      even when a reply is under way. */
  datatype Action = SenderTop(tail: seq<byte>) | SenderPoll | SenderTimeout | ReceiverTurn

  ghost predicate Enabled(st: System, a: Action) {
    match a
    case SenderTop(tail) => st.s.phase == Top && SenderOk(st.s) && |tail| == DATA_SIZE - HEADER_SIZE
    case SenderPoll => st.s.phase == Poll && st.acks != [] && st.acks[0] != []
    case SenderTimeout => st.s.phase == Poll
    case ReceiverTurn => st.r.running && st.data != [] && Receivable(st.r, st.data[0])
  }

  function Queue(q: seq<seq<byte>>, m: Option<seq<byte>>): seq<seq<byte>> {
    if m.Some? then q + [m.value] else q
  }

  ghost function Next(st: System, a: Action): System
    requires Enabled(st, a)
  {
    match a
    case SenderTop(tail) =>
      var t := AtTop(st.s, tail);
      st.(s := t.sender, data := Queue(st.data, t.message))
    case SenderPoll => st.(s := AfterPoll(st.s, Arrived(st.acks[0])), acks := st.acks[1..])
    case SenderTimeout => st.(s := AfterPoll(st.s, TimedOut))
    case ReceiverTurn =>
      var t := Receive(st.r, st.data[0]);
      st.(r := t.receiver, data := st.data[1..], acks := Queue(st.acks, t.reply))
  }

  /** Both programs just started; each has an uninitialised rcv_packet. */
  function Initial(input: seq<byte>, g: Fields, h: Fields): System {
    System(StartSender(input, g), Start(h), [], [])
  }

  /** The system after a sequence of actions; one that is not enabled does nothing. */
  ghost function Exec(st: System, acts: seq<Action>): System
    decreases |acts|
  {
    if |acts| == 0 then st
    else Exec(if Enabled(st, acts[0]) then Next(st, acts[0]) else st, acts[1..])
  }

  /** The poll, which waits 500 ms, times out although a packet or a reply is under way. */
  predicate Early(st: System, a: Action) {
    a.SenderTimeout? && (st.data != [] || st.acks != [])
  }

  ghost predicate Prompt(st: System, a: Action) {
    Enabled(st, a) && !Early(st, a)
  }

  /** Every action is enabled when it is taken. */
  ghost predicate IsRun(st: System, acts: seq<Action>)
    decreases |acts|
  {
    |acts| > 0 ==> Enabled(st, acts[0]) && IsRun(Next(st, acts[0]), acts[1..])
  }

  /** How often the poll times out early in a run. */
  ghost function EarlyTimeouts(st: System, acts: seq<Action>): nat
    requires IsRun(st, acts)
    decreases |acts|
  {
    if |acts| == 0 then 0
    else (if Early(st, acts[0]) then 1 else 0) + EarlyTimeouts(Next(st, acts[0]), acts[1..])
  }

  // ---------- The chunks of a file ----------

  function Chunks(input: seq<byte>): nat {
    (|input| + CHUNK - 1) / CHUNK
  }

  function Chunk(input: seq<byte>, k: nat): (c: seq<byte>)
    requires k < Chunks(input)
    ensures 0 < |c| <= CHUNK
  {
    input[CHUNK * k..Least(CHUNK * (k + 1), |input|)]
  }

  function Concat(parts: seq<seq<byte>>): seq<byte> {
    if |parts| == 0 then [] else Concat(parts[..|parts| - 1]) + parts[|parts| - 1]
  }

  // ---------- The invariant ----------

  /** Datagram k of the sender: chunk k, or, after the last, the end of file. */
  ghost predicate Message(input: seq<byte>, k: nat, m: seq<byte>) {
    && k <= Chunks(input)
    && (k < Chunks(input) ==> m == Wire(DataPacket(ToByte(k % SLOTS), Chunk(input, k))))
    && (k == Chunks(input) ==>
          exists ts, tail :: |tail| == DATA_SIZE - HEADER_SIZE && m == Wire(EofPacket(ToByte(k % SLOTS), ts)) + tail)
  }

  /** Data packets sent. */
  function DataSent(s: Sender): int {
    s.sent - if s.theLast then 1 else 0
  }

  ghost predicate SenderInv(input: seq<byte>, s: Sender) {
    && s.input == input
    && 0 <= DataSent(s) <= Chunks(input)
    && (s.theLast ==> DataSent(s) == Chunks(input))
    && s.pos == Least(CHUNK * DataSent(s), |input|)
    && s.seqnum == DataSent(s) % SLOTS
    && s.received <= s.sent
    && s.space == DataSent(s) - s.received
    && (s.firstAck <==> s.received == 0)
    && s.max == (if s.firstAck then 1 else WINDOW)
    && s.sent - s.received <= s.max
    && (s.phase == Done ==> s.theLast && s.sent == s.received)
  }

  ghost predicate ReceiverInv(input: seq<byte>, r: Receiver) {
    && |r.filled| == SLOTS
    && r.received <= Chunks(input) + 1
    && (forall i :: 0 <= i < SLOTS ==> !r.filled[i])
    && (r.running <==> r.received <= Chunks(input))
    && (r.running ==> r.window == r.received % SLOTS)
    && |r.writes| == Least(r.received, Chunks(input))
    && (forall k :: 0 <= k < |r.writes| ==> r.writes[k] == Chunk(input, k))
  }

  ghost predicate Inv(input: seq<byte>, st: System) {
    && SenderInv(input, st.s)
    && ReceiverInv(input, st.r)
    && st.s.received <= st.r.received <= st.s.sent
    && |st.data| == st.s.sent - st.r.received
    && |st.acks| == st.r.received - st.s.received
    && (forall i :: 0 <= i < |st.data| ==> Message(input, st.r.received + i, st.data[i]))
    && (forall i :: 0 <= i < |st.acks| ==> st.acks[i] == Ack(ToByte((st.s.received + i + 1) % SLOTS)))
  }
}
