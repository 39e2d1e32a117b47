/** The proxy of Linksimulator/link_sim.c as a state machine: one step is one turn of proxy_loop. */
module ProxySpec {
  import opened Bytes
  import opened Clock
  import opened HeapSpec
  import opened LinkFaults

  const MIN_PKT_LEN := 10
  const WORD := 0x1_0000_0000

  datatype Direction = Forward | Reverse

  /** Which traffic suffers: that of one direction, or both. */
  datatype Affected = OnlyForward | OnlyReverse | BothWays

  datatype Slot = Slot(ts: TimeVal, direction: Direction, buf: seq<byte>)

  datatype Datagram = Datagram(direction: Direction, buf: seq<byte>)

  /** The outcome of one sendto: done, to be tried again later, or a real error. */
  datatype Write = Written | Again | Failed

  /** The outcome of recvfrom; an alien sender has no direction. */
  datatype Receipt =
    | RecvAgain
    | RecvFailed
    | FromAlien(buf: seq<byte>)
    | FromParty(direction: Direction, buf: seq<byte>)

  /** What select, the clock, the socket, rand() and the allocator do during one turn. `writes`
      are the outcomes of delivering delayed packets, in order; those not listed succeed. */
  datatype Turn =
    | Interrupted
    | SelectFailed
    | ClockFailed
    | Awake(clock: TimeVal, writes: seq<Write>, receipt: Receipt, rolls: Rolls,
            slotMemory: bool, heapMemory: bool, forward: Write)

  /** `queued` and `delivered` record every slot ever put in the queue, and every slot taken
      from it and sent, in that order. */
  datatype Proxy = Proxy(
    running: bool,
    clock: TimeVal,
    queue: seq<Slot>,
    alloc: nat,
    wire: seq<Datagram>,
    queued: seq<Slot>,
    delivered: seq<Slot>)

  /** pkt_slot_cmp. */
  predicate SlotAfter(a: Slot, b: Slot) {
    After(a.ts, b.ts)
  }

  function Cmp(): (Slot, Slot) -> bool {
    (a: Slot, b: Slot) => SlotAfter(a, b)
  }

  lemma SlotOrder()
    ensures StrictWeakOrder(Cmp())
  {
  }

  function Outcome(writes: seq<Write>, k: nat): Write {
    if k < |writes| then writes[k] else Written
  }

  predicate Suffers(d: Direction, link: Affected) {
    link == BothWays || (link == OnlyForward && d == Forward) || (link == OnlyReverse && d == Reverse)
  }

  /** rand() % divisor must not divide by zero, once the unsigned sums have wrapped. */
  predicate DelayDefined(cfg: Config) {
    && (cfg.jitter > cfg.delay > 0 ==> (cfg.delay + cfg.jitter) % WORD != 0)
    && (cfg.delay >= cfg.jitter > 0 ==> 2 * cfg.jitter % WORD != 0)
  }

  /** The delay drawn for one packet, in the unsigned arithmetic of the source. */
  function RawDelay(cfg: Config, roll: nat): nat
    requires cfg.delay > 0 && DelayDefined(cfg)
  {
    if cfg.jitter == 0 then cfg.delay
    else if cfg.jitter > cfg.delay then roll % ((cfg.delay + cfg.jitter) % WORD)
    else ((cfg.delay + roll % (2 * cfg.jitter % WORD)) % WORD - cfg.jitter) % WORD
  }

  /** The delay applied, in milliseconds. */
  function AppliedDelay(cfg: Config, roll: nat): (d: nat)
    requires cfg.delay > 0 && DelayDefined(cfg)
    ensures d < 10000
  {
    RawDelay(cfg, roll) % 10000
  }

  // ---------- Delivery ----------

  datatype Delivery = Delivery(ok: bool, queue: seq<Slot>, sent: seq<Slot>)

  /** deliver_delayed_pkt, from its k-th sendto on. */
  function Deliver(queue: seq<Slot>, clock: TimeVal, writes: seq<Write>, k: nat): (d: Delivery)
    ensures |d.queue| <= |queue|
    decreases |queue|
  {
    if |queue| == 0 || !After(clock, queue[0].ts) then Delivery(true, queue, [])
    else match Outcome(writes, k)
      case Again => Delivery(true, queue, [])
      case Failed => Delivery(false, queue, [])
      case Written =>
        var d := Deliver(Pop(Cmp(), queue), clock, writes, k + 1);
        d.(sent := [queue[0]] + d.sent)
  }

  /** One turn of the delivery loop, or its end. */
  lemma DeliverStep(queue: seq<Slot>, clock: TimeVal, writes: seq<Write>, k: nat)
    ensures Deliver(queue, clock, writes, k) ==
            if queue == [] || !After(clock, queue[0].ts) || Outcome(writes, k) == Again then Delivery(true, queue, [])
            else if Outcome(writes, k) == Failed then Delivery(false, queue, [])
            else var d := Deliver(Pop(Cmp(), queue), clock, writes, k + 1);
                 Delivery(d.ok, d.queue, [queue[0]] + d.sent)
  {
  }

  function Datagrams(s: seq<Slot>): (r: seq<Datagram>)
    ensures |r| == |s|
    ensures forall i :: 0 <= i < |s| ==> r[i] == Datagram(s[i].direction, s[i].buf)
  {
    seq(|s|, i requires 0 <= i < |s| => Datagram(s[i].direction, s[i].buf))
  }

  lemma DatagramsEmpty()
    ensures Datagrams([]) == []
  {
  }

  lemma DatagramsAppend(s: seq<Slot>, x: Slot)
    ensures Datagrams(s + [x]) == Datagrams(s) + [Datagram(x.direction, x.buf)]
  {
  }

  // ---------- One packet, one turn ----------

  function Transmit(p: Proxy, d: Direction, buf: seq<byte>, w: Write): Proxy {
    if w == Written then p.(wire := p.wire + [Datagram(d, buf)]) else p.(running := false)
  }

  /** The queueing half of simulate_link. */
  function Enqueue(p: Proxy, slot: Slot, slotMemory: bool, heapMemory: bool): Proxy {
    if !slotMemory || (|p.queue| == p.alloc && !heapMemory) then p.(running := false)
    else p.(queue := Push(Cmp(), p.queue, slot),
            alloc := if |p.queue| == p.alloc then p.alloc + SLOTS_PER_MALLOC else p.alloc,
            queued := p.queued + [slot])
  }

  function Simulate(cfg: Config, p: Proxy, d: Direction, buf: seq<byte>, t: Turn): Proxy
    requires t.Awake? && |buf| > 0 && DelayDefined(cfg)
  {
    match Damage(cfg, t.rolls, buf)
    case Dropped => p
    case Passed(b) =>
      if cfg.delay != 0 then
        Enqueue(p, Slot(Stamp(p.clock, AppliedDelay(cfg, t.rolls.delay)), d, b), t.slotMemory, t.heapMemory)
      else Transmit(p, d, b, t.forward)
  }

  /** process_incoming_pkt. */
  function Process(cfg: Config, link: Affected, p: Proxy, t: Turn): Proxy
    requires t.Awake? && DelayDefined(cfg)
  {
    match t.receipt
    case RecvAgain => p
    case RecvFailed => p.(running := false)
    case FromAlien(_) => p
    case FromParty(d, buf) =>
      if |buf| < MIN_PKT_LEN then p
      else if !Suffers(d, link) then Transmit(p, d, buf, t.forward)
      else Simulate(cfg, p, d, buf, t)
  }

  /** One turn of proxy_loop. */
  function Step(cfg: Config, link: Affected, p: Proxy, t: Turn): Proxy
    requires DelayDefined(cfg)
  {
    if !p.running then p
    else match t
      case Interrupted => p
      case SelectFailed => p.(running := false)
      case ClockFailed => p.(running := false)
      case Awake(clock, writes, _, _, _, _, _) =>
        var d := Deliver(p.queue, clock, writes, 0);
        var q := p.(clock := clock, queue := d.queue, wire := p.wire + Datagrams(d.sent),
                    delivered := p.delivered + d.sent);
        if d.ok then Process(cfg, link, q, t) else q.(running := false)
  }

  /** proxy_loop before its first turn. */
  function Start(clock: TimeVal): Proxy {
    Proxy(true, clock, [], SLOTS_PER_MALLOC, [], [], [])
  }

  /** The proxy after any number of turns. */
  function RunProxy(cfg: Config, link: Affected, clock: TimeVal, turns: seq<Turn>): Proxy
    requires DelayDefined(cfg)
  {
    if |turns| == 0 then Start(clock)
    else Step(cfg, link, RunProxy(cfg, link, clock, turns[..|turns| - 1]), turns[|turns| - 1])
  }
}
