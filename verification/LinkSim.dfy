/** Linksimulator/link_sim.c itself: the queue of delayed packets, the damage, and proxy_loop. */
module LinkSim {
  import opened Bytes
  import opened Clock
  import HeapSpec
  import opened LinkFaults
  import opened MinQueue
  import opened Options
  import opened ProxySpec

  /** A delivery that has sent `sent` and is at its k-th sendto with `queue` left. */
  ghost predicate Underway(total: Delivery, sent: seq<Slot>, queue: seq<Slot>, clock: TimeVal, writes: seq<Write>,
                           k: nat)
  {
    var d := Deliver(queue, clock, writes, k);
    total == Delivery(d.ok, d.queue, sent + d.sent)
  }

  lemma UnderwayStarts(queue: seq<Slot>, clock: TimeVal, writes: seq<Write>)
    ensures Underway(Deliver(queue, clock, writes, 0), [], queue, clock, writes, 0)
  {
    hide Deliver;
  }

  /** The root goes out, or the delivery ends here. */
  lemma UnderwayStep(total: Delivery, sent: seq<Slot>, queue: seq<Slot>, clock: TimeVal, writes: seq<Write>, k: nat)
    requires Underway(total, sent, queue, clock, writes, k)
    ensures if queue != [] && After(clock, queue[0].ts) && Outcome(writes, k) == Written
            then Underway(total, sent + [queue[0]], HeapSpec.Pop(Cmp(), queue), clock, writes, k + 1)
            else var stopped := queue == [] || !After(clock, queue[0].ts) || Outcome(writes, k) == Again;
                 total == Delivery(stopped, queue, sent)
  {
    hide Deliver, HeapSpec.Pop;
    DeliverStep(queue, clock, writes, k);
    var d := Deliver(HeapSpec.Pop(Cmp(), queue), clock, writes, k + 1);
    assert queue != [] ==> sent + ([queue[0]] + d.sent) == sent + [queue[0]] + d.sent;
  }

  class LinkSim {
    const cfg: Config
    const link: Affected
    const queue: MinQueue<Slot>
    var running: bool
    var lastClock: TimeVal
    var wire: seq<Datagram>
    ghost var queued: seq<Slot>
    ghost var delivered: seq<Slot>

    ghost predicate Valid()
      reads this, queue
    {
      queue.Valid() && queue.cmp == Cmp() && DelayDefined(cfg)
    }

    ghost function State(): Proxy
      requires Valid()
      reads this, queue, queue.e
    {
      Proxy(running, lastClock, queue.Elems(), queue.alloc, wire, queued, delivered)
    }

    constructor (cfg: Config, link: Affected, clock: TimeVal)
      requires DelayDefined(cfg)
      ensures Valid() && fresh(queue) && fresh(queue.e)
      ensures this.cfg == cfg && this.link == link
      ensures State() == Start(clock)
    {
      this.cfg, this.link := cfg, link;
      queue := new MinQueue<Slot>(Cmp());
      running, lastClock, wire := true, clock, [];
      queued, delivered := [], [];
    }

    method WriteOut(d: Direction, buf: seq<byte>, outcome: Write) returns (failed: bool)
      modifies this`wire
      ensures failed <==> outcome != Written
      ensures wire == if failed then old(wire) else old(wire) + [Datagram(d, buf)]
    {
      if outcome == Written {
        wire := wire + [Datagram(d, buf)];
      }
      failed := outcome != Written;
    }

    /** The body of the delivery loop: send the root and, if that worked, take it off. */
    method SendRoot(slot: Slot, outcome: Write) returns (failed: bool)
      requires Valid() && queue.Elems() != [] && queue.Elems()[0] == slot
      modifies this`wire, this`delivered, queue`size, queue.e
      ensures Valid()
      ensures failed <==> outcome != Written
      ensures failed ==> State() == old(State())
      ensures !failed ==>
                && queue.Elems() == HeapSpec.Pop(Cmp(), old(queue.Elems()))
                && wire == old(wire) + [Datagram(slot.direction, slot.buf)]
                && delivered == old(delivered) + [slot]
    {
      hide HeapSpec.Pop;
      failed := WriteOut(slot.direction, slot.buf, outcome);
      if !failed {
        var _ := queue.Pop();
        delivered := delivered + [slot];
      }
    }

    /** deliver_delayed_pkt. */
    method DeliverDelayed(writes: seq<Write>) returns (ok: bool)
      requires Valid()
      modifies this`wire, this`delivered, queue`size, queue.e
      ensures Valid()
      ensures var d := Deliver(old(queue.Elems()), lastClock, writes, 0);
              && ok == d.ok && queue.Elems() == d.queue
              && wire == old(wire) + Datagrams(d.sent) && delivered == old(delivered) + d.sent
    {
      hide Deliver, Datagrams, HeapSpec.Pop, Cmp, Underway;
      ghost var total := Deliver(queue.Elems(), lastClock, writes, 0);
      ghost var sent: seq<Slot> := [];
      DatagramsEmpty();
      UnderwayStarts(queue.Elems(), lastClock, writes);
      var k := 0;
      var p := queue.Peek();
      while p.Some? && After(lastClock, p.value.ts)
        invariant Valid()
        invariant p == if queue.Elems() == [] then None else Some(queue.Elems()[0])
        invariant Underway(total, sent, queue.Elems(), lastClock, writes, k)
        invariant wire == old(wire) + Datagrams(sent) && delivered == old(delivered) + sent
        decreases |queue.Elems()|
      {
        UnderwayStep(total, sent, queue.Elems(), lastClock, writes, k);
        DatagramsAppend(sent, p.value);
        var outcome := Outcome(writes, k);
        var failed := SendRoot(p.value, outcome);
        if failed {
          return outcome == Again;
        }
        sent := sent + [p.value];
        k := k + 1;
        p := queue.Peek();
      }
      UnderwayStep(total, sent, queue.Elems(), lastClock, writes, k);
      return true;
    }

    /** The first half of simulate_link: drop, cut or corrupt. */
    method DamageBuffer(packet: seq<byte>, rolls: Rolls) returns (fate: Fate)
      requires |packet| > 0
      ensures fate == Damage(cfg, rolls, packet)
    {
      var buf := packet;
      if Strikes(cfg.lossRate, rolls.loss) {
        return Dropped;
      }
      if Strikes(cfg.cutRate, rolls.cut) && |buf| > MIN_PKT_PDATA_LEN {
        buf := buf[..MIN_PKT_PDATA_LEN];
        buf := buf[0 := buf[0] | 0x20];
      } else if Strikes(cfg.errRate, rolls.err) {
        var idx := rolls.index % |buf|;
        buf := buf[idx := !buf[idx]];
      }
      return Passed(buf);
    }

    /** The second half: queue the packet with its expiry date. */
    method DelayPacket(slot: Slot, t: Turn) returns (failed: bool)
      requires Valid() && running && t.Awake?
      modifies this`queued, queue, queue.e
      ensures Valid() && (queue.e == old(queue.e) || fresh(queue.e))
      ensures State().(running := !failed) == Enqueue(old(State()), slot, t.slotMemory, t.heapMemory)
    {
      hide HeapSpec.Push;
      if !t.slotMemory {
        return true;
      }
      var rc, _ := queue.Push(slot, t.heapMemory);
      if rc != 0 {
        return true;
      }
      queued := queued + [slot];
      return false;
    }

    /** The delay drawn for one packet: unsigned sums wrap, and the result is reduced modulo 10 s. */
    method DrawDelay(roll: nat) returns (applied: nat)
      requires Valid() && cfg.delay > 0
      ensures applied == AppliedDelay(cfg, roll)
    {
      if cfg.jitter != 0 {
        if cfg.jitter > cfg.delay {
          var sum := (cfg.delay + cfg.jitter) % WORD;
          applied := roll % sum;
        } else {
          var width := 2 * cfg.jitter % WORD;
          var sum := (cfg.delay + roll % width) % WORD;
          applied := (sum - cfg.jitter) % WORD;
        }
      } else {
        applied := cfg.delay;
      }
      applied := applied % 10000;
    }

    /** simulate_link; a turn that fails here ends the loop. */
    method SimulateLink(d: Direction, packet: seq<byte>, t: Turn) returns (failed: bool)
      requires Valid() && running && t.Awake? && |packet| > 0
      modifies this`wire, this`queued, queue, queue.e
      ensures Valid() && (queue.e == old(queue.e) || fresh(queue.e))
      ensures State().(running := !failed) == Simulate(cfg, old(State()), d, packet, t)
    {
      hide Enqueue, AppliedDelay, Damage;
      var fate := DamageBuffer(packet, t.rolls);
      if fate == Dropped {
        return false;
      }
      if cfg.delay != 0 {
        var applied := DrawDelay(t.rolls.delay);
        failed := DelayPacket(Slot(Stamp(lastClock, applied), d, fate.buf), t);
      } else {
        failed := WriteOut(d, fate.buf, t.forward);
      }
    }

    /** process_incoming_pkt. */
    method ProcessIncoming(t: Turn) returns (failed: bool)
      requires Valid() && running && t.Awake?
      modifies this`wire, this`queued, queue, queue.e
      ensures Valid() && (queue.e == old(queue.e) || fresh(queue.e))
      ensures State().(running := !failed) == Process(cfg, link, old(State()), t)
    {
      hide Simulate;
      match t.receipt {
        case RecvAgain => failed := false;
        case RecvFailed => failed := true;
        case FromAlien(_) => failed := false;
        case FromParty(d, buf) =>
          if |buf| < MIN_PKT_LEN {
            failed := false;
          } else if !Suffers(d, link) {
            failed := WriteOut(d, buf, t.forward);
          } else {
            failed := SimulateLink(d, buf, t);
          }
      }
    }

    /** get_queue_timeout. */
    method GetQueueTimeout() returns (timeout: Option<TimeVal>)
      requires Valid()
      ensures timeout == if queue.Elems() == [] then None else Some(Timeout(queue.Elems()[0].ts, lastClock))
    {
      var empty := queue.Empty();
      if empty {
        return None;
      }
      var root := queue.Peek();
      var t := TimevalDiff(root.value.ts, lastClock);
      if t.sec < 0 || (t.sec == 0 && t.usec <= 0) {
        t := TimeVal(0, 1000);
      }
      return Some(t);
    }

    /** One turn of proxy_loop. */
    method LoopOnce(t: Turn)
      requires Valid()
      modifies this`running, this`lastClock, this`wire, this`queued, this`delivered, queue, queue.e
      ensures Valid() && (queue.e == old(queue.e) || fresh(queue.e))
      ensures State() == ProxySpec.Step(cfg, link, old(State()), t)
    {
      hide Deliver, Process;
      if !running {
        return;
      }
      match t {
        case Interrupted =>
        case SelectFailed => running := false;
        case ClockFailed => running := false;
        case Awake(clock, writes, _, _, _, _, _) =>
          lastClock := clock;
          var ok := DeliverDelayed(writes);
          if !ok {
            running := false;
            return;
          }
          var failed := ProcessIncoming(t);
          running := !failed;
      }
    }
  }
}
