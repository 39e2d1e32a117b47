/** What the link simulator promises over whole runs of its loop. */
module ProxyProofs {
  import opened Bytes
  import opened Clock
  import opened HeapSpec
  import opened LinkFaults
  import opened Packet
  import opened PacketProofs
  import opened ProxySpec

  // ---------- One call of deliver_delayed_pkt ----------

  predicate Eligible(clock: TimeVal, s: Slot) {
    After(clock, s.ts)
  }

  /** Sent and still queued together are the old queue; what was sent had expired, left in
      stamp order, and is not later than anything kept. */
  ghost predicate GoodDelivery(queue: seq<Slot>, clock: TimeVal, d: Delivery) {
    && Heap(Cmp(), d.queue)
    && multiset(queue) == multiset(d.sent) + multiset(d.queue)
    && (forall s :: s in d.sent ==> Eligible(clock, s))
    && Sorted(Cmp(), d.sent)
    && (forall s, r :: s in d.sent && r in d.queue ==> !SlotAfter(s, r))
  }

  lemma {:induction false} DeliverGood(queue: seq<Slot>, clock: TimeVal, writes: seq<Write>, k: nat)
    requires Heap(Cmp(), queue)
    ensures GoodDelivery(queue, clock, Deliver(queue, clock, writes, k))
    decreases |queue|
  {
    DeliverStep(queue, clock, writes, k);
    if queue != [] && Eligible(clock, queue[0]) && Outcome(writes, k) == Written {
      SlotOrder();
      PopHeap(Cmp(), queue);
      PopContents(Cmp(), queue);
      RootMinimum(Cmp(), queue);
      DeliverGood(Pop(Cmp(), queue), clock, writes, k + 1);
      var d := Deliver(Pop(Cmp(), queue), clock, writes, k + 1);
      hide Deliver, Pop, Heap, StrictWeakOrder;
      DeliverOneMore(queue, clock, Pop(Cmp(), queue), d);
    }
  }

  lemma DeliverOneMore(queue: seq<Slot>, clock: TimeVal, rest: seq<Slot>, d: Delivery)
    requires queue != [] && Eligible(clock, queue[0]) && Minimum(Cmp(), queue[0], queue)
    requires multiset(rest) == multiset(queue) - multiset{queue[0]}
    requires GoodDelivery(rest, clock, d)
    ensures GoodDelivery(queue, clock, d.(sent := [queue[0]] + d.sent))
  {
    hide Heap;
    var m, e := queue[0], d.(sent := [queue[0]] + d.sent);
    assert m in multiset(queue);
    assert multiset(e.sent) == multiset{m} + multiset(d.sent);
    assert multiset(d.sent) <= multiset(queue) by {
      assert multiset(rest) <= multiset(queue);
    }
    ConsSorted(Cmp(), m, d.sent, queue);
    forall r | r in d.queue
      ensures !SlotAfter(m, r)
    {
      assert r in multiset(d.queue);
      assert r in multiset(rest);
      assert r in multiset(queue);
      assert !Cmp()(m, r);
    }
  }

  /** If every send succeeds, exactly the expired packets leave. */
  lemma {:induction false} DeliverAll(queue: seq<Slot>, clock: TimeVal, writes: seq<Write>, k: nat)
    requires Heap(Cmp(), queue)
    requires forall i :: k <= i < |writes| ==> writes[i] == Written
    ensures var d := Deliver(queue, clock, writes, k);
            d.ok && forall r :: r in d.queue ==> !Eligible(clock, r)
    decreases |queue|
  {
    SlotOrder();
    DeliverStep(queue, clock, writes, k);
    if queue != [] {
      RootMinimum(Cmp(), queue);
      if Eligible(clock, queue[0]) {
        PopHeap(Cmp(), queue);
        DeliverAll(Pop(Cmp(), queue), clock, writes, k + 1);
      } else {
        assert forall r :: r in queue ==> !SlotAfter(queue[0], r);
      }
    }
  }

  lemma Members(s: seq<Slot>, t: seq<Slot>)
    requires multiset(s) <= multiset(t)
    ensures forall x :: x in s ==> x in t
  {
    forall x | x in s
      ensures x in t
    {
      assert x in multiset(s);
    }
  }

  // ---------- What one receipt does ----------

  /** process_incoming_pkt has a datagram to deal with. */
  predicate Accepts(t: Turn) {
    t.Awake? && t.receipt.FromParty? && |t.receipt.buf| >= MIN_PKT_LEN
  }

  /** What is to leave the proxy for the datagram of turn t: nothing if it is lost, else one
      datagram, as received or damaged. */
  function Emission(cfg: Config, link: Affected, t: Turn): (s: seq<Datagram>)
    ensures |s| <= 1
  {
    if !Accepts(t) then []
    else if !Suffers(t.receipt.direction, link) then [Datagram(t.receipt.direction, t.receipt.buf)]
    else match Damage(cfg, t.rolls, t.receipt.buf)
      case Dropped => []
      case Passed(b) => [Datagram(t.receipt.direction, b)]
  }

  function ToDatagram(s: Slot): Datagram {
    Datagram(s.direction, s.buf)
  }

  /** Nothing was sent or queued; if the loop goes on, nothing was to be. */
  ghost predicate Idle(p: Proxy, q: Proxy, e: seq<Datagram>) {
    q == p.(running := q.running) && (q.running ==> e == [])
  }

  ghost predicate Relayed(p: Proxy, q: Proxy, e: seq<Datagram>) {
    q == p.(wire := p.wire + e) && |e| == 1
  }

  ghost predicate Queued(p: Proxy, q: Proxy, e: seq<Datagram>, slot: Slot) {
    q == Enqueue(p, slot, true, true) && e == [ToDatagram(slot)]
  }

  /** A receipt ends the loop, or does nothing, or sends its datagram on, or queues it with the
      stamp of the clock and the applied delay. */
  lemma ProcessCases(cfg: Config, link: Affected, p: Proxy, t: Turn)
    requires p.running && t.Awake? && DelayDefined(cfg)
    ensures var q, e := Process(cfg, link, p, t), Emission(cfg, link, t);
            || Idle(p, q, e)
            || (Relayed(p, q, e) && (cfg.delay == 0 || !Suffers(e[0].direction, link)))
            || exists slot :: Queued(p, q, e, slot) && Suffers(slot.direction, link) && cfg.delay > 0
                              && slot.ts == Stamp(p.clock, AppliedDelay(cfg, t.rolls.delay))
  {
    hide AppliedDelay, Damage, DelayDefined, Stamp, Push;
    if Accepts(t) && Suffers(t.receipt.direction, link) {
      match Damage(cfg, t.rolls, t.receipt.buf)
      case Dropped =>
      case Passed(b) =>
        if cfg.delay != 0 {
          var slot := Slot(Stamp(p.clock, AppliedDelay(cfg, t.rolls.delay)), t.receipt.direction, b);
          EnqueueCases(p, slot, t.slotMemory, t.heapMemory);
          hide Enqueue;
          assert Process(cfg, link, p, t).running ==>
              Queued(p, Process(cfg, link, p, t), Emission(cfg, link, t), slot);
        }
    }
  }

  lemma EnqueueCases(p: Proxy, slot: Slot, slotMemory: bool, heapMemory: bool)
    requires p.running
    ensures var q := Enqueue(p, slot, slotMemory, heapMemory);
            if q.running then q == Enqueue(p, slot, true, true) else q == p.(running := false)
  {
    hide Push;
  }

  // ---------- Conservation over whole runs ----------

  ghost predicate Inv(p: Proxy) {
    && Heap(Cmp(), p.queue)
    && |p.queue| <= p.alloc
    && multiset(p.queued) == multiset(p.queue) + multiset(p.delivered)
  }

  lemma EnqueueInv(p: Proxy, slot: Slot)
    requires Inv(p)
    ensures Inv(Enqueue(p, slot, true, true))
  {
    SlotOrder();
    PushHeap(Cmp(), p.queue, slot);
    PushContents(Cmp(), p.queue, slot);
    hide Push, Heap;
  }

  lemma ProcessInv(cfg: Config, link: Affected, p: Proxy, t: Turn)
    requires Inv(p) && p.running && t.Awake? && DelayDefined(cfg)
    ensures Inv(Process(cfg, link, p, t))
  {
    ProcessCases(cfg, link, p, t);
    hide Process, Enqueue, AppliedDelay, Heap, Emission;
    var q, e := Process(cfg, link, p, t), Emission(cfg, link, t);
    if !Idle(p, q, e) && !Relayed(p, q, e) {
      var slot :| Queued(p, q, e, slot);
      EnqueueInv(p, slot);
    }
  }

  /** The state of a turn between its deliveries and its receipt. */
  function Delivered(p: Proxy, clock: TimeVal, d: Delivery): Proxy {
    p.(clock := clock, queue := d.queue, wire := p.wire + Datagrams(d.sent), delivered := p.delivered + d.sent)
  }

  lemma DeliveredInv(p: Proxy, clock: TimeVal, writes: seq<Write>)
    requires Inv(p)
    ensures Inv(Delivered(p, clock, Deliver(p.queue, clock, writes, 0)))
  {
    var d := Deliver(p.queue, clock, writes, 0);
    DeliverGood(p.queue, clock, writes, 0);
    hide Deliver, Heap, Datagrams;
    assert multiset(p.delivered + d.sent) == multiset(p.delivered) + multiset(d.sent);
  }

  /** A turn delivers and then, unless a send failed for good, deals with the receipt. */
  lemma StepShape(cfg: Config, link: Affected, p: Proxy, t: Turn)
    requires p.running && t.Awake? && DelayDefined(cfg)
    ensures var d := Deliver(p.queue, t.clock, t.writes, 0);
            var q := Delivered(p, t.clock, d);
            Step(cfg, link, p, t) == if d.ok then Process(cfg, link, q, t) else q.(running := false)
  {
    hide Deliver, Process, Datagrams, DelayDefined;
  }

  lemma StepInv(cfg: Config, link: Affected, p: Proxy, t: Turn)
    requires Inv(p) && DelayDefined(cfg)
    ensures Inv(Step(cfg, link, p, t))
  {
    if p.running && t.Awake? {
      StepShape(cfg, link, p, t);
      hide Step, Deliver, Process, Heap, DelayDefined, Datagrams;
      var d := Deliver(p.queue, t.clock, t.writes, 0);
      DeliveredInv(p, t.clock, t.writes);
      if d.ok {
        ProcessInv(cfg, link, Delivered(p, t.clock, d), t);
      }
    }
  }

  /** In every state the proxy can reach the queue is a heap within its allocation, and the
      packets ever queued are exactly those delivered plus those still queued. */
  lemma {:induction false} Conservation(cfg: Config, link: Affected, clock: TimeVal, turns: seq<Turn>)
    requires DelayDefined(cfg)
    ensures Inv(RunProxy(cfg, link, clock, turns))
  {
    if |turns| > 0 {
      Conservation(cfg, link, clock, turns[..|turns| - 1]);
      StepInv(cfg, link, RunProxy(cfg, link, clock, turns[..|turns| - 1]), turns[|turns| - 1]);
      hide Step, Inv;
    }
  }

  lemma RunOneMore(cfg: Config, link: Affected, clock: TimeVal, turns: seq<Turn>)
    requires DelayDefined(cfg) && |turns| > 0
    ensures RunProxy(cfg, link, clock, turns) ==
            Step(cfg, link, RunProxy(cfg, link, clock, turns[..|turns| - 1]), turns[|turns| - 1])
  {
    hide Step;
  }

  // ---------- Every datagram is accounted for ----------

  function Emissions(cfg: Config, link: Affected, turns: seq<Turn>): seq<Datagram> {
    if |turns| == 0 then []
    else Emissions(cfg, link, turns[..|turns| - 1]) + Emission(cfg, link, turns[|turns| - 1])
  }

  /** What has left the proxy and what is still in it. */
  ghost function Held(p: Proxy): multiset<Datagram> {
    multiset(p.wire) + multiset(Datagrams(p.queue))
  }

  lemma DatagramsConcat(s: seq<Slot>, t: seq<Slot>)
    ensures Datagrams(s + t) == Datagrams(s) + Datagrams(t)
  {
  }

  lemma TakeOut(t: seq<Slot>, j: nat, u: seq<Slot>)
    requires j < |t| && u == t[..j] + t[j + 1..]
    ensures multiset(u) == multiset(t) - multiset{t[j]}
    ensures multiset(Datagrams(t)) == multiset(Datagrams(u)) + multiset{ToDatagram(t[j])}
  {
    var a, b := t[..j], t[j + 1..];
    assert t == a + [t[j]] + b;
    DatagramsAppend(a, t[j]);
    DatagramsConcat(a + [t[j]], b);
    DatagramsConcat(a, b);
    hide Datagrams;
  }

  /** The same slots in another order are the same datagrams in another order. */
  lemma {:induction false} DatagramsOfPermutation(s: seq<Slot>, t: seq<Slot>)
    requires multiset(s) == multiset(t)
    ensures multiset(Datagrams(s)) == multiset(Datagrams(t))
    decreases |s|
  {
    hide Datagrams;
    if |s| == 0 {
      assert |multiset(t)| == 0;
      assert t == [] == s;
    } else {
      assert s[0] in multiset(t);
      var j :| 0 <= j < |t| && t[j] == s[0];
      var u := t[..j] + t[j + 1..];
      TakeOut(s, 0, s[1..]);
      TakeOut(t, j, u);
      DatagramsOfPermutation(s[1..], u);
    }
  }

  lemma DeliveredHeld(p: Proxy, clock: TimeVal, writes: seq<Write>)
    requires Inv(p)
    ensures Held(Delivered(p, clock, Deliver(p.queue, clock, writes, 0))) == Held(p)
  {
    var d := Deliver(p.queue, clock, writes, 0);
    DeliverGood(p.queue, clock, writes, 0);
    hide Deliver, Heap, Datagrams;
    DatagramsOfPermutation(p.queue, d.sent + d.queue);
    DatagramsConcat(d.sent, d.queue);
  }

  lemma ProcessHeld(cfg: Config, link: Affected, p: Proxy, t: Turn)
    requires p.running && t.Awake? && DelayDefined(cfg)
    ensures var q, e := Process(cfg, link, p, t), Emission(cfg, link, t);
            Held(q) == Held(p) + if q.running then multiset(e) else multiset{}
  {
    ProcessCases(cfg, link, p, t);
    hide Process, Push, AppliedDelay, Emission, Datagrams;
    var q, e := Process(cfg, link, p, t), Emission(cfg, link, t);
    if !Idle(p, q, e) && !Relayed(p, q, e) {
      var slot :| Queued(p, q, e, slot);
      PushContents(Cmp(), p.queue, slot);
      DatagramsOfPermutation(Push(Cmp(), p.queue, slot), p.queue + [slot]);
      DatagramsAppend(p.queue, slot);
    }
  }

  lemma StepHeld(cfg: Config, link: Affected, p: Proxy, t: Turn)
    requires Inv(p) && p.running && DelayDefined(cfg)
    ensures var q := Step(cfg, link, p, t);
            Held(q) == Held(p) + if q.running then multiset(Emission(cfg, link, t)) else multiset{}
  {
    hide Deliver, Process, Inv, DelayDefined, Suffers, Damage, Datagrams;
    if t.Awake? {
      StepShape(cfg, link, p, t);
      hide Step, Emission;
      var d := Deliver(p.queue, t.clock, t.writes, 0);
      DeliveredHeld(p, t.clock, t.writes);
      if d.ok {
        ProcessHeld(cfg, link, Delivered(p, t.clock, d), t);
      }
    }
  }

  /** Over any run: what has left the proxy and what is queued are, each exactly once, what was to
      leave it for the datagrams received, of which each accounts for at most one. Only the failure
      that stops the proxy loses one. */
  lemma {:induction false} Accounting(cfg: Config, link: Affected, clock: TimeVal, turns: seq<Turn>)
    requires DelayDefined(cfg)
    ensures var p := RunProxy(cfg, link, clock, turns);
            && Held(p) <= multiset(Emissions(cfg, link, turns))
            && (p.running ==> Held(p) == multiset(Emissions(cfg, link, turns)))
  {
    DatagramsEmpty();
    if |turns| > 0 {
      var before, t := turns[..|turns| - 1], turns[|turns| - 1];
      var p := RunProxy(cfg, link, clock, before);
      Accounting(cfg, link, clock, before);
      Conservation(cfg, link, clock, before);
      if p.running {
        StepHeld(cfg, link, p, t);
      }
      hide Inv, Held, Emission;
      StoppedStays(cfg, link, p, t);
      hide Step;
    }
  }

  lemma StoppedStays(cfg: Config, link: Affected, p: Proxy, t: Turn)
    requires DelayDefined(cfg)
    ensures !p.running ==> Step(cfg, link, p, t) == p
  {
  }

  // ---------- Nothing is invented ----------

  /** Datagram g is what turn t received, relayed as it came or damaged by the link. */
  ghost predicate Origin(cfg: Config, g: Datagram, t: Turn) {
    && t.Awake? && t.receipt.FromParty?
    && |t.receipt.buf| >= MIN_PKT_LEN
    && g.direction == t.receipt.direction
    && (g.buf == t.receipt.buf || Damage(cfg, t.rolls, t.receipt.buf) == Passed(g.buf))
  }

  lemma {:induction false} EmissionsOrigin(cfg: Config, link: Affected, turns: seq<Turn>, g: Datagram)
    returns (i: nat)
    requires g in Emissions(cfg, link, turns)
    ensures i < |turns| && Origin(cfg, g, turns[i])
  {
    var n := |turns| - 1;
    if g in Emission(cfg, link, turns[n]) {
      i := n;
      hide Damage;
    } else {
      hide Emission, Origin;
      i := EmissionsOrigin(cfg, link, turns[..n], g);
    }
  }

  /** Everything sent and everything queued was received in some turn, then relayed or damaged. */
  lemma RunExplained(cfg: Config, link: Affected, clock: TimeVal, turns: seq<Turn>, g: Datagram)
    returns (i: nat)
    requires DelayDefined(cfg)
    requires var p := RunProxy(cfg, link, clock, turns); g in p.wire || g in Datagrams(p.queue)
    ensures i < |turns| && Origin(cfg, g, turns[i])
  {
    var p := RunProxy(cfg, link, clock, turns);
    Accounting(cfg, link, clock, turns);
    assert g in Held(p);
    assert g in multiset(Emissions(cfg, link, turns));
    hide RunProxy, Emissions, Origin;
    i := EmissionsOrigin(cfg, link, turns, g);
  }

  /** Every datagram a party sends through the proxy is the encoding of an untruncated packet. */
  ghost predicate HonestParties(turns: seq<Turn>) {
    forall i :: 0 <= i < |turns| && turns[i].Awake? && turns[i].receipt.FromParty?
                && |turns[i].receipt.buf| >= MIN_PKT_LEN
                ==> exists p :: OnWire(p, turns[i].receipt.buf)
  }

  /** If the far end's pkt_decode accepts g, it gets what a party sent in that direction. */
  ghost predicate Authentic(turns: seq<Turn>, g: Datagram, was: Fields) {
    |g.buf| > 0 && (Decode(g.buf, was).status == PktOk ==>
      exists i, p :: 0 <= i < |turns| && SentBy(turns[i], g.direction, p) && SameContent(p, Decode(g.buf, was).pkt))
  }

  ghost predicate SentBy(t: Turn, d: Direction, p: Fields) {
    t.Awake? && t.receipt.FromParty? && t.receipt.direction == d && OnWire(p, t.receipt.buf)
  }

  lemma OriginAuthentic(cfg: Config, turns: seq<Turn>, g: Datagram, i: nat, was: Fields)
    requires HonestParties(turns) && i < |turns| && Origin(cfg, g, turns[i])
    ensures Authentic(turns, g, was)
  {
    hide Decode, Damage, Crc32.Crc, Header;
    var buf := turns[i].receipt.buf;
    var p :| OnWire(p, buf);
    NonEmpty(cfg, g, turns[i]);
    assert SentBy(turns[i], g.direction, p);
    if Decode(g.buf, was).status == PktOk {
      if g.buf == buf {
        WireTail(p, buf);
        RoundTrip(p, buf[|Wire(p)|..], was);
      } else {
        LinkSoundness(cfg, turns[i].rolls, p, buf, was);
      }
    }
  }

  lemma NonEmpty(cfg: Config, g: Datagram, t: Turn)
    requires Origin(cfg, g, t)
    ensures |g.buf| > 0
  {
  }

  /** Over any run, with any faults, delays and reordering: a datagram the proxy sends on that
      the far end's pkt_decode accepts carries the content of a packet the near end sent. */
  lemma ProxySoundness(cfg: Config, link: Affected, clock: TimeVal, turns: seq<Turn>, g: Datagram, was: Fields)
    requires DelayDefined(cfg) && HonestParties(turns)
    requires g in RunProxy(cfg, link, clock, turns).wire
    ensures Authentic(turns, g, was)
  {
    hide RunProxy, Origin, HonestParties, Authentic;
    var i := RunExplained(cfg, link, clock, turns, g);
    OriginAuthentic(cfg, turns, g, i, was);
  }
}
