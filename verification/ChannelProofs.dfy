/** The order in which the link simulator passes packets on, over whole runs of its loop. */
module ChannelProofs {
  import opened Clock
  import opened HeapSpec
  import opened HeapTies
  import opened LinkFaults
  import opened ProxyProofs
  import opened ProxySpec

  // ---------- Delivery order ----------

  /** Packets are queued in the order of their stamps, by a clock read not later than the last. */
  ghost predicate StampedInOrder(p: Proxy, delay: nat) {
    && Sorted(Cmp(), p.queued)
    && forall s :: s in p.queued ==> !After(s.ts, Stamp(p.clock, delay))
  }

  /** Packets of a kind leave in the order in which they were queued. */
  ghost predicate InOrder<K(!new)>(kind: Slot -> K, p: Proxy) {
    Fifo(Cmp(), kind, p.queued, p.delivered, p.queue)
  }

  /** From the second one on, packets of a kind that were queued with the same stamp are the same.
      Two that differ may tie only if one of them is the first ever queued. */
  ghost predicate TiesHarmless<K>(kind: Slot -> K, p: Proxy) {
    OnlyFirstTies(Cmp(), kind, p.queued)
  }

  lemma {:induction false} DeliverInOrder<K(!new)>(kind: Slot -> K, queued: seq<Slot>, delivered: seq<Slot>,
                                                   queue: seq<Slot>, clock: TimeVal, writes: seq<Write>, k: nat)
    requires Fifo(Cmp(), kind, queued, delivered, queue)
    requires Sorted(Cmp(), queued) && OnlyFirstTies(Cmp(), kind, queued)
    ensures var d := Deliver(queue, clock, writes, k);
            Fifo(Cmp(), kind, queued, delivered + d.sent, d.queue)
    decreases |queue|
  {
    DeliverStep(queue, clock, writes, k);
    SlotOrder();
    hide Deliver, Pop, Fifo, Sorted, OnlyFirstTies, StrictWeakOrder;
    if queue != [] && Eligible(clock, queue[0]) && Outcome(writes, k) == Written {
      PopFifo(Cmp(), kind, queued, delivered, queue);
      DeliverInOrder(kind, queued, delivered + [queue[0]], Pop(Cmp(), queue), clock, writes, k + 1);
      var sent := Deliver(Pop(Cmp(), queue), clock, writes, k + 1).sent;
      assert delivered + ([queue[0]] + sent) == delivered + [queue[0]] + sent;
    } else {
      assert delivered + [] == delivered;
    }
  }

  lemma DeliveredInOrder<K(!new)>(kind: Slot -> K, p: Proxy, clock: TimeVal, writes: seq<Write>)
    requires InOrder(kind, p) && Sorted(Cmp(), p.queued) && TiesHarmless(kind, p)
    ensures InOrder(kind, Delivered(p, clock, Deliver(p.queue, clock, writes, 0)))
  {
    DeliverInOrder(kind, p.queued, p.delivered, p.queue, clock, writes, 0);
    hide Deliver, Fifo, Datagrams, Sorted;
  }

  /** The clock never falls back. */
  ghost predicate ClockMonotone(cfg: Config, link: Affected, clock: TimeVal, turns: seq<Turn>)
    requires DelayDefined(cfg)
  {
    forall i :: 0 <= i < |turns| && turns[i].Awake? ==>
      !After(RunProxy(cfg, link, clock, turns[..i]).clock, turns[i].clock)
  }

  lemma MonotoneBefore(cfg: Config, link: Affected, clock: TimeVal, turns: seq<Turn>)
    requires DelayDefined(cfg) && ClockMonotone(cfg, link, clock, turns) && |turns| > 0
    ensures ClockMonotone(cfg, link, clock, turns[..|turns| - 1])
  {
    var n := |turns| - 1;
    assert forall i :: 0 <= i < n ==> turns[..n][..i] == turns[..i];
    hide RunProxy;
  }

  lemma MonotoneOnceMore(cfg: Config, link: Affected, clock: TimeVal, turns: seq<Turn>, t: Turn)
    requires DelayDefined(cfg) && ClockMonotone(cfg, link, clock, turns)
    requires t.Awake? ==> !After(RunProxy(cfg, link, clock, turns).clock, t.clock)
    ensures ClockMonotone(cfg, link, clock, turns + [t])
  {
    hide RunProxy;
    var more := turns + [t];
    forall i | 0 <= i < |more| && more[i].Awake?
      ensures !After(RunProxy(cfg, link, clock, more[..i]).clock, more[i].clock)
    {
      if i < |turns| {
        assert more[..i] == turns[..i];
      } else {
        assert more[..i] == turns;
      }
    }
  }

  lemma ProcessStamped(cfg: Config, link: Affected, p: Proxy, t: Turn)
    requires DelayDefined(cfg) && cfg.jitter == 0 && t.Awake? && p.running
    requires StampedInOrder(p, cfg.delay % 10000)
    ensures StampedInOrder(Process(cfg, link, p, t), cfg.delay % 10000)
  {
    ProcessCases(cfg, link, p, t);
    hide Process, Push, Stamp, DelayDefined, Emission;
    var q, e := Process(cfg, link, p, t), Emission(cfg, link, t);
    if !Idle(p, q, e) && !Relayed(p, q, e) {
      var slot :| Queued(p, q, e, slot) && slot.ts == Stamp(p.clock, AppliedDelay(cfg, t.rolls.delay));
    }
  }

  /** Stamped by the last clock read, and so by the next. */
  lemma StampedLater(p: Proxy, q: Proxy, delay: nat)
    requires StampedInOrder(p, delay) && q.queued == p.queued && !After(p.clock, q.clock)
    ensures StampedInOrder(q, delay)
  {
    ShiftKeepsOrder(p.clock, q.clock, delay);
  }

  lemma NotAfterItself(c: TimeVal)
    ensures !After(c, c)
  {
  }

  lemma StepStamped(cfg: Config, link: Affected, p: Proxy, t: Turn)
    requires DelayDefined(cfg) && cfg.jitter == 0
    requires StampedInOrder(p, cfg.delay % 10000)
    requires t.Awake? ==> !After(p.clock, t.clock)
    ensures StampedInOrder(Step(cfg, link, p, t), cfg.delay % 10000)
  {
    hide Deliver, Process, StampedInOrder, DelayDefined, Datagrams, After;
    NotAfterItself(p.clock);
    StampedLater(p, p.(running := false), cfg.delay % 10000);
    if p.running && t.Awake? {
      StepShape(cfg, link, p, t);
      hide Step;
      var q := Delivered(p, t.clock, Deliver(p.queue, t.clock, t.writes, 0));
      NotAfterItself(q.clock);
      StampedLater(p, q, cfg.delay % 10000);
      StampedLater(q, q.(running := false), cfg.delay % 10000);
      ProcessStamped(cfg, link, q, t);
    }
  }

  /** With a constant delay and a clock that does not fall back, packets are queued in the order of
      their stamps. */
  lemma {:induction false} StampsInOrder(cfg: Config, link: Affected, clock: TimeVal, turns: seq<Turn>)
    requires DelayDefined(cfg) && cfg.jitter == 0 && ClockMonotone(cfg, link, clock, turns)
    ensures StampedInOrder(RunProxy(cfg, link, clock, turns), cfg.delay % 10000)
  {
    if |turns| > 0 {
      var n := |turns| - 1;
      MonotoneBefore(cfg, link, clock, turns);
      StampsInOrder(cfg, link, clock, turns[..n]);
      StepStamped(cfg, link, RunProxy(cfg, link, clock, turns[..n]), turns[n]);
      hide Step, StampedInOrder;
    }
  }

  lemma ProcessInOrder<K(!new)>(kind: Slot -> K, cfg: Config, link: Affected, p: Proxy, t: Turn)
    requires DelayDefined(cfg) && t.Awake? && p.running
    requires InOrder(kind, p) && Sorted(Cmp(), Process(cfg, link, p, t).queued)
    ensures InOrder(kind, Process(cfg, link, p, t))
  {
    ProcessCases(cfg, link, p, t);
    hide Process, Push, Fifo, Sorted, Stamp, DelayDefined, Emission;
    var q, e := Process(cfg, link, p, t), Emission(cfg, link, t);
    if !Idle(p, q, e) && !Relayed(p, q, e) {
      var slot :| Queued(p, q, e, slot);
      SlotOrder();
      hide StrictWeakOrder;
      PushFifo(Cmp(), kind, p.queued, p.delivered, p.queue, slot);
    }
  }

  lemma StepInOrder<K(!new)>(kind: Slot -> K, cfg: Config, link: Affected, p: Proxy, t: Turn)
    requires DelayDefined(cfg)
    requires InOrder(kind, p) && TiesHarmless(kind, p)
    requires Sorted(Cmp(), p.queued) && Sorted(Cmp(), Step(cfg, link, p, t).queued)
    ensures InOrder(kind, Step(cfg, link, p, t))
  {
    hide Deliver, Process, Fifo, Sorted, TiesHarmless, DelayDefined, Datagrams;
    if p.running && t.Awake? {
      StepShape(cfg, link, p, t);
      hide Step;
      DeliveredInOrder(kind, p, t.clock, t.writes);
      var d := Deliver(p.queue, t.clock, t.writes, 0);
      if d.ok {
        ProcessInOrder(kind, cfg, link, Delivered(p, t.clock, d), t);
      }
    }
  }

  /** The record of what was queued only grows. */
  lemma QueuedGrows<K(!new)>(kind: Slot -> K, cfg: Config, link: Affected, p: Proxy, t: Turn)
    requires DelayDefined(cfg)
    ensures p.queued <= Step(cfg, link, p, t).queued
    ensures TiesHarmless(kind, Step(cfg, link, p, t)) ==> TiesHarmless(kind, p)
  {
    hide Deliver, Process, DelayDefined, Datagrams, TiesHarmless;
    if p.running && t.Awake? {
      StepShape(cfg, link, p, t);
      hide Step;
      var q := Delivered(p, t.clock, Deliver(p.queue, t.clock, t.writes, 0));
      ProcessCases(cfg, link, q, t);
      hide Push, Emission, Stamp;
    }
    HarmlessBefore(kind, p, Step(cfg, link, p, t));
  }

  lemma HarmlessBefore<K(!new)>(kind: Slot -> K, p: Proxy, q: Proxy)
    requires p.queued <= q.queued
    ensures TiesHarmless(kind, q) ==> TiesHarmless(kind, p)
  {
    PushedBefore(Cmp(), kind, p.queued, q.queued);
    hide OnlyFirstTies;
  }

  /** With a constant delay and a clock that does not fall back, packets of each kind leave the queue
      in arrival order, unless different ones of a kind tie behind the first. */
  lemma {:induction false} DeliveryOrder<K(!new)>(kind: Slot -> K, cfg: Config, link: Affected, clock: TimeVal,
                                                  turns: seq<Turn>)
    requires DelayDefined(cfg) && cfg.jitter == 0
    requires ClockMonotone(cfg, link, clock, turns) && TiesHarmless(kind, RunProxy(cfg, link, clock, turns))
    ensures var p := RunProxy(cfg, link, clock, turns);
            InTurn(kind, p.queued, p.delivered) && InOrder(kind, p)
  {
    StampsInOrder(cfg, link, clock, turns);
    if |turns| > 0 {
      var n := |turns| - 1;
      MonotoneBefore(cfg, link, clock, turns);
      StampsInOrder(cfg, link, clock, turns[..n]);
      QueuedGrows(kind, cfg, link, RunProxy(cfg, link, clock, turns[..n]), turns[n]);
      DeliveryOrder(kind, cfg, link, clock, turns[..n]);
      StepInOrder(kind, cfg, link, RunProxy(cfg, link, clock, turns[..n]), turns[n]);
      hide Step, TiesHarmless, Heap, Sorted, OfKind;
    }
  }

  /** In particular it is harmless to queue with a later stamp than all before. */
  lemma LaterHarmless<K(!new)>(kind: Slot -> K, p: Proxy, q: Proxy, slot: Slot)
    requires TiesHarmless(kind, p) && q.queued == p.queued + [slot]
    requires forall s :: s in p.queued ==> After(slot.ts, s.ts)
    ensures TiesHarmless(kind, q)
  {
    forall i | 0 <= i < |p.queued|
      ensures !Tied(Cmp(), q.queued[i], slot)
    {
      assert q.queued[i] in p.queued;
    }
  }

  /** So nothing that a clock which advances stamps can do harm. */
  lemma AdvancingHarmless<K(!new)>(kind: Slot -> K, cfg: Config, link: Affected, p: Proxy, t: Turn)
    requires DelayDefined(cfg) && cfg.jitter == 0
    requires StampedInOrder(p, cfg.delay % 10000) && TiesHarmless(kind, p)
    requires t.Awake? ==> After(t.clock, p.clock)
    ensures TiesHarmless(kind, Step(cfg, link, p, t))
  {
    hide Deliver, Process, TiesHarmless, DelayDefined, Datagrams, Sorted, Stamp;
    var next := Step(cfg, link, p, t);
    SameHarmless(kind, p, next);
    if p.running && t.Awake? {
      StepShape(cfg, link, p, t);
      hide Step;
      var q := Delivered(p, t.clock, Deliver(p.queue, t.clock, t.writes, 0));
      ProcessCases(cfg, link, q, t);
      hide Push, Emission;
      ShiftKeepsOrder(t.clock, p.clock, cfg.delay % 10000);
      var e := Emission(cfg, link, t);
      if next.queued != p.queued {
        var slot :| Queued(q, Process(cfg, link, q, t), e, slot)
                    && slot.ts == Stamp(q.clock, AppliedDelay(cfg, t.rolls.delay));
        forall s | s in p.queued
          ensures After(slot.ts, s.ts)
        {
          AfterBoth(slot.ts, Stamp(p.clock, cfg.delay % 10000), s.ts);
        }
        LaterHarmless(kind, p, next, slot);
      }
    }
  }

  lemma SameHarmless<K(!new)>(kind: Slot -> K, p: Proxy, q: Proxy)
    requires TiesHarmless(kind, p)
    ensures q.queued == p.queued ==> TiesHarmless(kind, q)
  {
  }

  lemma AfterBoth(a: TimeVal, b: TimeVal, c: TimeVal)
    requires After(a, b) && !After(c, b)
    ensures After(a, c)
  {
  }

  // ---------- A lossless first-in first-out channel ----------

  /** At most a constant delay: nothing is lost, cut, corrupted or jittered. */
  predicate DelayOnly(cfg: Config) {
    cfg.lossRate == cfg.cutRate == cfg.errRate == cfg.jitter == 0
  }

  /** Traffic of this direction goes through the queue. */
  predicate Delays(cfg: Config, link: Affected, d: Direction) {
    cfg.delay > 0 && Suffers(d, link)
  }

  function Arrival(t: Turn): seq<Datagram> {
    if Accepts(t) then [Datagram(t.receipt.direction, t.receipt.buf)] else []
  }

  /** What the two parties sent, in order of arrival. */
  function Arrivals(turns: seq<Turn>): seq<Datagram> {
    if |turns| == 0 then [] else Arrivals(turns[..|turns| - 1]) + Arrival(turns[|turns| - 1])
  }

  /** The arrivals of the turns that did not end the loop. */
  ghost function Taken(cfg: Config, link: Affected, clock: TimeVal, turns: seq<Turn>): seq<Datagram>
    requires DelayDefined(cfg)
  {
    if |turns| == 0 then []
    else Taken(cfg, link, clock, turns[..|turns| - 1]) +
         if RunProxy(cfg, link, clock, turns).running then Arrival(turns[|turns| - 1]) else []
  }

  /** The traffic of one direction. */
  function Only(s: seq<Datagram>, d: Direction): seq<Datagram> {
    OfKind(s, (g: Datagram) => g.direction, d)
  }

  lemma OnlyConcat(s: seq<Datagram>, t: seq<Datagram>, d: Direction)
    ensures Only(s + t, d) == Only(s, d) + Only(t, d)
  {
    OfKindConcat(s, t, (g: Datagram) => g.direction, d);
  }

  lemma OnlyPrefix(s: seq<Datagram>, t: seq<Datagram>, d: Direction)
    requires s <= t
    ensures Only(s, d) <= Only(t, d)
  {
    assert t == s + t[|s|..];
    OnlyConcat(s, t[|s|..], d);
    hide Only;
  }

  /** No slot of s travels in direction d. */
  lemma {:induction false} OnlyNone(s: seq<Slot>, d: Direction)
    requires forall x :: x in s ==> x.direction != d
    ensures Only(Datagrams(s), d) == []
    decreases |s|
  {
    if |s| > 0 {
      OnlyNone(s[..|s| - 1], d);
      assert Datagrams(s)[..|s| - 1] == Datagrams(s[..|s| - 1]);
    }
  }

  /** In a delayed direction everything goes through the queue, in the other nothing does. */
  ghost predicate CarriedIn(cfg: Config, link: Affected, p: Proxy, taken: seq<Datagram>, d: Direction) {
    if Delays(cfg, link, d) then
      Only(p.wire, d) == Only(Datagrams(p.delivered), d) && Only(Datagrams(p.queued), d) == Only(taken, d)
    else Only(p.wire, d) == Only(taken, d)
  }

  ghost predicate Carried(cfg: Config, link: Affected, p: Proxy, taken: seq<Datagram>) {
    && (forall s :: s in p.queued ==> Delays(cfg, link, s.direction))
    && (forall d :: CarriedIn(cfg, link, p, taken, d))
  }

  lemma SentWasQueued(p: Proxy, d: Delivery, s: Slot)
    requires Inv(p) && multiset(p.queue) == multiset(d.sent) + multiset(d.queue) && s in d.sent
    ensures s in p.queued
  {
    assert s in multiset(d.sent);
    assert s in multiset(p.queue);
    assert s in multiset(p.queued);
  }

  lemma DeliveredCarriedIn(cfg: Config, link: Affected, p: Proxy, taken: seq<Datagram>, clock: TimeVal,
                           e: Delivery, d: Direction)
    requires CarriedIn(cfg, link, p, taken, d) && forall s :: s in e.sent ==> Delays(cfg, link, s.direction)
    ensures CarriedIn(cfg, link, Delivered(p, clock, e), taken, d)
  {
    DatagramsConcat(p.delivered, e.sent);
    OnlyConcat(p.wire, Datagrams(e.sent), d);
    OnlyConcat(Datagrams(p.delivered), Datagrams(e.sent), d);
    if !Delays(cfg, link, d) {
      OnlyNone(e.sent, d);
    }
    hide Only, Datagrams;
  }

  lemma DeliveredCarried(cfg: Config, link: Affected, p: Proxy, taken: seq<Datagram>, clock: TimeVal,
                         writes: seq<Write>)
    requires Inv(p) && Carried(cfg, link, p, taken)
    ensures Carried(cfg, link, Delivered(p, clock, Deliver(p.queue, clock, writes, 0)), taken)
  {
    hide CarriedIn, Deliver, Heap, Sorted, Datagrams, Delays, Inv;
    var e := Deliver(p.queue, clock, writes, 0);
    assert Heap(Cmp(), p.queue) by { InvHeap(p); }
    DeliverGood(p.queue, clock, writes, 0);
    forall s | s in e.sent
      ensures Delays(cfg, link, s.direction)
    {
      SentWasQueued(p, e, s);
    }
    forall d: Direction
      ensures CarriedIn(cfg, link, Delivered(p, clock, e), taken, d)
    {
      DeliveredCarriedIn(cfg, link, p, taken, clock, e, d);
    }
  }

  lemma InvHeap(p: Proxy)
    requires Inv(p)
    ensures Heap(Cmp(), p.queue)
  {
    hide Heap;
  }

  lemma DelayOnlyEmits(cfg: Config, link: Affected, t: Turn)
    requires DelayOnly(cfg)
    ensures Emission(cfg, link, t) == Arrival(t)
  {
  }

  lemma OnlyOne(s: seq<Datagram>, e: seq<Datagram>, d: Direction)
    requires |e| == 1
    ensures Only(s + e, d) == if e[0].direction == d then Only(s, d) + e else Only(s, d)
  {
    OfKindOne(s, e[0], (g: Datagram) => g.direction, d);
    assert e == [e[0]];
  }

  lemma RelayedCarriedIn(cfg: Config, link: Affected, p: Proxy, q: Proxy, e: seq<Datagram>, taken: seq<Datagram>,
                         d: Direction)
    requires Relayed(p, q, e) && !Delays(cfg, link, e[0].direction) && CarriedIn(cfg, link, p, taken, d)
    ensures CarriedIn(cfg, link, q, taken + e, d)
  {
    OnlyOne(p.wire, e, d);
    OnlyOne(taken, e, d);
    hide Only, Datagrams;
  }

  lemma QueuedCarriedIn(cfg: Config, link: Affected, p: Proxy, q: Proxy, e: seq<Datagram>, slot: Slot,
                        taken: seq<Datagram>, d: Direction)
    requires Queued(p, q, e, slot) && Delays(cfg, link, slot.direction) && CarriedIn(cfg, link, p, taken, d)
    ensures CarriedIn(cfg, link, q, taken + e, d)
  {
    DatagramsAppend(p.queued, slot);
    OnlyOne(Datagrams(p.queued), e, d);
    OnlyOne(taken, e, d);
    hide Only, Datagrams, Push;
  }

  lemma ProcessCarried(cfg: Config, link: Affected, p: Proxy, t: Turn, taken: seq<Datagram>)
    requires DelayOnly(cfg) && DelayDefined(cfg) && p.running && t.Awake?
    requires Carried(cfg, link, p, taken)
    ensures var q := Process(cfg, link, p, t);
            Carried(cfg, link, q, taken + if q.running then Arrival(t) else [])
  {
    ProcessCases(cfg, link, p, t);
    DelayOnlyEmits(cfg, link, t);
    hide Process, Push, AppliedDelay, Emission, Arrival, CarriedIn, Suffers, Stamp;
    var q, e := Process(cfg, link, p, t), Emission(cfg, link, t);
    assert taken + [] == taken;
    if Relayed(p, q, e) {
      forall d: Direction
        ensures CarriedIn(cfg, link, q, taken + e, d)
      {
        RelayedCarriedIn(cfg, link, p, q, e, taken, d);
      }
    } else if Idle(p, q, e) {
      forall d: Direction
        ensures CarriedIn(cfg, link, q, taken, d)
      {
        IdleCarriedIn(cfg, link, p, q, taken, d);
      }
    } else {
      var slot :| Queued(p, q, e, slot) && Delays(cfg, link, slot.direction);
      forall d: Direction
        ensures CarriedIn(cfg, link, q, taken + e, d)
      {
        QueuedCarriedIn(cfg, link, p, q, e, slot, taken, d);
      }
    }
  }

  lemma IdleCarriedIn(cfg: Config, link: Affected, p: Proxy, q: Proxy, taken: seq<Datagram>, d: Direction)
    requires q == p.(running := q.running) && CarriedIn(cfg, link, p, taken, d)
    ensures CarriedIn(cfg, link, q, taken, d)
  {
  }

  lemma StopCarried(cfg: Config, link: Affected, p: Proxy, taken: seq<Datagram>)
    requires Carried(cfg, link, p, taken)
    ensures Carried(cfg, link, p.(running := false), taken)
  {
    hide CarriedIn;
    forall d: Direction
      ensures CarriedIn(cfg, link, p.(running := false), taken, d)
    {
      IdleCarriedIn(cfg, link, p, p.(running := false), taken, d);
    }
  }

  lemma StepCarried(cfg: Config, link: Affected, p: Proxy, t: Turn, taken: seq<Datagram>)
    requires DelayOnly(cfg) && DelayDefined(cfg) && p.running && Inv(p)
    requires Carried(cfg, link, p, taken)
    ensures var q := Step(cfg, link, p, t);
            Carried(cfg, link, q, taken + if q.running then Arrival(t) else [])
  {
    hide Deliver, Process, Inv, DelayDefined, Carried;
    assert taken + [] == taken;
    StopCarried(cfg, link, p, taken);
    if t.Awake? {
      StepShape(cfg, link, p, t);
      hide Step, Arrival;
      var q := Delivered(p, t.clock, Deliver(p.queue, t.clock, t.writes, 0));
      DeliveredCarried(cfg, link, p, taken, t.clock, t.writes);
      StopCarried(cfg, link, q, taken);
      ProcessCarried(cfg, link, q, t, taken);
    }
  }

  lemma {:induction false} RunCarried(cfg: Config, link: Affected, clock: TimeVal, turns: seq<Turn>)
    requires DelayOnly(cfg) && DelayDefined(cfg)
    ensures Carried(cfg, link, RunProxy(cfg, link, clock, turns), Taken(cfg, link, clock, turns))
    ensures Taken(cfg, link, clock, turns) <= Arrivals(turns)
    ensures RunProxy(cfg, link, clock, turns).running ==> Taken(cfg, link, clock, turns) == Arrivals(turns)
  {
    DatagramsEmpty();
    if |turns| > 0 {
      var before, t := turns[..|turns| - 1], turns[|turns| - 1];
      var p := RunProxy(cfg, link, clock, before);
      RunCarried(cfg, link, clock, before);
      Conservation(cfg, link, clock, before);
      StoppedStays(cfg, link, p, t);
      if p.running {
        StepCarried(cfg, link, p, t, Taken(cfg, link, clock, before));
      }
      hide Step, Inv, Carried, Arrival;
      assert Taken(cfg, link, clock, before) + [] == Taken(cfg, link, clock, before);
    }
  }

  function ByDirection(): Slot -> Direction {
    (s: Slot) => s.direction
  }

  /** What was queued of one direction and has not been delivered, in order. */
  ghost function Inside(p: Proxy, d: Direction): seq<Slot> {
    var u, w := OfKind(p.queued, ByDirection(), d), OfKind(p.delivered, ByDirection(), d);
    if w <= u then u[|w|..] else []
  }

  lemma {:induction false} OnlyOfKind(s: seq<Slot>, d: Direction)
    ensures Only(Datagrams(s), d) == Datagrams(OfKind(s, ByDirection(), d))
    decreases |s|
  {
    if |s| > 0 {
      var n := |s| - 1;
      OnlyOfKind(s[..n], d);
      assert Datagrams(s)[..n] == Datagrams(s[..n]);
      if s[n].direction == d {
        DatagramsAppend(OfKind(s[..n], ByDirection(), d), s[n]);
      }
    }
  }

  /** In either direction: what is on the wire, and what is still to come of what was taken. */
  lemma DirectionSplits(cfg: Config, link: Affected, p: Proxy, taken: seq<Datagram>, d: Direction)
    requires InTurn(ByDirection(), p.queued, p.delivered) && Carried(cfg, link, p, taken)
    ensures Only(taken, d) == Only(p.wire, d) + Datagrams(Inside(p, d))
  {
    var u, w := OfKind(p.queued, ByDirection(), d), OfKind(p.delivered, ByDirection(), d);
    OnlyOfKind(p.queued, d);
    OnlyOfKind(p.delivered, d);
    if !Delays(cfg, link, d) {
      OnlyNone(p.queued, d);
    }
    hide Only, Datagrams, OfKind, Delays;
    assert CarriedIn(cfg, link, p, taken, d);
    assert u == w + Inside(p, d);
    DatagramsConcat(w, Inside(p, d));
    DatagramsEmpty();
    if !Delays(cfg, link, d) {
      assert |u| == 0;
      assert Inside(p, d) == [];
      assert Only(p.wire, d) + [] == Only(p.wire, d);
    }
  }

  /** What came out so far and what is still queued are, direction by direction, what went in. */
  ghost predicate NothingLost(p: Proxy, arrivals: seq<Datagram>) {
    forall d: Direction ::
      && multiset(Inside(p, d)) == multiset(OfKind(p.queue, ByDirection(), d))
      && Only(arrivals, d) == Only(p.wire, d) + Datagrams(Inside(p, d))
  }

  /** A link that at most delays is a lossless first-in first-out channel, which is what sender and
      receiver need. If the clock does not fall back and no two different packets of one direction
      tie behind the first, then in each direction, delayed or merely relayed: what comes out is, unaltered and in
      order, an initial part of what went in, and as long as the proxy runs the rest of it is in the
      queue. */
  lemma LosslessFifoChannel(cfg: Config, link: Affected, clock: TimeVal, turns: seq<Turn>)
    requires DelayOnly(cfg) && DelayDefined(cfg)
    requires ClockMonotone(cfg, link, clock, turns) && TiesHarmless(ByDirection(), RunProxy(cfg, link, clock, turns))
    ensures var p := RunProxy(cfg, link, clock, turns);
            && (forall d: Direction :: Only(p.wire, d) <= Only(Arrivals(turns), d))
            && (p.running ==> NothingLost(p, Arrivals(turns)))
  {
    var p, taken := RunProxy(cfg, link, clock, turns), Taken(cfg, link, clock, turns);
    DeliveryOrder(ByDirection(), cfg, link, clock, turns);
    RunCarried(cfg, link, clock, turns);
    hide RunProxy, Taken, Arrivals, Only, Datagrams, Carried, Fifo, InTurn, TiesHarmless, Inside, OfKind;
    forall d: Direction
      ensures Only(taken, d) == Only(p.wire, d) + Datagrams(Inside(p, d))
      ensures Only(taken, d) <= Only(Arrivals(turns), d)
      ensures multiset(Inside(p, d)) == multiset(OfKind(p.queue, ByDirection(), d))
    {
      DirectionSplits(cfg, link, p, taken, d);
      OnlyPrefix(taken, Arrivals(turns), d);
      InsideIsQueued(p, d);
    }
  }

  lemma InsideIsQueued(p: Proxy, d: Direction)
    requires InOrder(ByDirection(), p)
    ensures multiset(Inside(p, d)) == multiset(OfKind(p.queue, ByDirection(), d))
  {
    Remaining(Cmp(), ByDirection(), p.queued, p.delivered, p.queue, d);
    hide OfKind, Fifo;
  }

  /** And it drains: a turn in which every stamp has passed and no send fails empties the queue, so
      that, in each direction, all that went in has come out. */
  lemma ChannelDrains(cfg: Config, link: Affected, clock: TimeVal, turns: seq<Turn>, t: Turn)
    requires DelayOnly(cfg) && DelayDefined(cfg)
    requires ClockMonotone(cfg, link, clock, turns + [t])
    requires TiesHarmless(ByDirection(), RunProxy(cfg, link, clock, turns + [t]))
    requires RunProxy(cfg, link, clock, turns).running
    requires DrainsAll(RunProxy(cfg, link, clock, turns).queue, t)
    ensures var q := RunProxy(cfg, link, clock, turns + [t]);
            && q.running && q.queue == []
            && forall d: Direction :: Only(q.wire, d) == Only(Arrivals(turns + [t]), d)
  {
    hide DelayDefined, Arrivals, Step, Inv, ClockMonotone, TiesHarmless;
    assert (turns + [t])[..|turns|] == turns;
    Conservation(cfg, link, clock, turns);
    DrainingTurn(cfg, link, RunProxy(cfg, link, clock, turns), t);
    LosslessFifoChannel(cfg, link, clock, turns + [t]);
    var q := RunProxy(cfg, link, clock, turns + [t]);
    hide RunProxy;
    hide Only, Inside, Datagrams, OfKind;
    DatagramsEmpty();
    forall d: Direction
      ensures Only(q.wire, d) == Only(Arrivals(turns + [t]), d)
    {
      NoneOfNothing(q.queue, ByDirection(), d);
      assert |Inside(q, d)| == |multiset(Inside(q, d))| == 0;
      assert Inside(q, d) == [];
      assert Only(q.wire, d) + [] == Only(q.wire, d);
    }
  }

  /** In turn t every stamp of the queue has passed, no send fails, and nothing arrives. */
  ghost predicate DrainsAll(queue: seq<Slot>, t: Turn) {
    && t.Awake? && t.receipt == RecvAgain
    && (forall s :: s in queue ==> Eligible(t.clock, s))
    && (forall i :: 0 <= i < |t.writes| ==> t.writes[i] == Written)
  }

  lemma DrainingTurn(cfg: Config, link: Affected, p: Proxy, t: Turn)
    requires DelayDefined(cfg) && Inv(p) && p.running && DrainsAll(p.queue, t)
    ensures Step(cfg, link, p, t).running && Step(cfg, link, p, t).queue == []
  {
    var d := Deliver(p.queue, t.clock, t.writes, 0);
    StepShape(cfg, link, p, t);
    DeliverGood(p.queue, t.clock, t.writes, 0);
    DeliverAll(p.queue, t.clock, t.writes, 0);
    hide Deliver, Step, Heap, Sorted, Datagrams, Eligible;
    Members(d.queue, p.queue);
    HasMember(d.queue);
  }

  lemma HasMember(s: seq<Slot>)
    ensures s == [] || s[0] in s
  {
  }
}
