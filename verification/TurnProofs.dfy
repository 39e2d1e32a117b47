/** One turn of proxy_loop (Linksimulator/link_sim.c): what it sends, what it queues, and when it is the last. */
module TurnProofs {
  import opened Clock
  import opened FaultProofs
  import opened HeapSpec
  import opened LinkFaults
  import opened ProxyProofs
  import opened ProxySpec

  // ---------- Which traffic suffers ----------

  /** Without an option the forward traffic suffers, with -r the reverse traffic, with -R both. */
  lemma WhoSuffers(link: Affected)
    ensures Suffers(Forward, link) <==> link != OnlyReverse
    ensures Suffers(Reverse, link) <==> link != OnlyForward
  {
  }

  /** Something is to leave the proxy for a datagram exactly if it comes from a party, has at least ten bytes, and
      is not lost on a direction that suffers. Traffic of the other direction leaves as it came. */
  lemma EmissionIs(cfg: Config, link: Affected, t: Turn)
    ensures var e := Emission(cfg, link, t);
            && (|e| == 1 <==>
                  && t.Awake? && t.receipt.FromParty? && |t.receipt.buf| >= 10
                  && (Suffers(t.receipt.direction, link) ==> !Hit(cfg.lossRate, t.rolls.loss)))
            && (|e| == 1 ==> e[0].direction == t.receipt.direction)
            && (|e| == 1 && !Suffers(t.receipt.direction, link) ==> e[0].buf == t.receipt.buf)
  {
    if Accepts(t) {
      FateIs(cfg, t.rolls, t.receipt.buf);
    }
    hide Damage, Suffers;
  }

  // ---------- The delivery ----------

  /** A packet has expired, but is still queued. */
  ghost predicate Blocked(clock: TimeVal, d: Delivery) {
    d.queue != [] && After(clock, d.queue[0].ts)
  }

  /** Expired packets are sent up to the first send that does not succeed; the loop of the proxy ends exactly if
      that one failed for good. */
  lemma {:induction false} DeliverUntil(queue: seq<Slot>, clock: TimeVal, writes: seq<Write>, k: nat)
    ensures var d := Deliver(queue, clock, writes, k);
            && (forall i :: k <= i < k + |d.sent| ==> Outcome(writes, i) == Written)
            && (Blocked(clock, d) ==> Outcome(writes, k + |d.sent|) != Written)
            && (d.ok <==> !(Blocked(clock, d) && Outcome(writes, k + |d.sent|) == Failed))
    decreases |queue|
  {
    hide Deliver, Pop, Outcome;
    DeliverStep(queue, clock, writes, k);
    if queue != [] && After(clock, queue[0].ts) && Outcome(writes, k) == Written {
      DeliverUntil(Pop(Cmp(), queue), clock, writes, k + 1);
    }
  }

  // ---------- The receipt ----------

  /** What is to leave the proxy has to wait. */
  ghost predicate IsDelayed(cfg: Config, link: Affected, t: Turn) {
    |Emission(cfg, link, t)| == 1 && cfg.delay > 0 && Suffers(t.receipt.direction, link)
  }

  /** It is sent on at once. */
  ghost predicate IsRelayed(cfg: Config, link: Affected, t: Turn) {
    |Emission(cfg, link, t)| == 1 && !(cfg.delay > 0 && Suffers(t.receipt.direction, link))
  }

  /** The slot of a datagram that has to wait. */
  ghost function NewSlot(cfg: Config, link: Affected, t: Turn): Slot
    requires IsDelayed(cfg, link, t) && DelayDefined(cfg) && t.Awake?
  {
    var g := Emission(cfg, link, t)[0];
    Slot(Stamp(t.clock, AppliedDelay(cfg, t.rolls.delay)), g.direction, g.buf)
  }

  /** The receipt fails: recvfrom for good, a send that does not succeed, or an allocation. */
  ghost predicate ReceiptFails(cfg: Config, link: Affected, p: Proxy, t: Turn)
    requires t.Awake?
  {
    || t.receipt.RecvFailed?
    || (IsRelayed(cfg, link, t) && t.forward != Written)
    || (IsDelayed(cfg, link, t) && (!t.slotMemory || (|p.queue| == p.alloc && !t.heapMemory)))
  }

  lemma ReceiptIs(cfg: Config, link: Affected, p: Proxy, t: Turn)
    requires p.running && t.Awake? && DelayDefined(cfg) && p.clock == t.clock
    ensures var q := Process(cfg, link, p, t);
            && (q.running <==> !ReceiptFails(cfg, link, p, t))
            && (!q.running ==> q == p.(running := false))
            && (q.running ==> q.wire == p.wire + if IsRelayed(cfg, link, t) then Emission(cfg, link, t) else [])
            && (q.running && IsDelayed(cfg, link, t) ==>
                  && q.queue == Push(Cmp(), p.queue, NewSlot(cfg, link, t))
                  && q.queued == p.queued + [NewSlot(cfg, link, t)])
            && (!IsDelayed(cfg, link, t) ==> q.queue == p.queue && q.queued == p.queued)
            && q.clock == t.clock && q.delivered == p.delivered
  {
    hide AppliedDelay, Damage, DelayDefined, Stamp, Push, Suffers;
    assert p.wire + [] == p.wire;
  }

  /** The turn ends the loop: select or the clock fails, a send of a delayed packet fails for good, or the receipt
      fails. */
  ghost predicate TurnFails(cfg: Config, link: Affected, p: Proxy, t: Turn) {
    || t.SelectFailed?
    || t.ClockFailed?
    || (t.Awake? && var d := Deliver(p.queue, t.clock, t.writes, 0);
                    || (Blocked(t.clock, d) && Outcome(t.writes, |d.sent|) == Failed)
                    || ReceiptFails(cfg, link, p.(queue := d.queue), t))
  }

  /** A turn ends the loop if and only if one of these failures occurs: no datagram does, however damaged, short
      or alien, and no interrupted select. */
  lemma LoopStopsIff(cfg: Config, link: Affected, p: Proxy, t: Turn)
    requires p.running && DelayDefined(cfg)
    ensures Step(cfg, link, p, t).running <==> !TurnFails(cfg, link, p, t)
    ensures t.Interrupted? ==> Step(cfg, link, p, t) == p
  {
    hide Deliver, Process, DelayDefined, Datagrams, Emission, Suffers, ReceiptFails;
    if t.Awake? {
      var d := Deliver(p.queue, t.clock, t.writes, 0);
      StepShape(cfg, link, p, t);
      hide Step;
      DeliverUntil(p.queue, t.clock, t.writes, 0);
      ReceiptIs(cfg, link, Delivered(p, t.clock, d), t);
      SameReceipt(cfg, link, Delivered(p, t.clock, d), p.(queue := d.queue), t);
    }
  }

  lemma SameReceipt(cfg: Config, link: Affected, p: Proxy, q: Proxy, t: Turn)
    requires t.Awake? && p.queue == q.queue && p.alloc == q.alloc
    ensures ReceiptFails(cfg, link, p, t) == ReceiptFails(cfg, link, q, t)
  {
    hide Emission, Suffers;
  }

  /** What a turn that does not end the loop does: first the expired packets leave, by the clock just read; then
      what is to leave for the datagram received is put behind them, or queued with its stamp. */
  lemma TurnIs(cfg: Config, link: Affected, p: Proxy, t: Turn)
    requires p.running && t.Awake? && DelayDefined(cfg) && Step(cfg, link, p, t).running
    ensures var d, q := Deliver(p.queue, t.clock, t.writes, 0), Step(cfg, link, p, t);
            && q.clock == t.clock && q.delivered == p.delivered + d.sent
            && q.wire == p.wire + Datagrams(d.sent) + (if IsRelayed(cfg, link, t) then Emission(cfg, link, t) else [])
            && (if IsDelayed(cfg, link, t) then
                  && q.queue == Push(Cmp(), d.queue, NewSlot(cfg, link, t))
                  && q.queued == p.queued + [NewSlot(cfg, link, t)]
                else q.queue == d.queue && q.queued == p.queued)
  {
    hide Deliver, Process, DelayDefined, Datagrams, Emission, Suffers, ReceiptFails, NewSlot, Push;
    StepShape(cfg, link, p, t);
    hide Step;
    ReceiptIs(cfg, link, Delivered(p, t.clock, Deliver(p.queue, t.clock, t.writes, 0)), t);
  }
}
