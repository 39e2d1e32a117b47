/** How long proxy_loop may sleep, over whole runs. */
module WaitProofs {
  import opened Clock
  import opened HeapSpec
  import opened LinkFaults
  import opened ProxyProofs
  import opened ProxySpec

  /** The stamp of a packet that arrived at a normal clock read, with an applied delay. */
  ghost predicate MadeWith(ts: TimeVal, arrival: TimeVal, delay: nat) {
    Normal(arrival) && delay < 10000 && ts == Stamp(arrival, delay)
  }

  /** `fixed` is the delay of every packet, if there is no jitter. */
  ghost predicate Made(ts: TimeVal, jitter: bool, fixed: nat) {
    exists arrival, delay :: MadeWith(ts, arrival, delay) && (jitter || delay == fixed)
  }

  ghost predicate QueueMade(cfg: Config, p: Proxy) {
    Normal(p.clock) && forall s :: s in p.queue ==> Made(s.ts, cfg.jitter > 0, cfg.delay % 10000)
  }

  predicate NormalReads(turns: seq<Turn>) {
    forall i :: 0 <= i < |turns| && turns[i].Awake? ==> Normal(turns[i].clock)
  }

  lemma PushMembers(queue: seq<Slot>, slot: Slot)
    ensures forall x :: x in Push(Cmp(), queue, slot) ==> x in queue || x == slot
  {
    PushContents(Cmp(), queue, slot);
    hide Push;
    forall x | x in Push(Cmp(), queue, slot)
      ensures x in queue || x == slot
    {
      assert x in multiset(Push(Cmp(), queue, slot));
    }
  }

  lemma ProcessMade(cfg: Config, link: Affected, p: Proxy, t: Turn)
    requires DelayDefined(cfg) && p.running && t.Awake? && QueueMade(cfg, p)
    ensures QueueMade(cfg, Process(cfg, link, p, t))
  {
    ProcessCases(cfg, link, p, t);
    hide Process, Push, Emission, DelayDefined;
    var q, e := Process(cfg, link, p, t), Emission(cfg, link, t);
    if !Idle(p, q, e) && !Relayed(p, q, e) {
      var slot :| Queued(p, q, e, slot) && cfg.delay > 0
                  && slot.ts == Stamp(p.clock, AppliedDelay(cfg, t.rolls.delay));
      assert MadeWith(slot.ts, p.clock, AppliedDelay(cfg, t.rolls.delay));
      PushMembers(p.queue, slot);
    }
  }

  lemma StepMade(cfg: Config, link: Affected, p: Proxy, t: Turn)
    requires DelayDefined(cfg) && Inv(p) && QueueMade(cfg, p)
    requires t.Awake? ==> Normal(t.clock)
    ensures QueueMade(cfg, Step(cfg, link, p, t))
  {
    hide Deliver, Process, Heap, DelayDefined, Made, Datagrams;
    if p.running && t.Awake? {
      StepShape(cfg, link, p, t);
      hide Step;
      var d := Deliver(p.queue, t.clock, t.writes, 0);
      DeliverGood(p.queue, t.clock, t.writes, 0);
      Members(d.queue, p.queue);
      ProcessMade(cfg, link, Delivered(p, t.clock, d), t);
    }
  }

  lemma {:induction false} RunMade(cfg: Config, link: Affected, clock: TimeVal, turns: seq<Turn>)
    requires DelayDefined(cfg) && Normal(clock) && NormalReads(turns)
    ensures QueueMade(cfg, RunProxy(cfg, link, clock, turns))
    decreases |turns|
  {
    if |turns| > 0 {
      var n := |turns| - 1;
      RunMade(cfg, link, clock, turns[..n]);
      Conservation(cfg, link, clock, turns[..n]);
      StepMade(cfg, link, RunProxy(cfg, link, clock, turns[..n]), turns[n]);
      hide Step, Inv, QueueMade;
    }
  }

  /** The wait select is given fits the time left to every queued packet. */
  ghost predicate WaitFitsQueue(queue: seq<Slot>, clock: TimeVal) {
    |queue| > 0 ==> forall s :: s in queue ==> WaitFits(queue[0].ts, s.ts, clock)
  }

  ghost predicate RootIsEarliest(queue: seq<Slot>) {
    |queue| > 0 ==> forall s :: s in queue ==> Micros(queue[0].ts) <= Micros(s.ts)
  }

  lemma MadeInRange(ts: TimeVal, jitter: bool, fixed: nat)
    requires Made(ts, jitter, fixed)
    ensures StampRange(ts)
  {
    var arrival, delay :| MadeWith(ts, arrival, delay);
    StampMeaning(arrival, delay);
  }

  /** In every state the proxy can reach, jitter or not: select sleeps past no packet's expiry if
      and only if the root denotes the earliest instant of the queue, or the root's second has
      passed, or at most a millisecond is left to it. */
  lemma QueueWaitIff(cfg: Config, link: Affected, clock: TimeVal, turns: seq<Turn>)
    requires DelayDefined(cfg) && Normal(clock) && NormalReads(turns)
    ensures var p := RunProxy(cfg, link, clock, turns);
            |p.queue| > 0 ==>
              (WaitFitsQueue(p.queue, p.clock) <==>
               RootIsEarliest(p.queue) || p.clock.sec > p.queue[0].ts.sec
               || Micros(p.queue[0].ts) - Micros(p.clock) <= 1000)
  {
    var p := RunProxy(cfg, link, clock, turns);
    RunMade(cfg, link, clock, turns);
    Conservation(cfg, link, clock, turns);
    hide RunProxy, Made, WaitFits, DelayDefined;
    if |p.queue| > 0 {
      SlotOrder();
      RootMinimum(Cmp(), p.queue);
      hide Heap, StrictWeakOrder;
      forall s | s in p.queue
        ensures StampRange(s.ts) && !After(p.queue[0].ts, s.ts)
        ensures WaitFits(p.queue[0].ts, s.ts, p.clock) <==>
                Micros(p.queue[0].ts) <= Micros(s.ts) || p.clock.sec > p.queue[0].ts.sec
                || Micros(p.queue[0].ts) - Micros(p.clock) <= 1000
      {
        assert !Cmp()(p.queue[0], s);
        MadeInRange(s.ts, cfg.jitter > 0, cfg.delay % 10000);
        MadeInRange(p.queue[0].ts, cfg.jitter > 0, cfg.delay % 10000);
        WaitFitsIff(p.queue[0].ts, s.ts, p.clock);
      }
    }
  }

  /** Without jitter it never does: stamps made with one delay are ordered as the instants they
      denote, carried or not. */
  lemma NoOversleepWithoutJitter(cfg: Config, link: Affected, clock: TimeVal, turns: seq<Turn>)
    requires DelayDefined(cfg) && cfg.jitter == 0 && Normal(clock) && NormalReads(turns)
    ensures var p := RunProxy(cfg, link, clock, turns);
            WaitFitsQueue(p.queue, p.clock)
  {
    var p := RunProxy(cfg, link, clock, turns);
    RunMade(cfg, link, clock, turns);
    Conservation(cfg, link, clock, turns);
    QueueWaitIff(cfg, link, clock, turns);
    hide RunProxy, WaitFitsQueue, DelayDefined;
    if |p.queue| > 0 {
      SlotOrder();
      RootMinimum(Cmp(), p.queue);
      hide Heap, StrictWeakOrder;
      forall s | s in p.queue
        ensures Micros(p.queue[0].ts) <= Micros(s.ts)
      {
        assert !Cmp()(p.queue[0], s);
        var a, d :| MadeWith(p.queue[0].ts, a, d) && d == cfg.delay % 10000;
        var b, e :| MadeWith(s.ts, b, e) && e == cfg.delay % 10000;
        ShiftKeepsInstants(a, b, d);
      }
    }
  }

  // ---------- A run that oversleeps ----------

  /** A turn that receives buf at `clock` and draws `roll` for its delay. */
  function Receiving(clock: TimeVal, buf: seq<bv8>, roll: nat): Turn {
    Awake(clock, [], FromParty(Forward, buf), Rolls(0, 0, 0, 0, roll), true, true, Written)
  }

  /** Such a turn queues its packet, if nothing is due and no fault strikes. */
  lemma QueuingTurn(cfg: Config, p: Proxy, clock: TimeVal, buf: seq<bv8>, roll: nat)
    requires cfg.lossRate == cfg.cutRate == cfg.errRate == 0 && cfg.delay > 0 && DelayDefined(cfg)
    requires p.running && (p.queue == [] || !After(clock, p.queue[0].ts)) && |buf| >= MIN_PKT_LEN
    ensures var q := Step(cfg, OnlyForward, p, Receiving(clock, buf, roll));
            && q.running && q.clock == clock
            && q.queue == Push(Cmp(), p.queue, Slot(Stamp(clock, AppliedDelay(cfg, roll)), Forward, buf))
  {
    DeliverStep(p.queue, clock, [], 0);
    StepShape(cfg, OnlyForward, p, Receiving(clock, buf, roll));
    hide Step, Deliver, Push, AppliedDelay, Stamp, Datagrams, DelayDefined;
  }

  lemma TwoTurns(cfg: Config, link: Affected, clock: TimeVal, t: Turn, u: Turn)
    requires DelayDefined(cfg)
    ensures RunProxy(cfg, link, clock, [t, u]) == Step(cfg, link, Step(cfg, link, Start(clock), t), u)
  {
    hide Step, DelayDefined, Start;
    assert [t, u][..1] == [t] && [t][..0] == [];
    assert RunProxy(cfg, link, clock, [t]) == Step(cfg, link, RunProxy(cfg, link, clock, []), t);
  }

  /** The configuration and the clock reads of the run below. */
  const JITTERY: Config := Config(1500, 600, 0, 0, 0)
  const FIRST := TimeVal(1, 100_000)
  const SECOND := TimeVal(2, 900_000)

  lemma DrawnDelays()
    ensures DelayDefined(JITTERY)
    ensures AppliedDelay(JITTERY, 1100) == 2000 && AppliedDelay(JITTERY, 99) == 999
  {
  }

  lemma PushedInFront(first: Slot, second: Slot)
    requires After(first.ts, second.ts)
    ensures Push(Cmp(), [], first) == [first] && Push(Cmp(), [first], second) == [second, first]
  {
    var e := [first] + [second];
    assert Cmp()(e[0], e[1]);
    assert Swap(e, 1, 0) == [second, first];
    assert [] + [first] == [first];
  }

  /** With a delay of 1500 ms and a jitter of 600 ms: a packet arrives at 1.1 s and draws 2000 ms,
      another arrives at 2.9 s and draws 999 ms. The second stamp, 2 s and 1 899 000 us, is ordered
      first, so that select may sleep 999 ms, although the first packet is due in 200 ms. */
  lemma OversleepRun(a: seq<bv8>, b: seq<bv8>)
    requires |a| >= MIN_PKT_LEN && |b| >= MIN_PKT_LEN
    ensures DelayDefined(JITTERY)
    ensures var turns := [Receiving(FIRST, a, 1100), Receiving(SECOND, b, 99)];
            var p := RunProxy(JITTERY, OnlyForward, TimeVal(0, 0), turns);
            && p.running && p.clock == SECOND
            && p.queue == [Slot(TimeVal(2, 1_899_000), Forward, b), Slot(TimeVal(3, 100_000), Forward, a)]
            && Micros(Timeout(p.queue[0].ts, p.clock)) == 999_000
            && Micros(p.queue[1].ts) - Micros(p.clock) == 200_000
            && !WaitFitsQueue(p.queue, p.clock)
  {
    var first, second := Slot(TimeVal(3, 100_000), Forward, a), Slot(TimeVal(2, 1_899_000), Forward, b);
    DrawnDelays();
    hide DelayDefined, AppliedDelay, Step, Push, RunProxy;
    var p0 := Start(TimeVal(0, 0));
    PushedInFront(first, second);
    QueuingTurn(JITTERY, p0, FIRST, a, 1100);
    QueuingTurn(JITTERY, Step(JITTERY, OnlyForward, p0, Receiving(FIRST, a, 1100)), SECOND, b, 99);
    TwoTurns(JITTERY, OnlyForward, TimeVal(0, 0), Receiving(FIRST, a, 1100), Receiving(SECOND, b, 99));
    hide Receiving, WaitFitsQueue;
    SecondIsLate(first, second);
  }

  lemma SecondIsLate(first: Slot, second: Slot)
    requires first.ts == TimeVal(3, 100_000) && second.ts == TimeVal(2, 1_899_000)
    ensures !WaitFitsQueue([second, first], SECOND)
  {
    var q := [second, first];
    assert q[1] in q && q[1] == first && q[0] == second;
    assert !WaitFits(second.ts, first.ts, SECOND);
  }
}
