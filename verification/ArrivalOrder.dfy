/** Whether the link simulator keeps the order in which packets arrive: for which arrivals it does, and
    what it does with a burst. */
module ArrivalOrder {
  import opened ChannelProofs
  import opened Clock
  import opened HeapSpec
  import opened HeapTies
  import opened LinkFaults
  import opened ProxyProofs
  import opened ProxySpec

  // ---------- Which arrivals keep their order ----------

  /** A datagram that is queued, and whether at the same clock read as the one queued before it. */
  datatype Arrived = Arrived(g: Datagram, together: bool)

  /** What was queued are the first of these. */
  ghost predicate Matches(queued: seq<Slot>, a: seq<Arrived>) {
    && |queued| <= |a|
    && (forall i :: 0 <= i < |queued| ==> ToDatagram(queued[i]) == a[i].g)
    && (forall i :: 1 <= i < |queued| ==> (a[i].together <==> queued[i].ts == queued[i - 1].ts))
  }

  /** a[i] to a[j] come together. */
  predicate Burst(a: seq<Arrived>, i: nat, j: nat)
    requires j < |a|
  {
    forall m :: i < m <= j ==> a[m].together
  }

  /** Behind the first of all, packets of a kind that come together are the same. */
  predicate OnlyFirstTogether<K(==)>(kind: Direction -> K, a: seq<Arrived>) {
    forall i, j :: 1 <= i < j < |a| && Burst(a, i, j) && kind(a[i].g.direction) == kind(a[j].g.direction) ==>
      a[i].g == a[j].g
  }

  /** The kind of a slot, which depends on its direction only. */
  function SlotKind<K>(kind: Direction -> K): Slot -> K {
    (s: Slot) => kind(s.direction)
  }

  lemma TiedMeans(x: Slot, y: Slot)
    ensures Tied(Cmp(), x, y) <==> x.ts == y.ts
  {
  }

  /** Sorted slots with the same stamp are a burst. */
  lemma {:induction false} SameStampBurst(s: seq<Slot>, a: seq<Arrived>, i: nat, j: nat)
    requires Sorted(Cmp(), s) && Matches(s, a) && i < j < |s| && s[i].ts == s[j].ts
    ensures Burst(a, i, j)
    decreases j - i
  {
    assert !Cmp()(s[i], s[j - 1]) || i == j - 1;
    assert !Cmp()(s[j - 1], s[j]);
    assert s[j - 1].ts == s[j].ts;
    if i < j - 1 {
      SameStampBurst(s, a, i, j - 1);
    }
  }

  lemma HarmlessArrivals<K(!new)>(kind: Direction -> K, a: seq<Arrived>, s: seq<Slot>)
    requires Sorted(Cmp(), s) && Matches(s, a) && OnlyFirstTogether(kind, a)
    ensures OnlyFirstTies(Cmp(), SlotKind(kind), s)
  {
    forall i, j | 1 <= i < j < |s| && kind(s[i].direction) == kind(s[j].direction) && Tied(Cmp(), s[i], s[j])
      ensures s[i] == s[j]
    {
      TiedMeans(s[i], s[j]);
      SameStampBurst(s, a, i, j);
    }
  }

  // ---------- A run that does what a run of the queue does ----------

  /** Turn at clock c: nothing can be sent, and the datagram of x arrives. */
  function PushTurn(c: TimeVal, x: Slot): Turn {
    Awake(c, [Again], FromParty(x.direction, x.buf), Rolls(100, 100, 100, 0, 0), true, true, Written)
  }

  /** Turn at clock c: one datagram can be sent, and nothing arrives. */
  function PopTurn(c: TimeVal): Turn {
    Awake(c, [Written, Again], RecvAgain, Rolls(0, 0, 0, 0, 0), true, true, Written)
  }

  /** The rates are percentages: the option parser reduces them modulo 101. */
  predicate Percentages(cfg: Config) {
    cfg.errRate <= 100 && cfg.cutRate <= 100 && cfg.lossRate <= 100
  }

  /** Packets that are queued: they take a delayed direction and are long enough. */
  predicate Queueable(cfg: Config, link: Affected, g: Datagram) {
    Delays(cfg, link, g.direction) && |g.buf| >= MIN_PKT_LEN
  }

  lemma PushTurnQueues(cfg: Config, link: Affected, p: Proxy, c: TimeVal, x: Slot)
    requires DelayDefined(cfg) && cfg.jitter == 0 && Percentages(cfg) && p.running
    requires Queueable(cfg, link, ToDatagram(x)) && x.ts == Stamp(c, cfg.delay % 10000)
    ensures var q := Step(cfg, link, p, PushTurn(c, x));
            && q.running && q.clock == c && q.queue == Push(Cmp(), p.queue, x)
            && q.queued == p.queued + [x] && q.delivered == p.delivered
  {
    hide Deliver, Push, Stamp, Datagrams, Pop;
    DeliverStep(p.queue, c, [Again], 0);
    StepShape(cfg, link, p, PushTurn(c, x));
    hide Step;
    assert Damage(cfg, PushTurn(c, x).rolls, x.buf) == Passed(x.buf);
    assert p.delivered + [] == p.delivered;
  }

  lemma PopTurnSends(cfg: Config, link: Affected, p: Proxy, c: TimeVal)
    requires DelayDefined(cfg) && p.running
    requires p.queue != [] ==> After(c, p.queue[0].ts)
    ensures var q := Step(cfg, link, p, PopTurn(c));
            && q.running && q.clock == c && q.queue == Pop(Cmp(), p.queue)
            && q.queued == p.queued
            && q.delivered == p.delivered + if p.queue != [] then [p.queue[0]] else []
  {
    hide Deliver, Pop, Datagrams;
    DeliverStep(p.queue, c, [Written, Again], 0);
    DeliverStep(Pop(Cmp(), p.queue), c, [Written, Again], 1);
    StepShape(cfg, link, p, PopTurn(c));
    hide Step;
    PopNothing(Cmp(), p.queue);
  }

  /** The proxy has done with its queue what `ops` do. */
  ghost predicate Does(p: Proxy, ops: seq<Op<Slot>>) {
    && p.running
    && p.queue == RunOps(Cmp(), ops) && p.queued == Pushed(ops) && p.delivered == Popped(Cmp(), ops)
  }

  /** A run on a clock that does not fall back, which ends at clock c. */
  ghost predicate RunDoes(cfg: Config, link: Affected, start: TimeVal, turns: seq<Turn>, ops: seq<Op<Slot>>,
                          c: TimeVal)
    requires DelayDefined(cfg)
  {
    && ClockMonotone(cfg, link, start, turns)
    && Does(RunProxy(cfg, link, start, turns), ops) && RunProxy(cfg, link, start, turns).clock == c
  }

  lemma RunThenStep(cfg: Config, link: Affected, start: TimeVal, turns: seq<Turn>, t: Turn)
    requires DelayDefined(cfg)
    ensures RunProxy(cfg, link, start, turns + [t]) == Step(cfg, link, RunProxy(cfg, link, start, turns), t)
  {
    assert (turns + [t])[..|turns|] == turns;
    RunOneMore(cfg, link, start, turns + [t]);
    hide RunProxy, Step;
  }

  lemma OnePush(cfg: Config, link: Affected, start: TimeVal, turns: seq<Turn>, ops: seq<Op<Slot>>, c: TimeVal,
                d: TimeVal, x: Slot)
    requires DelayDefined(cfg) && cfg.jitter == 0 && Percentages(cfg)
    requires RunDoes(cfg, link, start, turns, ops, c) && !After(c, d)
    requires Queueable(cfg, link, ToDatagram(x)) && x.ts == Stamp(d, cfg.delay % 10000)
    ensures RunDoes(cfg, link, start, turns + [PushTurn(d, x)], ops + [OpPush(x)], d)
  {
    hide RunProxy, Step, ClockMonotone, RunOps, Pushed, Popped, Push, Stamp, Queueable;
    PushTurnQueues(cfg, link, RunProxy(cfg, link, start, turns), d, x);
    RunThenStep(cfg, link, start, turns, PushTurn(d, x));
    MonotoneOnceMore(cfg, link, start, turns, PushTurn(d, x));
    OneMore(Cmp(), ops, OpPush(x));
  }

  ghost predicate AllExpired(s: seq<Slot>, clock: TimeVal) {
    forall x :: x in s ==> After(clock, x.ts)
  }

  lemma OnePop(cfg: Config, link: Affected, start: TimeVal, turns: seq<Turn>, ops: seq<Op<Slot>>, c: TimeVal,
               d: TimeVal)
    requires DelayDefined(cfg)
    requires RunDoes(cfg, link, start, turns, ops, c) && !After(c, d)
    requires AllExpired(Pushed(ops), d)
    ensures RunDoes(cfg, link, start, turns + [PopTurn(d)], ops + [OpPop], d)
  {
    hide RunProxy, Step, ClockMonotone, RunOps, Pushed, Popped, Pop;
    var p := RunProxy(cfg, link, start, turns);
    RunContents(Cmp(), ops);
    if p.queue != [] {
      assert p.queue[0] in multiset(p.queue);
      assert p.queue[0] in multiset(Pushed(ops));
    }
    PopTurnSends(cfg, link, p, d);
    RunThenStep(cfg, link, start, turns, PopTurn(d));
    MonotoneOnceMore(cfg, link, start, turns, PopTurn(d));
    OneMore(Cmp(), ops, OpPop);
  }

  lemma {:induction false} ManyPops(cfg: Config, link: Affected, start: TimeVal, turns: seq<Turn>,
                                    ops: seq<Op<Slot>>, c: TimeVal, d: TimeVal, n: nat) returns (more: seq<Turn>)
    requires DelayDefined(cfg)
    requires RunDoes(cfg, link, start, turns, ops, c) && !After(c, d)
    requires AllExpired(Pushed(ops), d)
    ensures RunDoes(cfg, link, start, more, ops + Pops(n), if n == 0 then c else d)
    decreases n
  {
    hide RunDoes, Pushed, After, AllExpired;
    if n == 0 {
      more := turns;
      assert ops + Pops(0) == ops;
    } else {
      OnePop(cfg, link, start, turns, ops, c, d);
      OneMore(Cmp(), ops, OpPop);
      NotAfterItself(d);
      more := ManyPops(cfg, link, start, turns + [PopTurn(d)], ops + [OpPop], d, d, n - 1);
      PopsFirst<Slot>(n);
      assert ops + Pops(n) == ops + [OpPop] + Pops(n - 1);
    }
  }

  // ---------- Arrivals at times of our choice ----------

  /** The second in which a[k] arrives: bursts are twenty seconds apart. */
  function Second(start: TimeVal, a: seq<Arrived>, k: nat): int
    requires k < |a|
  {
    if k == 0 then start.sec + 1
    else Second(start, a, k - 1) + if a[k].together then 0 else 20
  }

  function Read(start: TimeVal, a: seq<Arrived>, k: nat): TimeVal
    requires k < |a|
  {
    TimeVal(Second(start, a, k), 0)
  }

  /** A clock read at which all that came up to a[k] has expired. */
  function Later(start: TimeVal, a: seq<Arrived>, k: nat): TimeVal
    requires k < |a|
  {
    TimeVal(Second(start, a, k) + 11, 0)
  }

  function Slots(cfg: Config, start: TimeVal, a: seq<Arrived>): (s: seq<Slot>)
    ensures |s| == |a|
  {
    seq(|a|, k requires 0 <= k < |a| =>
      Slot(Stamp(Read(start, a, k), cfg.delay % 10000), a[k].g.direction, a[k].g.buf))
  }

  lemma SlotIs(cfg: Config, start: TimeVal, a: seq<Arrived>, k: nat)
    requires k < |a|
    ensures Slots(cfg, start, a)[k] ==
            Slot(Stamp(Read(start, a, k), cfg.delay % 10000), a[k].g.direction, a[k].g.buf)
  {
  }

  lemma {:induction false} SecondsOrdered(start: TimeVal, a: seq<Arrived>, i: nat, j: nat)
    requires i <= j < |a|
    ensures start.sec < Second(start, a, i) <= Second(start, a, j)
    decreases j
  {
    if j > 0 {
      SecondsOrdered(start, a, if i < j then i else j - 1, j - 1);
    }
  }

  lemma {:induction false} BurstSecond(start: TimeVal, a: seq<Arrived>, i: nat, j: nat)
    requires i <= j < |a| && Burst(a, i, j)
    ensures Second(start, a, i) == Second(start, a, j)
    decreases j
  {
    if i < j {
      BurstSecond(start, a, i, j - 1);
    }
  }

  lemma StampTimes(c: TimeVal, d: TimeVal, delay: nat)
    requires delay < 10000 && c.usec == d.usec == 0
    ensures c.sec >= d.sec ==> !After(Stamp(d, delay), Stamp(c, delay))
    ensures Stamp(c, delay) == Stamp(d, delay) <==> c.sec == d.sec
    ensures c.sec >= d.sec + 11 ==> After(c, Stamp(d, delay))
  {
  }

  lemma SlotsSorted(cfg: Config, start: TimeVal, a: seq<Arrived>)
    ensures Sorted(Cmp(), Slots(cfg, start, a)) && Matches(Slots(cfg, start, a), a)
  {
    var s := Slots(cfg, start, a);
    hide Stamp, Second, Slots;
    forall i, j | 0 <= i < j < |s|
      ensures !Cmp()(s[i], s[j])
    {
      SlotIs(cfg, start, a, i);
      SlotIs(cfg, start, a, j);
      SecondsOrdered(start, a, i, j);
      StampTimes(Read(start, a, j), Read(start, a, i), cfg.delay % 10000);
    }
    forall i | 0 <= i < |s|
      ensures ToDatagram(s[i]) == a[i].g
    {
      SlotIs(cfg, start, a, i);
    }
    forall i | 1 <= i < |s|
      ensures a[i].together <==> s[i].ts == s[i - 1].ts
    {
      SlotIs(cfg, start, a, i - 1);
      SlotIs(cfg, start, a, i);
      StampTimes(Read(start, a, i), Read(start, a, i - 1), cfg.delay % 10000);
      assert Second(start, a, i) == Second(start, a, i - 1) + if a[i].together then 0 else 20 by {
        NextSecond(start, a, i);
      }
    }
  }

  lemma NextSecond(start: TimeVal, a: seq<Arrived>, k: nat)
    requires 1 <= k < |a|
    ensures Second(start, a, k) == Second(start, a, k - 1) + if a[k].together then 0 else 20
  {
  }

  lemma MatchesFirst(s: seq<Slot>, a: seq<Arrived>, n: nat)
    requires Matches(s, a) && n <= |s|
    ensures Matches(s[..n], a)
  {
  }

  /** The setting of the run below. */
  ghost predicate Setting(cfg: Config, link: Affected, a: seq<Arrived>) {
    && cfg.delay > 0 && cfg.jitter == 0 && Percentages(cfg)
    && forall x :: x in a ==> Queueable(cfg, link, x.g)
  }

  /** a[i] arrives at its time. */
  lemma OneArrival(cfg: Config, link: Affected, start: TimeVal, a: seq<Arrived>, turns: seq<Turn>,
                   ops: seq<Op<Slot>>, c: TimeVal, i: nat) returns (more: seq<Turn>)
    requires DelayDefined(cfg) && Setting(cfg, link, a) && i < |a|
    requires RunDoes(cfg, link, start, turns, ops, c) && !After(c, Read(start, a, i))
    ensures RunDoes(cfg, link, start, more, ops + [OpPush(Slots(cfg, start, a)[i])], Read(start, a, i))
  {
    var x := Slots(cfg, start, a)[i];
    SlotIs(cfg, start, a, i);
    assert a[i] in a;
    hide RunDoes, Stamp, Slots, Second;
    OnePush(cfg, link, start, turns, ops, c, Read(start, a, i), x);
    more := turns + [PushTurn(Read(start, a, i), x)];
  }

  lemma FirstPush<T>(ops: seq<Op<T>>, s: seq<T>, i: nat, j: nat)
    requires i < j <= |s|
    ensures ops + Pushes(s[i..j]) == ops + [OpPush(s[i])] + Pushes(s[i + 1..j])
  {
    assert s[i..j] == [s[i]] + s[i + 1..j];
    PushesConcat([s[i]], s[i + 1..j]);
    PushesOne(s[i]);
    hide Pushes;
  }

  lemma PushesOne<T>(x: T)
    ensures Pushes([x]) == [OpPush(x)]
  {
    assert [x][..0] == [];
  }

  lemma {:induction false} ManyPushes(cfg: Config, link: Affected, start: TimeVal, a: seq<Arrived>, turns: seq<Turn>,
                                      ops: seq<Op<Slot>>, c: TimeVal, i: nat, j: nat) returns (more: seq<Turn>)
    requires DelayDefined(cfg) && Setting(cfg, link, a) && i < j <= |a|
    requires RunDoes(cfg, link, start, turns, ops, c) && !After(c, Read(start, a, i))
    ensures RunDoes(cfg, link, start, more, ops + Pushes(Slots(cfg, start, a)[i..j]), Read(start, a, j - 1))
    decreases j - i
  {
    var s := Slots(cfg, start, a);
    hide RunDoes, Slots, Second, Setting;
    FirstPush(ops, s, i, j);
    more := OneArrival(cfg, link, start, a, turns, ops, c, i);
    if i + 1 < j {
      SecondsOrdered(start, a, i, i + 1);
      more := ManyPushes(cfg, link, start, a, more, ops + [OpPush(s[i])], Read(start, a, i), i + 1, j);
    } else {
      assert ops + [OpPush(s[i])] + Pushes(s[i + 1..j]) == ops + [OpPush(s[i])];
    }
  }

  /** All that arrived up to a[k] has expired when the clock shows Later. */
  lemma LaterExpired(cfg: Config, start: TimeVal, a: seq<Arrived>, k: nat)
    requires k < |a|
    ensures AllExpired(Slots(cfg, start, a)[..k + 1], Later(start, a, k))
  {
    var s := Slots(cfg, start, a);
    hide Slots, Stamp, Second;
    forall x | x in s[..k + 1]
      ensures After(Later(start, a, k), x.ts)
    {
      var m :| 0 <= m <= k && s[m] == x;
      SlotIs(cfg, start, a, m);
      SecondsOrdered(start, a, m, k);
      StampTimes(Later(start, a, k), Read(start, a, m), cfg.delay % 10000);
    }
  }

  /** What starts a tie, other than one with the first of all, arrives after the others have expired. */
  lemma BurstStarts(cfg: Config, start: TimeVal, a: seq<Arrived>, i: nat, j: nat)
    requires 1 <= i < j < |a|
    requires var s := Slots(cfg, start, a); Tied(Cmp(), s[i], s[j]) && !Tied(Cmp(), s[i - 1], s[j])
    ensures !After(Later(start, a, i - 1), Read(start, a, i))
  {
    var s := Slots(cfg, start, a);
    SlotIs(cfg, start, a, i - 1);
    SlotIs(cfg, start, a, i);
    TiedMeans(s[i], s[j]);
    TiedMeans(s[i - 1], s[j]);
    StampTimes(Read(start, a, i), Read(start, a, i - 1), cfg.delay % 10000);
    hide Slots, Stamp;
    NextSecond(start, a, i);
  }

  lemma TimesOrdered(start: TimeVal, a: seq<Arrived>, i: nat)
    requires 1 <= i <= |a|
    ensures !After(start, Read(start, a, 0))
    ensures !After(Read(start, a, i - 1), Later(start, a, i - 1))
    ensures i < |a| ==> !After(Read(start, a, i - 1), Read(start, a, i))
  {
    SecondsOrdered(start, a, i - 1, if i < |a| then i else i - 1);
  }

  /** A run in which the first i packets arrive and all but one of them leave. */
  lemma HoldOneRun(cfg: Config, link: Affected, start: TimeVal, a: seq<Arrived>, i: nat) returns (turns: seq<Turn>)
    requires DelayDefined(cfg) && Setting(cfg, link, a) && 1 <= i <= |a|
    ensures RunDoes(cfg, link, start, turns, HoldOne(Slots(cfg, start, a)[..i]),
                    if i == 1 then Read(start, a, 0) else Later(start, a, i - 1))
  {
    var first := Slots(cfg, start, a)[..i];
    hide RunDoes, Slots, Second, Setting, Pushed, AllExpired, Read, Later, DelayDefined, After, Pushes, Pops;
    StartDoes(cfg, link, start);
    LaterExpired(cfg, start, a, i - 1);
    PushesRun(first);
    TimesOrdered(start, a, i);
    turns := ManyPushes(cfg, link, start, a, [], [], start, 0, i);
    assert Slots(cfg, start, a)[0..i] == first && [] + Pushes(first) == Pushes(first);
    turns := ManyPops(cfg, link, start, turns, Pushes(first), Read(start, a, i - 1), Later(start, a, i - 1), i - 1);
  }

  lemma PushedSoFar(first: seq<Slot>, t: seq<Slot>)
    requires first != []
    ensures Pushed(HoldOne(first) + Pushes(t)) == first + t
  {
    PushesRun(first);
    PushesRun(t);
    PopsPushNothing<Slot>(|first| - 1);
    PushedConcat(Pushes(first), Pops(|first| - 1));
    PushedConcat(HoldOne(first), Pushes(t));
    hide Pushed, Pushes, Pops;
  }

  /** A run that does what Misorder does with the first j + 1 arrivals. */
  lemma MisorderRun(cfg: Config, link: Affected, start: TimeVal, a: seq<Arrived>, i: nat, j: nat)
    returns (turns: seq<Turn>)
    requires DelayDefined(cfg) && Setting(cfg, link, a) && 1 <= i < j < |a|
    requires var s := Slots(cfg, start, a); Tied(Cmp(), s[i], s[j]) && (i == 1 || !Tied(Cmp(), s[i - 1], s[j]))
    ensures var s := Slots(cfg, start, a);
            RunDoes(cfg, link, start, turns, Misorder(s[..i], s[i..j + 1]), Later(start, a, j))
  {
    var c := if i == 1 then Read(start, a, 0) else Later(start, a, i - 1);
    TimesOrdered(start, a, i);
    if i > 1 {
      BurstStarts(cfg, start, a, i, j);
    }
    hide Tied, Second, RunDoes, Slots, Setting, HoldOne, Read, Later, DelayDefined, After, Misorder;
    turns := HoldOneRun(cfg, link, start, a, i);
    turns := LetOvertake(cfg, link, start, a, turns, c, i, j);
  }

  /** The second half of that run: the others up to a[j] arrive, and two packets leave. */
  lemma LetOvertake(cfg: Config, link: Affected, start: TimeVal, a: seq<Arrived>, turns: seq<Turn>, c: TimeVal,
                    i: nat, j: nat) returns (more: seq<Turn>)
    requires DelayDefined(cfg) && Setting(cfg, link, a) && 1 <= i < j < |a|
    requires RunDoes(cfg, link, start, turns, HoldOne(Slots(cfg, start, a)[..i]), c) && !After(c, Read(start, a, i))
    ensures var s := Slots(cfg, start, a);
            RunDoes(cfg, link, start, more, Misorder(s[..i], s[i..j + 1]), Later(start, a, j))
  {
    hide Second, RunDoes, Slots, Setting, Pushed, HoldOne, AllExpired, Read, Later, DelayDefined, After, Pushes, Pops;
    var s := Slots(cfg, start, a);
    var first, t := s[..i], s[i..j + 1];
    TimesOrdered(start, a, j + 1);
    more := ManyPushes(cfg, link, start, a, turns, HoldOne(first), c, i, j + 1);
    PushedSoFar(first, t);
    assert first + t == s[..j + 1];
    LaterExpired(cfg, start, a, j);
    more := ManyPops(cfg, link, start, more, HoldOne(first) + Pushes(t), Read(start, a, j), Later(start, a, j), 2);
  }

  lemma StartDoes(cfg: Config, link: Affected, start: TimeVal)
    requires DelayDefined(cfg)
    ensures RunDoes(cfg, link, start, [], [], start)
  {
  }

  /** Of each kind, packets have left in the order of their arrival, and none was left out. */
  ghost predicate KeepsOrder<K(!new)>(kind: Direction -> K, p: Proxy) {
    InTurn(SlotKind(kind), p.queued, p.delivered)
  }

  /** Packets are queued as in `a`. In every run on a clock that does not fall back, however many of
      them have arrived, those of each kind leave in arrival order if and only if, behind the first
      of all, no two different ones of a kind come together. */
  lemma ArrivalOrderIff<K(!new)>(cfg: Config, link: Affected, start: TimeVal, kind: Direction -> K, a: seq<Arrived>)
    requires DelayDefined(cfg) && Setting(cfg, link, a)
    ensures (forall turns :: ClockMonotone(cfg, link, start, turns)
                             && Matches(RunProxy(cfg, link, start, turns).queued, a) ==>
                             KeepsOrder(kind, RunProxy(cfg, link, start, turns)))
            <==> OnlyFirstTogether(kind, a)
  {
    hide RunProxy, ClockMonotone, Matches, OnlyFirstTogether, Setting, OfKind;
    if OnlyFirstTogether(kind, a) {
      forall turns | ClockMonotone(cfg, link, start, turns) && Matches(RunProxy(cfg, link, start, turns).queued, a)
        ensures KeepsOrder(kind, RunProxy(cfg, link, start, turns))
      {
        KeptOrder(cfg, link, start, kind, a, turns);
      }
    } else {
      var turns := LostOrder(cfg, link, start, kind, a);
    }
  }

  lemma KeptOrder<K(!new)>(cfg: Config, link: Affected, start: TimeVal, kind: Direction -> K, a: seq<Arrived>,
                           turns: seq<Turn>)
    requires DelayDefined(cfg) && Setting(cfg, link, a) && OnlyFirstTogether(kind, a)
    requires ClockMonotone(cfg, link, start, turns) && Matches(RunProxy(cfg, link, start, turns).queued, a)
    ensures KeepsOrder(kind, RunProxy(cfg, link, start, turns))
  {
    hide RunProxy, ClockMonotone, Matches, OnlyFirstTogether, OfKind, Sorted, OnlyFirstTies, Heap;
    StampsInOrder(cfg, link, start, turns);
    HarmlessArrivals(kind, a, RunProxy(cfg, link, start, turns).queued);
    DeliveryOrder(SlotKind(kind), cfg, link, start, turns);
  }

  lemma LostOrder<K(!new)>(cfg: Config, link: Affected, start: TimeVal, kind: Direction -> K, a: seq<Arrived>)
    returns (turns: seq<Turn>)
    requires DelayDefined(cfg) && Setting(cfg, link, a) && !OnlyFirstTogether(kind, a)
    ensures ClockMonotone(cfg, link, start, turns)
    ensures var p := RunProxy(cfg, link, start, turns);
            Matches(p.queued, a) && !KeepsOrder(kind, p)
  {
    var i, j := LostOrderSlots(cfg, start, kind, a);
    hide Slots, Setting, RunProxy, ClockMonotone, Matches, InTurn, Tied, Misorder, Pushed, Popped, RunOps,
         OnlyFirstTogether;
    turns := MisorderRun(cfg, link, start, a, i, j);
  }

  lemma LostOrderSlots<K(!new)>(cfg: Config, start: TimeVal, kind: Direction -> K, a: seq<Arrived>)
    returns (i: nat, j: nat)
    requires !OnlyFirstTogether(kind, a)
    ensures 1 <= i < j < |a|
    ensures var s := Slots(cfg, start, a);
            Tied(Cmp(), s[i], s[j]) && (i == 1 || !Tied(Cmp(), s[i - 1], s[j]))
    ensures var s := Slots(cfg, start, a);
            var ops := Misorder(s[..i], s[i..j + 1]);
            && Matches(Pushed(ops), a)
            && !InTurn(SlotKind(kind), Pushed(ops), Popped(Cmp(), ops))
  {
    SlotsSorted(cfg, start, a);
    TogetherTies(cfg, start, kind, a);
    hide Slots, Sorted, OnlyFirstTies, Matches, InTurn, OnlyFirstTogether, Pushed, Popped, Misorder, Tied;
    i, j := FindMisorder(kind, a, Slots(cfg, start, a));
  }

  lemma FindMisorder<K(!new)>(kind: Direction -> K, a: seq<Arrived>, s: seq<Slot>) returns (i: nat, j: nat)
    requires Sorted(Cmp(), s) && Matches(s, a) && !OnlyFirstTies(Cmp(), SlotKind(kind), s)
    ensures 1 <= i < j < |s| && Tied(Cmp(), s[i], s[j]) && (i == 1 || !Tied(Cmp(), s[i - 1], s[j]))
    ensures var ops := Misorder(s[..i], s[i..j + 1]);
            Matches(Pushed(ops), a) && !InTurn(SlotKind(kind), Pushed(ops), Popped(Cmp(), ops))
  {
    SlotOrder();
    hide StrictWeakOrder, Sorted, OnlyFirstTies, Matches, InTurn, Pushed, Popped, Misorder, Tied;
    var m;
    i, m, j := FindMisfit(Cmp(), SlotKind(kind), s);
    Misordered(Cmp(), SlotKind(kind), s, i, m, j);
    MatchesFirst(s, a, j + 1);
    var popped := Popped(Cmp(), Misorder(s[..i], s[i..j + 1]));
    if InTurn(SlotKind(kind), s[..j + 1], popped) {
      InTurnOfMore(SlotKind(kind), s[..j + 1], s, popped);
    }
  }

  lemma TogetherTies<K(!new)>(cfg: Config, start: TimeVal, kind: Direction -> K, a: seq<Arrived>)
    requires !OnlyFirstTogether(kind, a)
    ensures !OnlyFirstTies(Cmp(), SlotKind(kind), Slots(cfg, start, a))
  {
    var s := Slots(cfg, start, a);
    hide Slots, Stamp, Second;
    var i, j :| 1 <= i < j < |a| && Burst(a, i, j) && kind(a[i].g.direction) == kind(a[j].g.direction)
                && a[i].g != a[j].g;
    SlotIs(cfg, start, a, i);
    SlotIs(cfg, start, a, j);
    BurstSecond(start, a, i, j);
    TiedMeans(s[i], s[j]);
    assert ToDatagram(s[i]) != ToDatagram(s[j]);
    assert SlotKind(kind)(s[i]) == SlotKind(kind)(s[j]);
  }

  /** All packets are of one kind. */
  function OneKind(): Direction -> int {
    (d: Direction) => 0
  }

  lemma {:induction false} AllOfOneKind(s: seq<Slot>, k: int)
    ensures OfKind(s, SlotKind(OneKind()), k) == if k == 0 then s else []
  {
    if |s| > 0 {
      AllOfOneKind(s[..|s| - 1], k);
      assert s == s[..|s| - 1] + [s[|s| - 1]];
    }
  }

  lemma WholeOrder(p: Proxy)
    ensures KeepsOrder(OneKind(), p) <==> p.delivered <= p.queued
  {
    AllOfOneKind(p.delivered, 0);
    AllOfOneKind(p.queued, 0);
    hide OfKind, SlotKind;
    forall k: int
      ensures k != 0 ==> OfKind(p.delivered, SlotKind(OneKind()), k) <= OfKind(p.queued, SlotKind(OneKind()), k)
    {
      AllOfOneKind(p.delivered, k);
      AllOfOneKind(p.queued, k);
    }
  }

  /** The same for the order of all packets, whatever their direction. */
  lemma WholeOrderIff(cfg: Config, link: Affected, start: TimeVal, a: seq<Arrived>)
    requires DelayDefined(cfg) && Setting(cfg, link, a)
    ensures (forall turns :: ClockMonotone(cfg, link, start, turns)
                             && Matches(RunProxy(cfg, link, start, turns).queued, a) ==>
                             RunProxy(cfg, link, start, turns).delivered <= RunProxy(cfg, link, start, turns).queued)
            <==> forall i, j :: 1 <= i < j < |a| && Burst(a, i, j) ==> a[i].g == a[j].g
  {
    ArrivalOrderIff(cfg, link, start, OneKind(), a);
    assert OnlyFirstTogether(OneKind(), a) <==>
           forall i, j :: 1 <= i < j < |a| && Burst(a, i, j) ==> a[i].g == a[j].g;
    hide RunProxy, ClockMonotone, Matches, Setting, Burst, KeepsOrder, OnlyFirstTogether, DelayDefined;
    forall turns
      ensures var p := RunProxy(cfg, link, start, turns); KeepsOrder(OneKind(), p) <==> p.delivered <= p.queued
    {
      WholeOrder(RunProxy(cfg, link, start, turns));
    }
  }

  // ---------- Packets that arrive in the same instant ----------

  /** Turn t receives, at clock c, a datagram that is queued. */
  predicate ArrivesAt(link: Affected, c: TimeVal, t: Turn) {
    && Accepts(t) && t.clock == c && Suffers(t.receipt.direction, link)
    && t.slotMemory && t.heapMemory
  }

  predicate AllArriveAt(link: Affected, c: TimeVal, turns: seq<Turn>) {
    forall i :: 0 <= i < |turns| ==> ArrivesAt(link, c, turns[i])
  }

  /** The slots of the datagrams of such turns. */
  function SlotsAt(cfg: Config, link: Affected, c: TimeVal, turns: seq<Turn>): (s: seq<Slot>)
    requires AllArriveAt(link, c, turns)
    ensures |s| == |turns|
    ensures forall i :: 0 <= i < |s| ==>
              s[i] == Slot(Stamp(c, cfg.delay % 10000), turns[i].receipt.direction, turns[i].receipt.buf)
  {
    seq(|turns|, i requires 0 <= i < |turns| =>
      Slot(Stamp(c, cfg.delay % 10000), turns[i].receipt.direction, turns[i].receipt.buf))
  }

  lemma SameStampTied(s: seq<Slot>)
    requires forall i, j :: 0 <= i < |s| && 0 <= j < |s| ==> s[i].ts == s[j].ts
    ensures AllTied(Cmp(), s)
  {
  }

  /** All packets of these turns wait in the queue, in order. */
  ghost predicate Waiting(cfg: Config, link: Affected, p: Proxy, c: TimeVal, turns: seq<Turn>) {
    && AllArriveAt(link, c, turns)
    && p.running && p.delivered == []
    && p.queue == p.queued == SlotsAt(cfg, link, c, turns)
  }

  lemma {:induction false} TiedArrivals(cfg: Config, link: Affected, start: TimeVal, c: TimeVal, turns: seq<Turn>)
    requires DelayOnly(cfg) && DelayDefined(cfg) && cfg.delay > 0 && AllArriveAt(link, c, turns)
    ensures Waiting(cfg, link, RunProxy(cfg, link, start, turns), c, turns)
    decreases |turns|
  {
    if |turns| > 0 {
      var n := |turns| - 1;
      RunOneMore(cfg, link, start, turns);
      ArriveBefore(link, c, turns);
      hide RunProxy, Step, Waiting, DelayOnly, DelayDefined, ArrivesAt, AllArriveAt;
      assert turns == turns[..n] + [turns[n]];
      TiedArrivals(cfg, link, start, c, turns[..n]);
      TiedArrival(cfg, link, RunProxy(cfg, link, start, turns[..n]), c, turns[..n], turns[n]);
    }
  }

  lemma ArriveBefore(link: Affected, c: TimeVal, turns: seq<Turn>)
    requires AllArriveAt(link, c, turns) && |turns| > 0
    ensures AllArriveAt(link, c, turns[..|turns| - 1]) && ArrivesAt(link, c, turns[|turns| - 1])
  {
  }

  lemma TiedArrival(cfg: Config, link: Affected, p: Proxy, c: TimeVal, turns: seq<Turn>, t: Turn)
    requires DelayOnly(cfg) && DelayDefined(cfg) && cfg.delay > 0
    requires Waiting(cfg, link, p, c, turns) && ArrivesAt(link, c, t)
    ensures Waiting(cfg, link, Step(cfg, link, p, t), c, turns + [t])
  {
    var s := SlotsAt(cfg, link, c, turns);
    var slot := Slot(Stamp(c, cfg.delay % 10000), t.receipt.direction, t.receipt.buf);
    OneSlotMore(cfg, link, c, turns, t, slot);
    SameStampTied(s + [slot]);
    TiedPush(Cmp(), s, slot);
    NotDueYet(c, cfg.delay % 10000);
    DatagramsEmpty();
    hide SlotsAt, Stamp, DelayDefined, Datagrams, Push, Deliver;
    assert p.queue != [] ==> p.queue[0].ts == slot.ts;
    DeliverStep(p.queue, c, t.writes, 0);
    StepShape(cfg, link, p, t);
    hide Step;
    assert Delivered(p, c, Delivery(true, p.queue, [])) == p.(clock := c) by {
      assert p.wire + [] == p.wire && p.delivered + [] == p.delivered;
    }
  }

  lemma OneSlotMore(cfg: Config, link: Affected, c: TimeVal, turns: seq<Turn>, t: Turn, slot: Slot)
    requires AllArriveAt(link, c, turns) && ArrivesAt(link, c, t)
    requires slot == Slot(Stamp(c, cfg.delay % 10000), t.receipt.direction, t.receipt.buf)
    ensures AllArriveAt(link, c, turns + [t])
    ensures SlotsAt(cfg, link, c, turns + [t]) == SlotsAt(cfg, link, c, turns) + [slot]
    ensures forall x :: x in SlotsAt(cfg, link, c, turns) + [slot] ==> x.ts == slot.ts
  {
  }

  lemma NotDueYet(c: TimeVal, delay: nat)
    ensures !After(c, Stamp(c, delay))
  {
  }

  /** If every stamp has passed and no send fails, a call of deliver_delayed_pkt pops until empty. */
  lemma {:induction false} DeliverIsDrain(queue: seq<Slot>, clock: TimeVal, writes: seq<Write>, k: nat)
    requires forall s :: s in queue ==> Eligible(clock, s)
    requires forall i :: 0 <= i < |writes| ==> writes[i] == Written
    ensures Deliver(queue, clock, writes, k) == Delivery(true, [], Drain(Cmp(), queue))
    decreases |queue|
  {
    hide Deliver, Pop, Eligible;
    DeliverStep(queue, clock, writes, k);
    if |queue| > 0 {
      assert Eligible(clock, queue[0]);
      PopContents(Cmp(), queue);
      Members(Pop(Cmp(), queue), queue);
      DeliverIsDrain(Pop(Cmp(), queue), clock, writes, k + 1);
      EligibleMeans(clock, queue[0]);
    }
  }

  lemma EligibleMeans(clock: TimeVal, s: Slot)
    requires Eligible(clock, s)
    ensures After(clock, s.ts)
  {
  }

  /** The advancing clock is needed. Of any number of packets queued at the same clock read, the
      first leaves first and the others in reverse: each pop moves the last slot to the root. So
      they leave in arrival order if and only if the rest reads the same in reverse; with packets
      that all differ, if and only if there are at most two. */
  lemma TiesReorderIff(cfg: Config, link: Affected, start: TimeVal, c: TimeVal, turns: seq<Turn>, late: Turn)
    requires DelayOnly(cfg) && DelayDefined(cfg) && cfg.delay > 0 && |turns| > 0
    requires AllArriveAt(link, c, turns)
    requires DrainsAll(SlotsAt(cfg, link, c, turns), late)
    ensures var p, s := RunProxy(cfg, link, start, turns + [late]), SlotsAt(cfg, link, c, turns);
            && p.queued == s && p.queue == []
            && p.delivered == [s[0]] + Reversed(s[1..])
            && (p.delivered == p.queued <==> Reversed(s[1..]) == s[1..])
            && ((forall i, j :: 0 <= i < j < |s| ==> s[i] != s[j]) ==>
                  (p.delivered == p.queued <==> |turns| <= 2))
  {
    hide Deliver, Step, Process, AllArriveAt, SlotsAt, DelayDefined, StrictWeakOrder;
    var s, p := SlotsAt(cfg, link, c, turns), RunProxy(cfg, link, start, turns);
    assert (turns + [late])[..|turns|] == turns;
    TiedArrivals(cfg, link, start, c, turns);
    LateTurn(cfg, link, p, late);
    hide RunProxy, Drain;
    SlotsTied(cfg, link, c, turns);
    TiedDrain(Cmp(), s);
    TiedOrderIff(s);
  }

  lemma LateTurn(cfg: Config, link: Affected, p: Proxy, late: Turn)
    requires DelayDefined(cfg) && p.running && p.delivered == [] && DrainsAll(p.queue, late)
    ensures var q := Step(cfg, link, p, late);
            q.queued == p.queued && q.queue == [] && q.delivered == Drain(Cmp(), p.queue)
  {
    StepShape(cfg, link, p, late);
    DeliverIsDrain(p.queue, late.clock, late.writes, 0);
    hide Deliver, Step, Drain, Datagrams;
  }

  lemma SlotsTied(cfg: Config, link: Affected, c: TimeVal, turns: seq<Turn>)
    requires AllArriveAt(link, c, turns)
    ensures AllTied(Cmp(), SlotsAt(cfg, link, c, turns))
  {
    SameStampTied(SlotsAt(cfg, link, c, turns));
  }

  lemma TiedOrderIff(s: seq<Slot>)
    requires |s| > 0
    ensures [s[0]] + Reversed(s[1..]) == s <==> Reversed(s[1..]) == s[1..]
    ensures (forall i, j :: 0 <= i < j < |s| ==> s[i] != s[j]) ==> (Reversed(s[1..]) == s[1..] <==> |s| <= 2)
  {
    hide Reversed;
    assert s == [s[0]] + s[1..];
    assert ([s[0]] + Reversed(s[1..]))[1..] == Reversed(s[1..]);
    if forall i, j :: 0 <= i < j < |s| ==> s[i] != s[j] {
      ReverseFixedIff(s[1..]);
    }
  }
}
