/** Sender and receiver with the link simulator between them: the transfer is right, and can be
    completed, whatever the link, as long as it only delays. */
module TransferOverLink {
  import opened Bytes
  import opened ChannelProofs
  import opened Clock
  import opened HeapSpec
  import opened HeapTies
  import opened LinkFaults
  import opened Options
  import opened Packet
  import P = Protocol
  import PP = ProtocolProofs
  import opened ProxyProofs
  import opened ProxySpec
  import R = ReceiverSpec
  import S = SenderSpec

  /** The link: what it does, in which direction, and the clock when it starts. */
  datatype Link = Link(cfg: Config, affected: Affected, clock: TimeVal)

  /** The three programs. The proxy is the state after its `turns`; `forward` and `backward` are all
      datagrams that sender and receiver have sent, of which the proxy has read the first
      `readForward` and `readBackward`, and the far ends have taken the first `taken` and
      `acknowledged` that came out. */
  datatype Net = Net(
    s: S.Sender,
    r: R.Receiver,
    turns: seq<Turn>,
    forward: seq<seq<byte>>,
    backward: seq<seq<byte>>,
    readForward: nat,
    readBackward: nat,
    taken: nat,
    acknowledged: nat)

  datatype Action = Ends(a: P.Action) | ProxyTurn(t: Turn)

  function Bufs(s: seq<Datagram>): (b: seq<seq<byte>>)
    ensures |b| == |s|
    ensures forall i :: 0 <= i < |b| ==> b[i] == s[i].buf
  {
    seq(|s|, i requires 0 <= i < |s| => s[i].buf)
  }

  ghost function ProxyOf(l: Link, n: Net): Proxy
    requires DelayDefined(l.cfg)
  {
    RunProxy(l.cfg, l.affected, l.clock, n.turns)
  }

  /** What has come out of the proxy in one direction. */
  ghost function Out(l: Link, n: Net, d: Direction): seq<seq<byte>>
    requires DelayDefined(l.cfg)
  {
    Bufs(Only(ProxyOf(l, n).wire, d))
  }

  /** The proxy reads the datagrams of either party in the order in which they were sent. Its clock
      does not fall back, and packets of one direction that it queues with the same stamp, but for
      the first of all, do not differ. */
  ghost predicate TurnEnabled(l: Link, n: Net, t: Turn)
    requires DelayDefined(l.cfg)
  {
    && (t.Awake? ==> !After(ProxyOf(l, n).clock, t.clock))
    && TiesHarmless(ByDirection(), Step(l.cfg, l.affected, ProxyOf(l, n), t))
    && (t.Awake? && t.receipt.FromParty? ==>
          if t.receipt.direction == Forward
          then n.readForward < |n.forward| && t.receipt.buf == n.forward[n.readForward]
          else n.readBackward < |n.backward| && t.receipt.buf == n.backward[n.readBackward])
  }

  ghost predicate Enabled(l: Link, n: Net, a: Action)
    requires DelayDefined(l.cfg)
  {
    match a
    case ProxyTurn(t) => TurnEnabled(l, n, t)
    case Ends(SenderTop(tail)) =>
      n.s.phase == S.Top && S.SenderOk(n.s) && |tail| == DATA_SIZE - HEADER_SIZE
    case Ends(SenderPoll) =>
      n.s.phase == S.Poll && n.acknowledged < |Out(l, n, Reverse)| && Out(l, n, Reverse)[n.acknowledged] != []
    case Ends(SenderTimeout) => n.s.phase == S.Poll
    case Ends(ReceiverTurn) =>
      n.r.running && n.taken < |Out(l, n, Forward)| && R.Receivable(n.r, Out(l, n, Forward)[n.taken])
  }

  ghost function Next(l: Link, n: Net, a: Action): Net
    requires DelayDefined(l.cfg) && Enabled(l, n, a)
  {
    match a
    case ProxyTurn(t) =>
      var party := t.Awake? && t.receipt.FromParty?;
      n.(turns := n.turns + [t],
         readForward := if party && t.receipt.direction == Forward then n.readForward + 1 else n.readForward,
         readBackward := if party && t.receipt.direction == Reverse then n.readBackward + 1 else n.readBackward)
    case Ends(SenderTop(tail)) =>
      var x := S.AtTop(n.s, tail);
      n.(s := x.sender, forward := P.Queue(n.forward, x.message))
    case Ends(SenderPoll) =>
      n.(s := S.AfterPoll(n.s, S.Arrived(Out(l, n, Reverse)[n.acknowledged])), acknowledged := n.acknowledged + 1)
    case Ends(SenderTimeout) => n.(s := S.AfterPoll(n.s, S.TimedOut))
    case Ends(ReceiverTurn) =>
      var x := R.Receive(n.r, Out(l, n, Forward)[n.taken]);
      n.(r := x.receiver, taken := n.taken + 1, backward := P.Queue(n.backward, x.reply))
  }

  function InitialNet(input: seq<byte>, g: Fields, h: Fields): Net {
    Net(S.StartSender(input, g), R.Start(h), [], [], [], 0, 0, 0, 0)
  }

  /** The net after a sequence of actions; one that is not enabled does nothing. */
  ghost function ExecNet(l: Link, n: Net, acts: seq<Action>): Net
    requires DelayDefined(l.cfg)
    decreases |acts|
  {
    if |acts| == 0 then n
    else ExecNet(l, if Enabled(l, n, acts[0]) then Next(l, n, acts[0]) else n, acts[1..])
  }

  // ---------- The link implements the channels ----------

  /** Sender and receiver as if joined by channels: under way is what was sent and not yet taken. */
  ghost function Abstract(n: Net): P.System
    requires n.taken <= |n.forward| && n.acknowledged <= |n.backward|
  {
    P.System(n.s, n.r, n.forward[n.taken..], n.backward[n.acknowledged..])
  }

  ghost predicate LongEnough(msgs: seq<seq<byte>>) {
    forall i :: 0 <= i < |msgs| ==> |msgs[i]| >= MIN_PKT_LEN
  }

  /** The proxy has read the first datagrams sent, in order. */
  ghost predicate ReadInOrder(n: Net) {
    && n.readForward <= |n.forward| && n.readBackward <= |n.backward|
    && Bufs(Only(Arrivals(n.turns), Forward)) == n.forward[..n.readForward]
    && Bufs(Only(Arrivals(n.turns), Reverse)) == n.backward[..n.readBackward]
  }

  /** The clock of the proxy and the ties in its queue have been as TurnEnabled demands. */
  ghost predicate Orderly(l: Link, n: Net)
    requires DelayDefined(l.cfg)
  {
    ClockMonotone(l.cfg, l.affected, l.clock, n.turns) && TiesHarmless(ByDirection(), ProxyOf(l, n))
  }

  ghost predicate NetInv(input: seq<byte>, l: Link, n: Net)
    requires DelayDefined(l.cfg)
  {
    && Orderly(l, n)
    && LongEnough(n.forward) && LongEnough(n.backward)
    && ReadInOrder(n)
    && n.taken <= |n.forward| && n.acknowledged <= |n.backward|
    && P.Inv(input, Abstract(n))
  }

  lemma BufsPrefix(s: seq<Datagram>, t: seq<Datagram>)
    requires s <= t
    ensures Bufs(s) <= Bufs(t)
  {
  }

  /** Whatever has come out of the proxy is what was sent, in order. */
  lemma OutWasSent(l: Link, n: Net, d: Direction)
    requires DelayDefined(l.cfg) && DelayOnly(l.cfg)
    requires Orderly(l, n) && ReadInOrder(n)
    ensures Out(l, n, d) <= if d == Forward then n.forward else n.backward
  {
    LosslessFifoChannel(l.cfg, l.affected, l.clock, n.turns);
    var p := RunProxy(l.cfg, l.affected, l.clock, n.turns);
    BufsPrefix(Only(p.wire, d), Only(Arrivals(n.turns), d));
    hide RunProxy, Only, Arrivals, Bufs, ClockMonotone, TiesHarmless, NothingLost;
  }

  lemma RunThenStep(l: Link, turns: seq<Turn>, t: Turn)
    requires DelayDefined(l.cfg)
    ensures RunProxy(l.cfg, l.affected, l.clock, turns + [t]) ==
            Step(l.cfg, l.affected, RunProxy(l.cfg, l.affected, l.clock, turns), t)
  {
    assert (turns + [t])[..|turns|] == turns;
    RunOneMore(l.cfg, l.affected, l.clock, turns + [t]);
    hide RunProxy, Step;
  }

  lemma OrderlyOnceMore(l: Link, n: Net, t: Turn)
    requires DelayDefined(l.cfg) && Orderly(l, n) && TurnEnabled(l, n, t)
    ensures Orderly(l, Next(l, n, ProxyTurn(t)))
  {
    hide RunProxy, Step, ClockMonotone, TiesHarmless;
    MonotoneOnceMore(l.cfg, l.affected, l.clock, n.turns, t);
    RunThenStep(l, n.turns, t);
  }

  lemma ArrivalsOneMore(turns: seq<Turn>, t: Turn, d: Direction)
    ensures Only(Arrivals(turns + [t]), d) ==
            Only(Arrivals(turns), d) +
            if Accepts(t) && t.receipt.direction == d then [Datagram(d, t.receipt.buf)] else []
  {
    assert (turns + [t])[..|turns|] == turns;
    if Accepts(t) {
      OnlyOne(Arrivals(turns), Arrival(t), d);
    } else {
      assert Arrivals(turns + [t]) == Arrivals(turns);
    }
    hide Only;
  }

  lemma BufsOneMore(s: seq<Datagram>, g: Datagram)
    ensures Bufs(s + [g]) == Bufs(s) + [g.buf]
  {
  }

  lemma ReadOneMore(turns: seq<Turn>, t: Turn, d: Direction, sent: seq<seq<byte>>, read: nat)
    requires read <= |sent| && LongEnough(sent)
    requires Bufs(Only(Arrivals(turns), d)) == sent[..read]
    requires t.Awake? && t.receipt.FromParty? && t.receipt.direction == d ==>
               read < |sent| && t.receipt.buf == sent[read]
    ensures var next := if t.Awake? && t.receipt.FromParty? && t.receipt.direction == d then read + 1 else read;
            next <= |sent| && Bufs(Only(Arrivals(turns + [t]), d)) == sent[..next]
  {
    ArrivalsOneMore(turns, t, d);
    hide Only, Arrivals, Bufs;
    if t.Awake? && t.receipt.FromParty? && t.receipt.direction == d {
      BufsOneMore(Only(Arrivals(turns), d), Datagram(d, t.receipt.buf));
      assert sent[..read + 1] == sent[..read] + [sent[read]];
    } else {
      assert Only(Arrivals(turns), d) + [] == Only(Arrivals(turns), d);
    }
  }

  /** A turn of the proxy changes nothing that sender and receiver can tell. */
  lemma ProxyTurnInv(input: seq<byte>, l: Link, n: Net, t: Turn)
    requires DelayDefined(l.cfg) && NetInv(input, l, n) && Enabled(l, n, ProxyTurn(t))
    ensures NetInv(input, l, Next(l, n, ProxyTurn(t)))
  {
    hide P.Inv, Orderly, ProxyOf, Step, TiesHarmless, Only, Arrivals, Bufs, LongEnough;
    OrderlyOnceMore(l, n, t);
    ReadOneMore(n.turns, t, Forward, n.forward, n.readForward);
    ReadOneMore(n.turns, t, Reverse, n.backward, n.readBackward);
  }

  lemma MessageLong(s: S.Sender, tail: seq<byte>)
    requires S.SenderOk(s)
    ensures var m := S.AtTop(s, tail).message; m.Some? ==> |m.value| >= MIN_PKT_LEN
  {
    hide Wire, S.NextChunk, ToByte;
  }

  lemma ReplyLong(r: R.Receiver, data: seq<byte>)
    requires R.Receivable(r, data)
    ensures var m := R.Receive(r, data).reply; m.Some? ==> |m.value| >= MIN_PKT_LEN
  {
    hide Decode, Wire, R.Store, ToInt;
  }

  lemma TopRefines(l: Link, n: Net, tail: seq<byte>)
    requires DelayDefined(l.cfg) && n.taken <= |n.forward| && n.acknowledged <= |n.backward|
    requires Enabled(l, n, Ends(P.SenderTop(tail)))
    ensures Refined(l, n, P.SenderTop(tail))
  {
    hide Out, S.AtTop;
    QueueAfter(n.forward, n.taken, S.AtTop(n.s, tail).message);
  }

  lemma PollRefines(l: Link, n: Net)
    requires DelayDefined(l.cfg) && n.taken <= |n.forward| && n.acknowledged <= |n.backward|
    requires Enabled(l, n, Ends(P.SenderPoll)) && Out(l, n, Reverse) <= n.backward
    ensures Refined(l, n, P.SenderPoll)
  {
    hide Out, S.TakeReply;
    assert n.backward[n.acknowledged..][0] == Out(l, n, Reverse)[n.acknowledged];
    assert n.backward[n.acknowledged..][1..] == n.backward[n.acknowledged + 1..];
  }

  lemma ReceiverRefines(l: Link, n: Net)
    requires DelayDefined(l.cfg) && n.taken <= |n.forward| && n.acknowledged <= |n.backward|
    requires Enabled(l, n, Ends(P.ReceiverTurn)) && Out(l, n, Forward) <= n.forward
    ensures Refined(l, n, P.ReceiverTurn)
  {
    hide Out, R.Receive, R.Receivable;
    var data := Out(l, n, Forward)[n.taken];
    assert n.forward[n.taken..][0] == data;
    assert n.forward[n.taken..][1..] == n.forward[n.taken + 1..];
    QueueAfter(n.backward, n.acknowledged, R.Receive(n.r, data).reply);
  }

  /** A step of sender or receiver is a step of the two joined by channels. */
  ghost predicate Refined(l: Link, n: Net, a: P.Action)
    requires DelayDefined(l.cfg) && n.taken <= |n.forward| && n.acknowledged <= |n.backward|
    requires Enabled(l, n, Ends(a))
  {
    var m := Next(l, n, Ends(a));
    && P.Enabled(Abstract(n), a)
    && m.taken <= |m.forward| && m.acknowledged <= |m.backward|
    && Abstract(m) == P.Next(Abstract(n), a)
  }

  lemma EndsRefine(input: seq<byte>, l: Link, n: Net, a: P.Action)
    requires DelayDefined(l.cfg) && DelayOnly(l.cfg) && NetInv(input, l, n) && Enabled(l, n, Ends(a))
    ensures Refined(l, n, a)
  {
    hide P.Inv, Out, Orderly, ReadInOrder, LongEnough, Refined;
    OutWasSent(l, n, Forward);
    OutWasSent(l, n, Reverse);
    match a {
      case SenderTop(tail) => TopRefines(l, n, tail);
      case SenderPoll => PollRefines(l, n);
      case SenderTimeout => TimeoutRefines(l, n);
      case ReceiverTurn => ReceiverRefines(l, n);
    }
  }

  lemma TimeoutRefines(l: Link, n: Net)
    requires DelayDefined(l.cfg) && n.taken <= |n.forward| && n.acknowledged <= |n.backward|
    requires Enabled(l, n, Ends(P.SenderTimeout))
    ensures Refined(l, n, P.SenderTimeout)
  {
    hide Out;
  }

  lemma QueueAfter(q: seq<seq<byte>>, i: nat, m: Option<seq<byte>>)
    requires i <= |q|
    ensures P.Queue(q, m)[i..] == P.Queue(q[i..], m)
    ensures q <= P.Queue(q, m)
  {
  }

  lemma StillReadInOrder(n: Net, m: Net)
    requires ReadInOrder(n) && m.turns == n.turns
    requires m.readForward == n.readForward && m.readBackward == n.readBackward
    requires n.forward <= m.forward && n.backward <= m.backward
    ensures ReadInOrder(m)
  {
    hide Only, Arrivals, Bufs;
    assert n.forward[..n.readForward] == m.forward[..n.readForward];
    assert n.backward[..n.readBackward] == m.backward[..n.readBackward];
  }

  lemma StillOrderly(l: Link, n: Net, m: Net)
    requires DelayDefined(l.cfg) && Orderly(l, n) && m.turns == n.turns
    ensures Orderly(l, m)
  {
    hide ClockMonotone, TiesHarmless;
  }

  lemma QueueLong(q: seq<seq<byte>>, m: Option<seq<byte>>)
    requires LongEnough(q) && (m.Some? ==> |m.value| >= MIN_PKT_LEN)
    ensures LongEnough(P.Queue(q, m)) && q <= P.Queue(q, m)
  {
  }

  /** Sender and receiver only add to what was sent, and nothing too short for the proxy. */
  lemma EndsSend(l: Link, n: Net, a: P.Action)
    requires DelayDefined(l.cfg) && Enabled(l, n, Ends(a)) && LongEnough(n.forward) && LongEnough(n.backward)
    ensures var m := Next(l, n, Ends(a));
            && m.turns == n.turns && m.readForward == n.readForward && m.readBackward == n.readBackward
            && n.forward <= m.forward && n.backward <= m.backward
            && LongEnough(m.forward) && LongEnough(m.backward)
  {
    hide LongEnough, Out, S.AtTop, S.TakeReply, R.Receive, R.Receivable, P.Queue;
    match a {
      case SenderTop(tail) =>
        MessageLong(n.s, tail);
        QueueLong(n.forward, S.AtTop(n.s, tail).message);
      case SenderPoll =>
      case SenderTimeout =>
      case ReceiverTurn =>
        var data := Out(l, n, Forward)[n.taken];
        ReplyLong(n.r, data);
        QueueLong(n.backward, R.Receive(n.r, data).reply);
    }
  }

  lemma EndsInv(input: seq<byte>, l: Link, n: Net, a: P.Action)
    requires DelayDefined(l.cfg) && DelayOnly(l.cfg) && NetInv(input, l, n) && Enabled(l, n, Ends(a))
    ensures NetInv(input, l, Next(l, n, Ends(a)))
  {
    hide P.Inv, P.Next, P.Enabled, Enabled, Next, Orderly, LongEnough, ReadInOrder;
    EndsRefine(input, l, n, a);
    PP.NextInv(input, Abstract(n), a);
    EndsSend(l, n, a);
    StillReadInOrder(n, Next(l, n, Ends(a)));
    StillOrderly(l, n, Next(l, n, Ends(a)));
  }

  lemma {:induction false} ExecNetInv(input: seq<byte>, l: Link, n: Net, acts: seq<Action>)
    requires DelayDefined(l.cfg) && DelayOnly(l.cfg) && NetInv(input, l, n)
    ensures NetInv(input, l, ExecNet(l, n, acts))
    decreases |acts|
  {
    hide NetInv, Enabled, Next;
    if |acts| > 0 {
      if Enabled(l, n, acts[0]) {
        match acts[0] {
          case ProxyTurn(t) => ProxyTurnInv(input, l, n, t);
          case Ends(a) => EndsInv(input, l, n, a);
        }
        ExecNetInv(input, l, Next(l, n, acts[0]), acts[1..]);
      } else {
        ExecNetInv(input, l, n, acts[1..]);
      }
    }
  }

  lemma InitialNetInv(input: seq<byte>, l: Link, g: Fields, h: Fields)
    requires DelayDefined(l.cfg)
    ensures NetInv(input, l, InitialNet(input, g, h))
  {
    var n := InitialNet(input, g, h);
    PP.InitialInv(input, g, h);
    assert Abstract(n) == P.Initial(input, g, h);
    InitialOrder(l, n);
    hide P.Inv, Orderly, ReadInOrder, P.Initial;
  }

  lemma InitialOrder(l: Link, n: Net)
    requires DelayDefined(l.cfg) && n.turns == [] && n.readForward == n.readBackward == 0
    ensures Orderly(l, n) && ReadInOrder(n)
  {
  }

  /** The transfer through the link simulator, with a constant delay or none, in one direction or
      both: in every interleaving of the three programs the receiver has written the beginning of
      the file, and the whole file once it has stopped or the sender has returned. */
  lemma OutputThroughLink(input: seq<byte>, l: Link, g: Fields, h: Fields, acts: seq<Action>)
    requires DelayDefined(l.cfg) && DelayOnly(l.cfg)
    ensures var n := ExecNet(l, InitialNet(input, g, h), acts);
            && P.Concat(n.r.writes) <= input
            && (!n.r.running || n.s.phase == S.Done ==> P.Concat(n.r.writes) == input)
  {
    InitialNetInv(input, l, g, h);
    ExecNetInv(input, l, InitialNet(input, g, h), acts);
    var n := ExecNet(l, InitialNet(input, g, h), acts);
    PP.OutputOfInv(input, Abstract(n));
    hide ExecNet, P.Concat, Orderly, P.Inv;
  }

  // ---------- The transfer can be completed ----------

  /** Every action is enabled when it is taken. */
  ghost predicate IsNetRun(l: Link, n: Net, acts: seq<Action>)
    requires DelayDefined(l.cfg)
    decreases |acts|
  {
    |acts| > 0 ==> Enabled(l, n, acts[0]) && IsNetRun(l, Next(l, n, acts[0]), acts[1..])
  }

  /** A run that leads from one net to another. */
  ghost predicate Leads(l: Link, n: Net, acts: seq<Action>, m: Net)
    requires DelayDefined(l.cfg)
  {
    IsNetRun(l, n, acts) && ExecNet(l, n, acts) == m
  }

  lemma LeadsNowhere(l: Link, n: Net)
    requires DelayDefined(l.cfg)
    ensures Leads(l, n, [], n)
  {
  }

  lemma LeadsOne(l: Link, n: Net, a: Action)
    requires DelayDefined(l.cfg) && Enabled(l, n, a)
    ensures Leads(l, n, [a], Next(l, n, a))
  {
    hide Enabled, Next;
    assert [a][1..] == [];
    LeadsNowhere(l, Next(l, n, a));
  }

  lemma {:induction false} LeadsOn(l: Link, n: Net, acts: seq<Action>, m: Net, more: seq<Action>, o: Net)
    requires DelayDefined(l.cfg) && Leads(l, n, acts, m) && Leads(l, m, more, o)
    ensures Leads(l, n, acts + more, o)
    decreases |acts|
  {
    hide Enabled, Next;
    if |acts| == 0 {
      assert acts + more == more;
    } else {
      LeadsOn(l, Next(l, n, acts[0]), acts[1..], m, more, o);
      assert (acts + more)[1..] == acts[1..] + more;
    }
  }

  /** A clock read at which all that is queued has expired. */
  function LateRead(p: Proxy): TimeVal {
    TimeVal(p.clock.sec + 11, 0)
  }

  /** The proxy wakes up, can send all it has to, and finds memory. */
  function WakeTurn(p: Proxy, receipt: Receipt): Turn {
    Awake(LateRead(p), [], receipt, Rolls(0, 0, 0, 0, 0), true, true, Written)
  }

  lemma WakeTurnRuns(cfg: Config, link: Affected, p: Proxy, receipt: Receipt)
    requires DelayOnly(cfg) && DelayDefined(cfg) && Inv(p) && p.running && !receipt.RecvFailed?
    ensures Step(cfg, link, p, WakeTurn(p, receipt)).running
  {
    var t := WakeTurn(p, receipt);
    InvHeap(p);
    DeliverAll(p.queue, t.clock, t.writes, 0);
    StepShape(cfg, link, p, t);
    hide Step, Deliver, Push, Stamp, AppliedDelay, Datagrams, Inv;
  }

  lemma LateReadIsLate(p: Proxy, delay: nat)
    requires delay < 10000 && StampedInOrder(p, delay)
    ensures After(LateRead(p), p.clock)
    ensures forall s :: s in p.queued ==> After(LateRead(p), s.ts)
  {
    forall s | s in p.queued
      ensures After(LateRead(p), s.ts)
    {
      assert !After(s.ts, Stamp(p.clock, delay));
    }
  }

  /** Waking up is enabled, if what is received, if anything, is next in line. */
  lemma WakeTurnEnabled(l: Link, n: Net, receipt: Receipt)
    requires DelayDefined(l.cfg) && DelayOnly(l.cfg) && Orderly(l, n) && ProxyOf(l, n).running
    requires !receipt.RecvFailed?
    requires receipt.FromParty? && receipt.direction == Forward ==>
               n.readForward < |n.forward| && receipt.buf == n.forward[n.readForward]
    requires receipt.FromParty? && receipt.direction == Reverse ==>
               n.readBackward < |n.backward| && receipt.buf == n.backward[n.readBackward]
    ensures var t := WakeTurn(ProxyOf(l, n), receipt);
            Enabled(l, n, ProxyTurn(t)) && ProxyOf(l, Next(l, n, ProxyTurn(t))).running
  {
    var p, t := ProxyOf(l, n), WakeTurn(ProxyOf(l, n), receipt);
    hide RunProxy, Step, ClockMonotone, TiesHarmless, DelayDefined;
    WakeTurnFits(l, n, receipt);
    RunThenStep(l, n.turns, t);
  }

  /** It keeps the proxy running and cannot disturb the order. */
  lemma WakeTurnFits(l: Link, n: Net, receipt: Receipt)
    requires DelayDefined(l.cfg) && DelayOnly(l.cfg) && Orderly(l, n) && ProxyOf(l, n).running
    requires !receipt.RecvFailed?
    ensures var p, t := ProxyOf(l, n), WakeTurn(ProxyOf(l, n), receipt);
            && !After(p.clock, t.clock)
            && TiesHarmless(ByDirection(), Step(l.cfg, l.affected, p, t))
            && Step(l.cfg, l.affected, p, t).running
  {
    var p, t := ProxyOf(l, n), WakeTurn(ProxyOf(l, n), receipt);
    StampsInOrder(l.cfg, l.affected, l.clock, n.turns);
    Conservation(l.cfg, l.affected, l.clock, n.turns);
    hide RunProxy, Step, ClockMonotone, TiesHarmless, Inv, StampedInOrder, DelayDefined;
    LateReadIsLate(p, l.cfg.delay % 10000);
    AdvancingHarmless(ByDirection(), l.cfg, l.affected, p, t);
    WakeTurnRuns(l.cfg, l.affected, p, receipt);
  }

  /** Only the proxy has moved, and it goes on. */
  ghost predicate OnlyProxy(l: Link, n: Net, m: Net)
    requires DelayDefined(l.cfg)
  {
    && ProxyOf(l, m).running
    && m == n.(turns := m.turns, readForward := m.readForward, readBackward := m.readBackward)
  }

  /** What the proxy has still to read. */
  function Unread(n: Net): int {
    |n.forward| + |n.backward| - n.readForward - n.readBackward
  }

  /** The proxy reads one more datagram, if there is one. */
  lemma ReadOne(input: seq<byte>, l: Link, n: Net) returns (a: Action)
    requires DelayDefined(l.cfg) && DelayOnly(l.cfg) && NetInv(input, l, n) && ProxyOf(l, n).running
    requires Unread(n) > 0
    ensures Enabled(l, n, a)
    ensures var m := Next(l, n, a);
            NetInv(input, l, m) && OnlyProxy(l, n, m) && Unread(m) < Unread(n)
  {
    hide P.Inv, Orderly, ProxyOf, LongEnough, TurnEnabled;
    var receipt := if n.readForward < |n.forward| then FromParty(Forward, n.forward[n.readForward])
                   else FromParty(Reverse, n.backward[n.readBackward]);
    WakeTurnEnabled(l, n, receipt);
    a := ProxyTurn(WakeTurn(ProxyOf(l, n), receipt));
    ProxyTurnInv(input, l, n, a.t);
  }

  /** The proxy reads all that has been sent. */
  lemma {:induction false} ReadAll(input: seq<byte>, l: Link, n: Net) returns (acts: seq<Action>, m: Net)
    requires DelayDefined(l.cfg) && DelayOnly(l.cfg) && NetInv(input, l, n) && ProxyOf(l, n).running
    ensures Leads(l, n, acts, m) && NetInv(input, l, m) && OnlyProxy(l, n, m) && Unread(m) == 0
    decreases Unread(n)
  {
    hide P.Inv, Orderly, ProxyOf, LongEnough, Enabled, Leads, Next;
    UnreadBound(input, l, n);
    if Unread(n) == 0 {
      LeadsNowhere(l, n);
      acts, m := [], n;
    } else {
      var a := ReadOne(input, l, n);
      UnreadBound(input, l, Next(l, n, a));
      LeadsOne(l, n, a);
      acts, m := ReadAll(input, l, Next(l, n, a));
      LeadsOn(l, n, [a], Next(l, n, a), acts, m);
      acts := [a] + acts;
    }
  }

  lemma UnreadBound(input: seq<byte>, l: Link, n: Net)
    requires DelayDefined(l.cfg) && NetInv(input, l, n)
    ensures Unread(n) >= 0
  {
    hide P.Inv, Orderly, LongEnough, Only, Arrivals, Bufs;
  }

  /** All that was sent has come out. */
  ghost predicate AllOut(l: Link, n: Net)
    requires DelayDefined(l.cfg)
  {
    Out(l, n, Forward) == n.forward && Out(l, n, Reverse) == n.backward
  }

  /** When everything has been read, one more turn lets everything out. */
  lemma DrainOnce(input: seq<byte>, l: Link, n: Net) returns (a: Action)
    requires DelayDefined(l.cfg) && DelayOnly(l.cfg) && NetInv(input, l, n) && ProxyOf(l, n).running
    requires Unread(n) == 0
    ensures Enabled(l, n, a)
    ensures var m := Next(l, n, a);
            NetInv(input, l, m) && OnlyProxy(l, n, m) && AllOut(l, m)
  {
    var t := WakeTurn(ProxyOf(l, n), RecvAgain);
    QueueExpires(l, n);
    hide P.Inv, Orderly, ProxyOf, LongEnough, TurnEnabled, DrainsAll, Only, Arrivals, Bufs;
    WakeTurnEnabled(l, n, RecvAgain);
    a := ProxyTurn(t);
    ProxyTurnInv(input, l, n, t);
    Drained(l, n, t);
    assert n.forward[..n.readForward] == n.forward && n.backward[..n.readBackward] == n.backward;
  }

  lemma Drained(l: Link, n: Net, t: Turn)
    requires DelayDefined(l.cfg) && DelayOnly(l.cfg) && ProxyOf(l, n).running && DrainsAll(ProxyOf(l, n).queue, t)
    requires TurnEnabled(l, n, t) && Orderly(l, Next(l, n, ProxyTurn(t)))
    ensures forall d: Direction :: Out(l, Next(l, n, ProxyTurn(t)), d) == Bufs(Only(Arrivals(n.turns + [t]), d))
  {
    hide RunProxy, ClockMonotone, TiesHarmless, Step, Only, Arrivals, Bufs;
    ChannelDrains(l.cfg, l.affected, l.clock, n.turns, t);
  }

  lemma QueueExpires(l: Link, n: Net)
    requires DelayDefined(l.cfg) && DelayOnly(l.cfg) && Orderly(l, n)
    ensures DrainsAll(ProxyOf(l, n).queue, WakeTurn(ProxyOf(l, n), RecvAgain))
  {
    var p := ProxyOf(l, n);
    StampsInOrder(l.cfg, l.affected, l.clock, n.turns);
    Conservation(l.cfg, l.affected, l.clock, n.turns);
    LateReadIsLate(p, l.cfg.delay % 10000);
    hide RunProxy, Heap, ClockMonotone, StampedInOrder, LateRead;
    Members(p.queue, p.queued);
  }

  /** The proxy reads all there is and lets it out. */
  lemma Flush(input: seq<byte>, l: Link, n: Net) returns (acts: seq<Action>, m: Net)
    requires DelayDefined(l.cfg) && DelayOnly(l.cfg) && NetInv(input, l, n) && ProxyOf(l, n).running
    ensures Leads(l, n, acts, m) && NetInv(input, l, m) && OnlyProxy(l, n, m) && AllOut(l, m)
  {
    hide NetInv, ProxyOf, Enabled, Leads, Next, AllOut;
    var read, o := ReadAll(input, l, n);
    var a := DrainOnce(input, l, o);
    m := Next(l, o, a);
    LeadsOne(l, o, a);
    LeadsOn(l, n, read, o, [a], m);
    acts := read + [a];
  }

  /** Once everything is out, what sender and receiver can do over channels they can do here. */
  lemma ThenEnabled(l: Link, n: Net, a: P.Action)
    requires DelayDefined(l.cfg) && AllOut(l, n) && n.taken <= |n.forward| && n.acknowledged <= |n.backward|
    requires P.Enabled(Abstract(n), a)
    ensures Enabled(l, n, Ends(a))
  {
    hide Out, R.Receivable, S.SenderOk;
  }

  /** From any state of a transfer that is not over, with the proxy running, a few steps bring it
      nearer to its end. */
  lemma Advance(input: seq<byte>, l: Link, n: Net) returns (acts: seq<Action>, m: Net)
    requires DelayDefined(l.cfg) && DelayOnly(l.cfg) && NetInv(input, l, n) && ProxyOf(l, n).running
    requires n.s.phase != S.Done
    ensures Leads(l, n, acts, m) && NetInv(input, l, m) && ProxyOf(l, m).running
    ensures 0 <= PP.Rank(input, Abstract(m)) < PP.Rank(input, Abstract(n))
  {
    hide P.Inv, Orderly, LongEnough, ReadInOrder, RunProxy, Enabled, Leads, Next, AllOut, PP.Rank, P.Enabled, P.Next;
    var flush, o := Flush(input, l, n);
    assert Abstract(o) == Abstract(n);
    PP.Progress(input, Abstract(o));
    var a :| P.Prompt(Abstract(o), a);
    PP.StepRank(input, Abstract(o), a);
    ThenEnabled(l, o, a);
    EndsRefine(input, l, o, a);
    EndsInv(input, l, o, Ends(a).a);
    EndsLeaveProxy(l, o, a);
    m := Next(l, o, Ends(a));
    LeadsOne(l, o, Ends(a));
    LeadsOn(l, n, flush, o, [Ends(a)], m);
    acts := flush + [Ends(a)];
  }

  lemma EndsLeaveProxy(l: Link, n: Net, a: P.Action)
    requires DelayDefined(l.cfg) && Enabled(l, n, Ends(a))
    ensures Next(l, n, Ends(a)).turns == n.turns
  {
  }

  lemma {:induction false} Finish(input: seq<byte>, l: Link, n: Net) returns (acts: seq<Action>, m: Net)
    requires DelayDefined(l.cfg) && DelayOnly(l.cfg) && NetInv(input, l, n) && ProxyOf(l, n).running
    ensures Leads(l, n, acts, m) && NetInv(input, l, m) && m.s.phase == S.Done
    decreases PP.Rank(input, Abstract(n))
  {
    hide P.Inv, Orderly, LongEnough, ReadInOrder, ProxyOf, Leads, PP.Rank;
    PP.RankBound(input, Abstract(n));
    if n.s.phase == S.Done {
      LeadsNowhere(l, n);
      acts, m := [], n;
    } else {
      var some, o := Advance(input, l, n);
      acts, m := Finish(input, l, o);
      LeadsOn(l, n, some, o, acts, m);
      acts := some + acts;
    }
  }

  /** Over the link, too, a transfer never gets stuck while the proxy runs: from every state that the
      three programs can reach, some run of theirs completes it. */
  lemma TransferCanComplete(input: seq<byte>, l: Link, g: Fields, h: Fields, acts: seq<Action>)
    returns (more: seq<Action>)
    requires DelayDefined(l.cfg) && DelayOnly(l.cfg)
    requires ProxyOf(l, ExecNet(l, InitialNet(input, g, h), acts)).running
    ensures var n := ExecNet(l, InitialNet(input, g, h), acts);
            var m := ExecNet(l, n, more);
            && IsNetRun(l, n, more)
            && m.taken <= |m.forward| && m.acknowledged <= |m.backward|
            && PP.Complete(input, Abstract(m))
  {
    var n := ExecNet(l, InitialNet(input, g, h), acts);
    InitialNetInv(input, l, g, h);
    ExecNetInv(input, l, InitialNet(input, g, h), acts);
    hide ExecNet, InitialNet, IsNetRun, P.Inv, Orderly, LongEnough, ReadInOrder, ProxyOf, PP.Complete;
    var m;
    more, m := Finish(input, l, n);
    PP.DoneIsComplete(input, Abstract(m));
  }

  // ---------- How long it takes ----------

  /** Steps of sender and receiver in a run. */
  function EndsTaken(acts: seq<Action>): nat {
    if |acts| == 0 then 0 else (if acts[0].Ends? then 1 else 0) + EndsTaken(acts[1..])
  }

  /** The poll times out although something is under way. */
  predicate EarlyHere(n: Net, a: Action) {
    a == Ends(P.SenderTimeout) && (n.taken < |n.forward| || n.acknowledged < |n.backward|)
  }

  ghost function EarlyOverLink(l: Link, n: Net, acts: seq<Action>): nat
    requires DelayDefined(l.cfg) && IsNetRun(l, n, acts)
    decreases |acts|
  {
    if |acts| == 0 then 0
    else (if EarlyHere(n, acts[0]) then 1 else 0) + EarlyOverLink(l, Next(l, n, acts[0]), acts[1..])
  }

  lemma NetStepRank(input: seq<byte>, l: Link, n: Net, a: Action)
    requires DelayDefined(l.cfg) && DelayOnly(l.cfg) && NetInv(input, l, n) && Enabled(l, n, a)
    ensures var m := Next(l, n, a);
            && NetInv(input, l, m)
            && PP.Rank(input, Abstract(m)) <=
               PP.Rank(input, Abstract(n)) - (if a.Ends? then 1 else 0) + if EarlyHere(n, a) then 2 else 0
  {
    hide P.Inv, Orderly, LongEnough, ReadInOrder, PP.Rank, P.Enabled, P.Next, Enabled;
    match a {
      case ProxyTurn(t) =>
        ProxyTurnInv(input, l, n, t);
        assert Abstract(Next(l, n, a)) == Abstract(n);
      case Ends(e) =>
        EndsRefine(input, l, n, e);
        EndsInv(input, l, n, e);
        PP.StepRank(input, Abstract(n), e);
        hide Next;
    }
  }

  lemma {:induction false} EndsBounded(input: seq<byte>, l: Link, n: Net, acts: seq<Action>)
    requires DelayDefined(l.cfg) && DelayOnly(l.cfg) && NetInv(input, l, n) && IsNetRun(l, n, acts)
    ensures n.taken <= |n.forward| && n.acknowledged <= |n.backward|
    ensures EndsTaken(acts) <= PP.Rank(input, Abstract(n)) + 2 * EarlyOverLink(l, n, acts)
    decreases |acts|
  {
    hide P.Inv, Orderly, LongEnough, ReadInOrder, PP.Rank, Enabled, Next, EarlyHere;
    if |acts| == 0 {
      PP.RankBound(input, Abstract(n));
    } else {
      NetStepRank(input, l, n, acts[0]);
      EndsBounded(input, l, Next(l, n, acts[0]), acts[1..]);
    }
  }

  /** In every run over the link, sender and receiver together take at most 12 N + 13 steps for N
      chunks, and two more for every time the poll times out early. */
  lemma EndsAreFinite(input: seq<byte>, l: Link, g: Fields, h: Fields, acts: seq<Action>)
    requires DelayDefined(l.cfg) && DelayOnly(l.cfg) && IsNetRun(l, InitialNet(input, g, h), acts)
    ensures EndsTaken(acts) <= 12 * P.Chunks(input) + 13 + 2 * EarlyOverLink(l, InitialNet(input, g, h), acts)
  {
    var n := InitialNet(input, g, h);
    InitialNetInv(input, l, g, h);
    EndsBounded(input, l, n, acts);
    assert PP.Rank(input, Abstract(n)) == 12 * P.Chunks(input) + 13;
    hide IsNetRun, EarlyOverLink, NetInv, P.Chunks;
  }
}
