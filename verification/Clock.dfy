/** The time arithmetic of Linksimulator/link_sim.c: comparison, the borrow in timeval_diff,
    expiry stamps whose microseconds are never carried, and the select timeout. */
module Clock {
  import opened Numbers

  const MICROS := 1_000_000

  datatype TimeVal = TimeVal(sec: int, usec: int)

  /** What a clock read returns. */
  predicate Normal(t: TimeVal) {
    0 <= t.usec < MICROS
  }

  /** The instant a time value denotes, in microseconds. */
  function Micros(t: TimeVal): int {
    t.sec * MICROS + t.usec
  }

  /** timeval_cmp: left > right, compared field by field. */
  predicate After(left: TimeVal, right: TimeVal) {
    if left.sec == right.sec then left.usec > right.usec else left.sec > right.sec
  }

  /** The value timeval_diff leaves in its third argument. */
  function Diff(a: TimeVal, b: TimeVal): TimeVal {
    var s, u := a.sec - b.sec, a.usec - b.usec;
    if u >= 0 then TimeVal(s, u)
    else if s == 1 then TimeVal(0, u)
    else TimeVal(s - 1, u + MICROS)
  }

  method TimevalDiff(a: TimeVal, b: TimeVal) returns (c: TimeVal)
    ensures c == Diff(a, b)
  {
    var sec, usec := a.sec - b.sec, a.usec - b.usec;
    if usec < 0 {
      sec := sec - 1;
      if sec != 0 {
        usec := usec + MICROS;
      }
    }
    c := TimeVal(sec, usec);
  }

  /** timeval_diff promises c = a - b. It keeps that promise unless the seconds differ by exactly
      one and a borrow is needed, when it forgets to give the borrowed second back. */
  lemma DiffExactIff(a: TimeVal, b: TimeVal)
    ensures Micros(Diff(a, b)) == Micros(a) - Micros(b) <==> !(a.sec == b.sec + 1 && a.usec < b.usec)
  {
  }

  /** Otherwise it is a second too little, and less than no time. */
  lemma DiffIs(a: TimeVal, b: TimeVal)
    ensures var lost := a.sec == b.sec + 1 && a.usec < b.usec;
            && Micros(Diff(a, b)) == Micros(a) - Micros(b) - (if lost then 1_000_000 else 0)
            && (lost ==> Diff(a, b).sec == 0 && Diff(a, b).usec < 0)
            && (!lost && Normal(a) && Normal(b) ==> Normal(Diff(a, b)))
  {
  }

  // ---------- Expiry stamps ----------

  /** The stamp of a packet that arrives at `clock` and is delayed by `delay` milliseconds. */
  function Stamp(clock: TimeVal, delay: nat): TimeVal {
    TimeVal(clock.sec + delay / 1000, clock.usec + delay % 1000 * 1000)
  }

  /** A stamp simulate_link can make: seconds are added, microseconds are not carried. */
  predicate StampRange(ts: TimeVal) {
    0 <= ts.usec <= 1_998_999
  }

  /** A stamp denotes arrival plus delay, and is in range. */
  lemma StampMeaning(clock: TimeVal, delay: nat)
    requires Normal(clock)
    ensures Micros(Stamp(clock, delay)) == Micros(clock) + 1000 * delay
    ensures StampRange(Stamp(clock, delay))
  {
    assert delay == delay / 1000 * 1000 + delay % 1000;
  }

  /** A packet is eligible only strictly after it arrived. If its microseconds need no carry it
      is eligible exactly once its delay has passed; otherwise it is eligible from the full
      second on, at most 998 999 microseconds too early. */
  lemma Eligibility(arrival: TimeVal, delay: nat, now: TimeVal)
    requires Normal(arrival) && Normal(now)
    ensures var ts := Stamp(arrival, delay);
            && (After(now, ts) ==> After(now, arrival))
            && (ts.usec < MICROS ==> (After(now, ts) <==> Micros(now) > Micros(arrival) + 1000 * delay))
            && (ts.usec >= MICROS ==>
                  && (After(now, ts) <==> Micros(now) >= (ts.sec + 1) * MICROS)
                  && 0 <= Micros(arrival) + 1000 * delay - (ts.sec + 1) * MICROS <= 998_999)
  {
    StampMeaning(arrival, delay);
  }

  /** No packet leaves before its delay has passed: true of exactly those stamps whose
      microseconds do not exceed a second. */
  lemma NeverEarlyIff(arrival: TimeVal, delay: nat)
    requires Normal(arrival)
    ensures var ts := Stamp(arrival, delay);
            (forall now :: Normal(now) && After(now, ts) ==> Micros(now) >= Micros(arrival) + 1000 * delay)
            <==> ts.usec <= MICROS
  {
    var ts := Stamp(arrival, delay);
    StampMeaning(arrival, delay);
    var early := TimeVal(ts.sec + 1, 0);
    assert Normal(early);
    if ts.usec > MICROS {
      assert After(early, ts);
      assert Micros(early) < Micros(arrival) + 1000 * delay;
    }
  }

  /** Adding the same delay to two clocks keeps their order, carried or not. */
  lemma ShiftKeepsOrder(a: TimeVal, b: TimeVal, delay: nat)
    ensures After(Stamp(a, delay), Stamp(b, delay)) <==> After(a, b)
  {
  }

  // ---------- The select timeout ----------

  /** How long get_queue_timeout lets select wait for a packet stamped `ts`. */
  function Timeout(ts: TimeVal, clock: TimeVal): TimeVal {
    var t := Diff(ts, clock);
    if t.sec < 0 || (t.sec == 0 && t.usec <= 0) then TimeVal(0, 1000) else t
  }

  /** The wait is never zero, never longer than the time left (or one millisecond), and is the
      time left whenever that is a second or more: the lost borrow only ever shortens it. */
  lemma TimeoutBound(ts: TimeVal, clock: TimeVal)
    requires StampRange(ts) && Normal(clock)
    ensures var t, gap := Timeout(ts, clock), Micros(ts) - Micros(clock);
            && t.sec >= 0 && t.usec >= 0 && Micros(t) > 0
            && (Micros(t) == gap || Micros(t) == 1000)
            && (gap > 1000 ==> Micros(t) <= gap)
            && (gap <= 1000 ==> Micros(t) <= 1000)
            && (gap >= MICROS ==> Micros(t) == gap)
  {
  }

  /** It is the time left exactly if some is left, the stamp's second has not passed, and no borrow is lost;
      otherwise it is a millisecond. */
  lemma TimeoutIs(ts: TimeVal, clock: TimeVal)
    requires StampRange(ts) && Normal(clock)
    ensures var gap := Micros(ts) - Micros(clock);
            Micros(Timeout(ts, clock)) ==
            if gap > 0 && clock.sec <= ts.sec && !(ts.sec == clock.sec + 1 && ts.usec < clock.usec) then gap
            else 1000
  {
  }

  /** The wait for a packet stamped `root` is not longer than the time left, or a millisecond, for
      one stamped `ts`. */
  predicate WaitFits(root: TimeVal, ts: TimeVal, clock: TimeVal) {
    Micros(Timeout(root, clock)) <= Greatest(1000, Micros(ts) - Micros(clock))
  }

  /** For one other packet behind the root, in timeval_cmp's order: the wait fits its time left if
      and only if the root denotes no later an instant, or the root's second has passed, or at
      most a millisecond is left to the root. */
  lemma WaitFitsIff(root: TimeVal, ts: TimeVal, clock: TimeVal)
    requires StampRange(root) && StampRange(ts) && Normal(clock) && !After(root, ts)
    ensures WaitFits(root, ts, clock) <==>
            Micros(root) <= Micros(ts) || clock.sec > root.sec || Micros(root) - Micros(clock) <= 1000
  {
    TimeoutBound(root, clock);
  }

  /** For whatever may be behind the root: the wait fits all of it if and only if the root's
      microseconds do not exceed a second, or its second has passed, or at most a millisecond is
      left to it. A root stamp that lacks its carry is ordered first but may denote a later
      instant than its successors. */
  lemma NoOversleepIff(root: TimeVal, clock: TimeVal)
    requires StampRange(root) && Normal(clock)
    ensures (forall ts :: StampRange(ts) && !After(root, ts) ==> WaitFits(root, ts, clock))
            <==> root.usec <= MICROS || clock.sec > root.sec || Micros(root) - Micros(clock) <= 1000
  {
    var next := TimeVal(root.sec + 1, 0);
    assert StampRange(next) && !After(root, next);
    WaitFitsIff(root, next, clock);
    forall ts | StampRange(ts) && !After(root, ts)
      ensures WaitFits(root, ts, clock) <==>
              Micros(root) <= Micros(ts) || clock.sec > root.sec || Micros(root) - Micros(clock) <= 1000
      ensures root.usec <= MICROS ==> Micros(root) <= Micros(ts)
    {
      WaitFitsIff(root, ts, clock);
    }
    hide WaitFits;
  }

  /** Stamps made with one delay denote instants in their own order. */
  lemma ShiftKeepsInstants(a: TimeVal, b: TimeVal, delay: nat)
    requires Normal(a) && Normal(b) && !After(Stamp(a, delay), Stamp(b, delay))
    ensures Micros(Stamp(a, delay)) <= Micros(Stamp(b, delay))
  {
    ShiftKeepsOrder(a, b, delay);
    StampMeaning(a, delay);
    StampMeaning(b, delay);
  }
}
