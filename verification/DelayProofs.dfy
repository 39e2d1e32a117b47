/** The delays that simulate_link draws (Linksimulator/link_sim.c), wrap-around included. */
module DelayProofs {
  import opened LinkFaults
  import opened Numbers
  import opened ProxySpec

  const TEN_SECONDS := 10000

  /** The least delay that can be drawn. */
  function Lowest(cfg: Config): nat {
    if cfg.jitter <= cfg.delay then cfg.delay - cfg.jitter else 0
  }

  /** How many different sums are drawn from; the unsigned divisor may have wrapped. */
  function Span(cfg: Config): nat {
    if cfg.jitter == 0 then 1
    else if cfg.jitter > cfg.delay then (cfg.delay + cfg.jitter) % WORD
    else 2 * cfg.jitter % WORD
  }

  /** The first delay, in milliseconds, that is too great to be drawn if rand() stops at randMax. */
  function Limit(cfg: Config, randMax: nat): nat {
    Lowest(cfg) + Least(Span(cfg), randMax + 1)
  }

  lemma Unwrapped(n: nat)
    requires n < WORD
    ensures n % WORD == n
  {
  }

  lemma Remainder(roll: nat, m: nat)
    requires m > 0
    ensures 0 <= roll % m < m
  {
  }

  lemma RemainderOfSmall(r: nat, m: nat)
    requires r < m
    ensures r % m == r
  {
  }

  /** Subtracting after the wrap is wrapping after the subtraction. */
  lemma WrapThenSubtract(x: nat, j: nat)
    ensures (x % WORD - j) % WORD == (x - j) % WORD
  {
    assert x == x / WORD * WORD + x % WORD;
    WrapMultiple(x % WORD - j, x / WORD);
  }

  lemma WrapMultiple(y: int, q: nat)
    ensures (y + q * WORD) % WORD == y % WORD
  {
  }

  /** In every case a delay is a remainder added to the least one, in 32-bit arithmetic. */
  lemma RawDelayForm(cfg: Config, roll: nat)
    requires cfg.delay > 0 && DelayDefined(cfg)
    ensures Span(cfg) > 0
    ensures RawDelay(cfg, roll) == (Lowest(cfg) + roll % Span(cfg)) % WORD
  {
    if cfg.jitter == 0 {
      Remainder(roll, 1);
      Unwrapped(cfg.delay);
    } else {
      var m := Span(cfg);
      var r := roll % m;
      Remainder(roll, m);
      if cfg.jitter > cfg.delay {
        Remainder(cfg.delay + cfg.jitter, WORD);
        Unwrapped(r);
      } else {
        WrapThenSubtract(cfg.delay + r, cfg.jitter);
      }
    }
  }

  /** The roll that draws a given delay. */
  lemma Drawn(cfg: Config, randMax: nat, d: nat)
    requires cfg.delay > 0 && DelayDefined(cfg) && Lowest(cfg) <= d < Limit(cfg, randMax) && d < WORD
    ensures d - Lowest(cfg) <= randMax && RawDelay(cfg, d - Lowest(cfg)) == d
  {
    RawDelayForm(cfg, d - Lowest(cfg));
    RemainderOfSmall(d - Lowest(cfg), Span(cfg));
    Unwrapped(d);
    hide RawDelay, Lowest, Span;
  }

  lemma RollBound(roll: nat, m: nat)
    requires m > 0
    ensures roll % m <= roll
  {
    if roll < m {
      RemainderOfSmall(roll, m);
    } else {
      Remainder(roll, m);
    }
  }

  lemma DrawnBelow(cfg: Config, randMax: nat, roll: nat)
    requires cfg.delay > 0 && DelayDefined(cfg) && Limit(cfg, randMax) <= WORD && roll <= randMax
    ensures Lowest(cfg) <= RawDelay(cfg, roll) < Limit(cfg, randMax)
  {
    RawDelayForm(cfg, roll);
    Remainder(roll, Span(cfg));
    RollBound(roll, Span(cfg));
    Unwrapped(Lowest(cfg) + roll % Span(cfg));
    hide RawDelay, Lowest, Span;
  }

  /** The code says that the delay it adds is capped to 10 s; it is reduced modulo 10 s. That is a
      cap, whatever is drawn, if and only if nothing beyond ten seconds can be drawn. */
  lemma DelayCappedIff(cfg: Config, randMax: nat)
    requires cfg.delay > 0 && DelayDefined(cfg)
    ensures (forall roll: nat :: roll <= randMax ==>
               AppliedDelay(cfg, roll) == Least(RawDelay(cfg, roll), TEN_SECONDS))
            <==> Limit(cfg, randMax) <= TEN_SECONDS
  {
    if Limit(cfg, randMax) <= TEN_SECONDS {
      forall roll: nat | roll <= randMax
        ensures AppliedDelay(cfg, roll) == Least(RawDelay(cfg, roll), TEN_SECONDS)
      {
        DrawnBelow(cfg, randMax, roll);
        RemainderOfSmall(RawDelay(cfg, roll), TEN_SECONDS);
      }
    } else {
      LowestFits(cfg, randMax);
      var d := if Lowest(cfg) >= TEN_SECONDS then Lowest(cfg) else TEN_SECONDS;
      Drawn(cfg, randMax, d);
      assert AppliedDelay(cfg, d - Lowest(cfg)) != Least(RawDelay(cfg, d - Lowest(cfg)), TEN_SECONDS);
    }
    hide RawDelay;
  }

  /** In every case what is applied is the drawn delay modulo 10 s. */
  lemma AppliedCongruent(cfg: Config, roll: nat)
    requires cfg.delay > 0 && DelayDefined(cfg)
    ensures 0 <= AppliedDelay(cfg, roll) < 10_000
    ensures RawDelay(cfg, roll) == RawDelay(cfg, roll) / 10_000 * 10_000 + AppliedDelay(cfg, roll)
  {
    hide RawDelay, DelayDefined;
  }

  lemma LowestFits(cfg: Config, randMax: nat)
    requires DelayDefined(cfg) && cfg.delay > 0
    ensures Lowest(cfg) < WORD && Lowest(cfg) < Limit(cfg, randMax)
  {
    RawDelayForm(cfg, 0);
  }

  /** What is drawn is exactly what lies from the least delay up to the limit. */
  lemma DrawnIff(cfg: Config, randMax: nat, d: nat)
    requires cfg.delay > 0 && DelayDefined(cfg) && Limit(cfg, randMax) <= WORD
    ensures (exists roll: nat :: roll <= randMax && RawDelay(cfg, roll) == d)
            <==> Lowest(cfg) <= d < Limit(cfg, randMax)
  {
    hide RawDelay, DelayDefined, Lowest, Limit;
    if Lowest(cfg) <= d < Limit(cfg, randMax) {
      Drawn(cfg, randMax, d);
    }
    forall roll: nat | roll <= randMax
      ensures Lowest(cfg) <= RawDelay(cfg, roll) < Limit(cfg, randMax)
    {
      DrawnBelow(cfg, randMax, roll);
    }
  }

  /** Delay and jitter that fit the type are not wrapped. */
  lemma UnwrappedSpan(cfg: Config)
    requires cfg.delay > 0 && cfg.delay + cfg.jitter < WORD
    ensures DelayDefined(cfg)
    ensures Span(cfg) == if cfg.jitter == 0 then 1 else if cfg.jitter > cfg.delay then cfg.delay + cfg.jitter
                         else 2 * cfg.jitter
  {
    Unwrapped(cfg.delay + cfg.jitter);
    if cfg.jitter <= cfg.delay {
      Unwrapped(2 * cfg.jitter);
    }
  }

  /** The usage text promises delay + rand[-jitter, jitter]. If delay and jitter fit the type, what
      is drawn is exactly what lies from delay - jitter up to, but not including, delay + jitter;
      and it ends earlier, at the least delay plus RAND_MAX, if rand() does not reach that far. */
  lemma JitterRange(cfg: Config, randMax: nat, d: nat)
    requires cfg.delay > 0 && cfg.jitter > 0 && cfg.delay + cfg.jitter < WORD
    ensures DelayDefined(cfg)
    ensures (exists roll: nat :: roll <= randMax && RawDelay(cfg, roll) == d)
            <==> cfg.delay - cfg.jitter <= d < cfg.delay + cfg.jitter && d <= Lowest(cfg) + randMax
  {
    UnwrappedSpan(cfg);
    DrawnIff(cfg, randMax, d);
    hide RawDelay, DelayDefined, Span;
  }
}
