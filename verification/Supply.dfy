/** The money supply: all block subsidies together never exceed twice the first period's worth. */
module Supply {
  import opened Powers
  import opened Primitives
  import opened ChainSpec
  import opened Conservation

  const FULL: nat := 25 * COIN / 2

  /** The subsidy after so many halvings. */
  function Halved(k: nat): nat {
    if k >= 64 then 0 else FULL / Pow2(k)
  }

  lemma HalvedStep(k: nat)
    ensures 2 * Halved(k + 1) <= Halved(k)
  {
    if k + 1 < 64 {
      var d := Pow2(k);
      HalfDivided(FULL, d);
    }
  }

  lemma HalfDivided(x: nat, d: nat)
    requires d > 0
    ensures 2 * (x / (2 * d)) <= x / d
  {
    var q := x / (2 * d);
    assert q * (2 * d) <= x;
    assert 2 * q * d == q * (2 * d);
    assert x < (x / d + 1) * d;
    if x / d < 2 * q {
      MulUpTo(x / d + 1, d, 2 * q, d);
      assert false;
    }
  }

  lemma {:induction false} HalvedMono(k: nat, j: nat)
    requires k <= j
    ensures Halved(j) <= Halved(k)
  {
    hide Halved;
    if k < j {
      HalvedMono(k, j - 1);
      HalvedStep(j - 1);
    }
  }

  // ---------------------------------------------------------------- what is still to come

  function Interval(p: Params, h: nat): (r: nat)
    requires SubsidyParams(p)
    ensures r > 0
  {
    if p.IsForkEnabled(h) then p.halvingInterval / 4 else p.halvingInterval
  }

  function Since(p: Params, h: nat): nat
    requires h >= p.slowStartInterval
  {
    h - p.slowStartInterval / 2
  }

  /** A bound on all subsidies after d blocks of periods of the given length, c halvings ahead. */
  function Ahead(interval: nat, d: nat, c: nat): nat
    requires interval > 0
  {
    (2 * interval - d % interval) * Halved(d / interval + c)
  }

  lemma AheadStep(interval: nat, d: nat, c: nat)
    requires interval > 0
    ensures Halved(d / interval + c) + Ahead(interval, d + 1, c) <= Ahead(interval, d, c)
  {
    hide Halved;
    var k, r := d / interval, d % interval;
    assert d == k * interval + r;
    if r + 1 < interval {
      ModIs(d + 1, interval, k, r + 1);
      assert (2 * interval - r) * Halved(k + c) == (2 * interval - (r + 1)) * Halved(k + c) + Halved(k + c);
    } else {
      assert d + 1 == (k + 1) * interval;
      ModIs(d + 1, interval, k + 1, 0);
      HalvedStep(k + c);
      MulUpTo(interval, 2 * Halved(k + 1 + c), interval, Halved(k + c));
      assert 2 * interval * Halved(k + 1 + c) == interval * (2 * Halved(k + 1 + c));
      assert (interval + 1) * Halved(k + c) == interval * Halved(k + c) + Halved(k + c);
    }
  }

  function Halvings(p: Params, h: nat): nat
    requires SubsidyParams(p) && h >= p.slowStartInterval
  {
    Since(p, h) / Interval(p, h) + if p.IsForkEnabled(h) then 2 else 0
  }

  lemma SubsidyIs(p: Params, h: nat)
    requires SubsidyParams(p) && h >= 1 && h >= p.slowStartInterval
    ensures BlockSubsidy(p, h) == Halved(Halvings(p, h))
  {
    hide Pow2;
  }

  function ToCome(p: Params, h: nat): nat
    requires SubsidyParams(p) && h >= p.slowStartInterval
  {
    Ahead(Interval(p, h), Since(p, h), if p.IsForkEnabled(h) then 2 else 0)
  }

  lemma QuarterPeriods(d: nat, interval: nat)
    requires interval >= 4
    ensures d / interval <= (d + 1) / (interval / 4)
  {
    var k, j := d / interval, interval / 4;
    assert k * interval <= d;
    MulUpTo(k, j, k, interval);
    assert d + 1 < ((d + 1) / j + 1) * j;
    if (d + 1) / j < k {
      MulUpTo((d + 1) / j + 1, j, k, j);
      assert false;
    }
  }

  /** When the fork shortens the periods, what is still to come shrinks at once. */
  lemma ForkStep(interval: nat, d: nat)
    requires interval >= 4
    ensures Halved(d / interval) + Ahead(interval / 4, d + 1, 2) <= Ahead(interval, d, 0)
  {
    hide Halved;
    var k, j := d / interval, interval / 4;
    var now, later := Halved(k), Halved((d + 1) / j + 2);
    QuarterPeriods(d, interval);
    HalvedMono(k + 2, (d + 1) / j + 2);
    HalvedStep(k);
    HalvedStep(k + 1);
    assert 2 * later <= now;
    var r := d % interval;
    assert 0 <= (d + 1) % j && 2 * j <= interval;
    MulUpTo(2 * j - (d + 1) % j, later, interval, now);
    MulUpTo(interval + 1, now, 2 * interval - r, now);
    assert (interval + 1) * now == interval * now + now;
  }

  lemma ToComeStep(p: Params, h: nat)
    requires SubsidyParams(p) && h >= 1 && h >= p.slowStartInterval
    ensures BlockSubsidy(p, h) + ToCome(p, h + 1) <= ToCome(p, h)
  {
    hide Halved, Ahead, BlockSubsidy;
    SubsidyIs(p, h);
    var d := Since(p, h);
    if p.IsForkEnabled(h) == p.IsForkEnabled(h + 1) {
      AheadStep(Interval(p, h), d, if p.IsForkEnabled(h) then 2 else 0);
    } else {
      ForkStep(p.halvingInterval, d);
    }
  }

  // ---------------------------------------------------------------- the slow start

  /** The heights of the slow start up to a height, with the extra step of its second half. */
  function Ramp(p: Params, n: nat): nat {
    if n <= 1 then 0 else Ramp(p, n - 1) + (if n - 1 < p.slowStartInterval / 2 then n - 1 else n)
  }

  lemma {:induction false} RampIs(p: Params, n: nat)
    requires 1 <= n && p.slowStartInterval >= 2
    ensures 2 * Ramp(p, n) == n * (n - 1) + 2 * (if n < p.slowStartInterval / 2 then 0 else n - p.slowStartInterval / 2)
  {
    if n > 1 {
      RampIs(p, n - 1);
      assert n * (n - 1) == (n - 1) * (n - 2) + 2 * (n - 1);
    }
  }

  /** The step of the slow start. */
  function Step(p: Params): nat
    requires p.slowStartInterval >= 1
  {
    FULL / p.slowStartInterval
  }

  lemma SlowSubsidy(p: Params, h: nat)
    requires SubsidyParams(p) && 1 <= h < p.slowStartInterval
    ensures BlockSubsidy(p, h) == Step(p) * (if h < p.slowStartInterval / 2 then h else h + 1)
  {
    hide Pow2;
  }

  lemma {:induction false} RampIssues(p: Params, n: nat)
    requires SubsidyParams(p) && 1 <= n <= p.slowStartInterval
    ensures Issued(p, n) == Step(p) * Ramp(p, n)
  {
    hide BlockSubsidy, Step;
    if n > 1 {
      RampIssues(p, n - 1);
      SlowSubsidy(p, n - 1);
      hide BlockSubsidy, Step;
      var a := if n - 1 < p.slowStartInterval / 2 then n - 1 else n;
      assert Step(p) * (Ramp(p, n - 1) + a) == Step(p) * Ramp(p, n - 1) + Step(p) * a;
    }
  }

  lemma RampFits(q: nat, n: nat, d: nat, ramp: nat)
    requires q * n <= FULL && 1 <= n <= 2 * d && 2 * ramp == n * (n - 1) + 2 * d
    ensures q * ramp <= d * FULL
  {
    MulUpTo(n, n - 1, 2 * d, n - 1);
    assert 2 * d * (n - 1) == 2 * (d * n) - 2 * d;
    MulUpTo(q, ramp, q, d * n);
    assert q * (d * n) == d * (q * n);
    MulUpTo(d, q * n, d, FULL);
  }

  lemma StepFits(p: Params)
    requires p.slowStartInterval >= 1
    ensures Step(p) * p.slowStartInterval <= FULL
  {
  }

  /** The slow start issues no more than its second half would at the full subsidy. */
  lemma SlowStartIssues(p: Params)
    requires SubsidyParams(p) && p.slowStartInterval >= 1
    ensures Issued(p, p.slowStartInterval) <= Since(p, p.slowStartInterval) * FULL
  {
    hide BlockSubsidy, Step;
    var n := p.slowStartInterval;
    if n >= 2 {
      RampIssues(p, n);
      RampIs(p, n);
      StepFits(p);
      hide Issued, Ramp;
      RampFits(Step(p), n, Since(p, n), Ramp(p, n));
    }
  }

  // ---------------------------------------------------------------- the supply

  /** In the first period, what is to come is at most two periods at the full subsidy less the blocks gone. */
  lemma FirstAhead(i: nat, d: nat)
    requires i >= 4 && d < i
    ensures Ahead(i, d, 0) == (2 * i - d) * FULL && Ahead(i / 4, d, 2) <= (2 * i - d) * FULL
  {
    hide Halved;
    ModIs(d, i, 0, d);
    Halved0();
    var j := i / 4;
    HalvedMono(0, d / j + 2);
    MulUpTo(2 * j - d % j, Halved(d / j + 2), 2 * i - d, FULL);
  }

  lemma FirstToCome(p: Params, h: nat)
    requires SubsidyParams(p) && p.slowStartInterval <= p.halvingInterval && h >= 1
    requires h == p.slowStartInterval || (p.slowStartInterval == 0 && h == 1)
    ensures Issued(p, h) + ToCome(p, h) <= 2 * p.halvingInterval * FULL
  {
    hide Halved, Issued, Ahead;
    var d, i := Since(p, h), p.halvingInterval;
    FirstAhead(i, d);
    assert Issued(p, h) <= d * FULL by {
      if p.slowStartInterval >= 1 {
        SlowStartIssues(p);
      } else {
        NothingIssued(p);
      }
    }
    assert d * FULL + (2 * i - d) * FULL == 2 * i * FULL;
  }

  lemma Halved0()
    ensures Halved(0) == FULL
  {
  }

  lemma NothingIssued(p: Params)
    requires SubsidyParams(p)
    ensures Issued(p, 1) == 0
  {
  }

  lemma {:induction false} IssuedBound(p: Params, n: nat)
    requires SubsidyParams(p) && p.slowStartInterval <= p.halvingInterval && n >= 1 && n >= p.slowStartInterval
    ensures Issued(p, n) + ToCome(p, n) <= 2 * p.halvingInterval * FULL
    decreases n
  {
    hide ToCome, BlockSubsidy;
    if n == p.slowStartInterval || n == 1 {
      FirstToCome(p, n);
    } else {
      IssuedBound(p, n - 1);
      ToComeStep(p, n - 1);
    }
  }

  lemma {:induction false} IssuedMono(p: Params, m: nat, n: nat)
    requires SubsidyParams(p) && m <= n
    ensures Issued(p, m) <= Issued(p, n)
  {
    hide BlockSubsidy;
    if m < n {
      IssuedMono(p, m, n - 1);
    }
  }

  /** However long the chain, the subsidies stay within the range of money if a period has at most 840000 blocks. */
  lemma SupplyInRange(p: Params, n: nat)
    requires SubsidyParams(p) && p.slowStartInterval <= p.halvingInterval <= 840000
    ensures MoneyRange(Issued(p, n))
  {
    hide Issued, ToCome;
    var m := n + p.slowStartInterval + 1;
    IssuedMono(p, n, m);
    IssuedBound(p, m);
    MulUpTo(2 * p.halvingInterval, FULL, 2 * 840000, FULL);
  }

  /** And so does all value of a chain, but for what its fork blocks paid out. */
  lemma ChainInRange(p: Params, chain: seq<Block>)
    requires SubsidyParams(p) && Replay(p, chain).Some? && p.slowStartInterval <= p.halvingInterval <= 840000
    ensures Total(Replay(p, chain).value.coins) + ShieldedByChain(chain) <= MAX_MONEY + ForkPaid(p, chain)
    ensures (forall h | 1 <= h < |chain| :: !p.IsForkBlock(h)) ==> ForkPaid(p, chain) == 0
  {
    hide Total, ShieldedByChain, Replay, Issued, CreatedBy, ForkPaid;
    ChainConserves(p, chain);
    CreatedBound(p, chain);
    SupplyInRange(p, |chain|);
  }
}
