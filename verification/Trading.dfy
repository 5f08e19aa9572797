/** Trading back and forth at one time: whatever is bought and sold, by whom, in whatever order and sizes, no more money
    comes out than went in, but for the roundings. */
module LiveTrading {
  import opened Arith
  import opened Outcomes
  import opened Pricing
  import opened Market
  import opened Solvency
  import opened LiveSplitting

  // ---------------------------------------------------------------- the value of a position

  function Clamped(y: int, hi: nat): nat {
    if y < 0 then 0 else if y > hi then hi else y
  }

  /** Twice the area under `Clamped(y + i·t)` from nothing to `n`, by trapezoids of width one. */
  function Value(y: int, i: nat, hi: nat, n: nat): nat {
    if n == 0 then 0 else Value(y, i, hi, n - 1) + Clamped(y + i * (n - 1), hi) + Clamped(y + i * n, hi)
  }

  /** A step of `a` upwards raises the clamp by at most `a`, and never lowers it. */
  lemma ClampedUp(y: int, a: nat, hi: nat)
    ensures Clamped(y, hi) <= Clamped(y + a, hi) <= Clamped(y, hi) + a
  {
  }

  /** The last trapezoid of `m + 1`, in the terms of the first `m`. */
  lemma LastStep(c: int, i: int, m: int)
    ensures i * (m + 1) == i * m + i
    ensures c * (m + 1) == c * m + c
    ensures i * (m + 1) * (m + 1) == i * m * m + i * m + i * (m + 1)
  {
  }

  lemma Along(y: int, i: int, n: int, m: int)
    ensures y + i * (n + m) == y + i * n + i * m
  {
  }

  /** Buying `u` more adds at most the present height on each, and a triangle. */
  lemma {:induction false} ValueRises(y: int, i: nat, hi: nat, n: nat, u: nat)
    ensures Value(y, i, hi, n) <= Value(y, i, hi, n + u)
         <= Value(y, i, hi, n) + 2 * (Clamped(y + i * n, hi) * u) + i * u * u
  {
    hide Clamped;
    if u > 0 {
      ValueRises(y, i, hi, n, u - 1);
      Along(y, i, n, u - 1);
      Along(y, i, n, u);
      MulMono(0, u - 1, i);
      MulMono(0, u, i);
      ClampedUp(y + i * n, i * u, hi);
      ClampedUp(y + i * n, i * (u - 1), hi);
      LastStep(Clamped(y + i * n, hi), i, u - 1);
    }
  }

  /** Selling `v` takes off at least the present height on each, less a triangle. */
  lemma {:induction false} ValueFalls(y: int, i: nat, hi: nat, n: nat, v: nat)
    requires v <= n
    ensures Value(y, i, hi, n - v) <= Value(y, i, hi, n)
    ensures Value(y, i, hi, n) - Value(y, i, hi, n - v) >= 2 * (Clamped(y + i * n, hi) * v) - i * v * v
  {
    hide Clamped;
    if v > 0 {
      ValueFalls(y, i, hi, n, v - 1);
      Along(y, i, n - v, v);
      Along(y, i, n - v + 1, v - 1);
      MulMono(0, v - 1, i);
      MulMono(0, v, i);
      ClampedUp(y + i * (n - v), i * v, hi);
      ClampedUp(y + i * (n - v + 1), i * (v - 1), hi);
      LastStep(Clamped(y + i * n, hi), i, v - 1);
    }
  }

  // ---------------------------------------------------------------- one purchase and one sale against it

  /** What a purchase pays covers the value it adds, but for `n` roundings of the lift and one of the projection. */
  lemma PurchaseCovers(d: nat, r: nat, z: nat, f: nat, p: nat, ask: nat, slope: nat, i: nat, u: nat, n: nat,
                       height: nat, rise: int)
    requires 0 < d && r <= d && z + f * r <= p * d + d && p <= ask && i * r <= slope * d
    requires height <= f * WAD + n * WAD && rise <= 2 * (height * u) + i * u * u
    ensures d * Area(ask, slope, u) + d * (2 * WAD * (u * (n + 1))) >= 2 * WAD * (z * u) + r * rise
  {
    MulMono(rise, 2 * (height * u) + i * u * u, r);
    MulMono(i * r, slope * d, u * u);
    MulMono(height, f * WAD + n * WAD, 2 * (r * u));
    MulMono(0, n, u);
    MulMono(r, d, 2 * WAD * (n * u));
    MulMono(z + f * r, p * d + d, 2 * WAD * u);
    MulMono(0, d, u);
    MulMono(p, ask, 2 * WAD * (d * u));
    RiseAt(r, f, i, u, n, height);
    ProjectionAt(d, r, z, f, p, u);
    CostAt(d, ask, slope, u, n);
  }

  lemma RiseAt(r: int, f: int, i: int, u: int, n: int, h: int)
    ensures r * (2 * (h * u) + i * u * u) == h * (2 * (r * u)) + (i * r) * (u * u)
    ensures (f * WAD + n * WAD) * (2 * (r * u)) == 2 * WAD * (f * r * u) + r * (2 * WAD * (n * u))
  {
  }

  lemma ProjectionAt(d: int, r: int, z: int, f: int, p: int, u: int)
    ensures (z + f * r) * (2 * WAD * u) == 2 * WAD * (z * u) + 2 * WAD * (f * r * u)
    ensures (p * d + d) * (2 * WAD * u) == p * (2 * WAD * (d * u)) + 2 * WAD * (d * u)
  {
  }

  lemma CostAt(d: int, ask: int, slope: int, u: int, n: int)
    ensures (slope * d) * (u * u) == d * (slope * u * u)
    ensures ask * (2 * WAD * (d * u)) == d * (2 * WAD * (ask * u))
    ensures d * (2 * WAD * (u * (n + 1))) == d * (2 * WAD * (n * u)) + 2 * WAD * (d * u)
    ensures d * (2 * WAD * (ask * u) + slope * u * u) == d * (2 * WAD * (ask * u)) + d * (slope * u * u)
  {
  }

  /** What a sale is paid is covered by the value it takes off, but for as many roundings and the slope's. */
  lemma SaleCovered(d: nat, r: nat, z: nat, f: nat, p: nat, keep: nat, bid: nat, slope: nat, i: nat, v: nat, n: nat,
                    height: nat, fall: nat)
    requires 0 < d && r <= d && p * d <= z + f * r && keep <= BPS && bid * BPS <= p * keep
    requires i * r * keep <= slope * (d * BPS) + d * BPS
    requires f * WAD <= height + n * WAD && 2 * (height * v) - i * v * v <= fall
    ensures d * (2 * WAD * (bid * v) - slope * v * v)
         <= 2 * WAD * (z * v) + r * fall + d * (2 * WAD * (n * v) + v * v)
  {
    MulMono(0, r, fall);
    MulMono(0, z, v);
    MulMono(0, n, v);
    MulMono(0, d, 2 * WAD * (n * v));
    var most := 2 * WAD * (z * v) + r * fall + d * (2 * WAD * (n * v));
    SaleAtHeight(d, r, z, f, i, v, n, height, fall);
    SaleAfterSpread(d, r, z, f, p, keep, bid, slope, i, v, most);
    PaidAt(d, bid, slope, v, 2 * WAD * (n * v));
  }

  lemma PaidAt(d: int, bid: int, slope: int, v: int, x: int)
    ensures d * (2 * WAD * (bid * v) - slope * v * v) == bid * (2 * WAD * (d * v)) - (slope * d) * (v * v)
    ensures d * (x + v * v) == d * x + d * (v * v)
  {
  }

  /** Before the spread: twice the unspread proceeds are no more than the value taken off. */
  lemma SaleAtHeight(d: nat, r: nat, z: nat, f: nat, i: nat, v: nat, n: nat, height: nat, fall: nat)
    requires r <= d && f * WAD <= height + n * WAD && 2 * (height * v) - i * v * v <= fall
    ensures (z + f * r) * (2 * WAD * v) - (i * r) * (v * v)
         <= 2 * WAD * (z * v) + r * fall + d * (2 * WAD * (n * v))
  {
    MulMono(0, r, v);
    MulMono(f * WAD, height + n * WAD, 2 * (r * v));
    MulMono(2 * (height * v) - i * v * v, fall, r);
    MulMono(0, n, v);
    MulMono(r, d, 2 * WAD * (n * v));
    ProjectionAt(0, r, z, f, 0, v);
    HeightAt(r, f, i, v, n, height);
  }

  lemma HeightAt(r: int, f: int, i: int, v: int, n: int, h: int)
    ensures (f * WAD) * (2 * (r * v)) == 2 * WAD * (f * r * v)
    ensures (h + n * WAD) * (2 * (r * v)) == r * (2 * (h * v)) + r * (2 * WAD * (n * v))
    ensures r * (2 * (h * v) - i * v * v) == r * (2 * (h * v)) - (i * r) * (v * v)
  {
  }

  /** The spread only takes away, but for the slope's rounding. */
  lemma SaleAfterSpread(d: nat, r: nat, z: nat, f: nat, p: nat, keep: nat, bid: nat, slope: nat, i: nat, v: nat,
                        most: nat)
    requires p * d <= z + f * r && keep <= BPS && bid * BPS <= p * keep
    requires i * r * keep <= slope * (d * BPS) + d * BPS
    requires (z + f * r) * (2 * WAD * v) - (i * r) * (v * v) <= most
    ensures bid * (2 * WAD * (d * v)) - (slope * d) * (v * v) <= most + d * (v * v)
  {
    MulMono(0, d, v);
    MulMono(0, keep, v);
    MulMono(bid * BPS, p * keep, 2 * WAD * (d * v));
    MulMono(p * d, z + f * r, 2 * WAD * (keep * v));
    MulMono(i * r * keep, slope * (d * BPS) + d * BPS, v * v);
    MulMono((z + f * r) * (2 * WAD * v) - (i * r) * (v * v), most, keep);
    MulMono(keep, BPS, most);
    KeptShare(d, z + f * r, p, keep, bid, v);
    KeptSlope(d, keep, slope, i * r, v);
    Distribute((z + f * r) * (2 * WAD * v), (i * r) * (v * v), keep);
    MulCancelAtMost(bid * (2 * WAD * (d * v)) - (slope * d) * (v * v), most + d * (v * v), BPS);
  }

  lemma KeptShare(d: int, x: int, p: int, keep: int, bid: int, v: int)
    ensures (bid * BPS) * (2 * WAD * (d * v)) == BPS * (bid * (2 * WAD * (d * v)))
    ensures (p * keep) * (2 * WAD * (d * v)) == (p * d) * (2 * WAD * (keep * v))
    ensures x * (2 * WAD * (keep * v)) == (x * (2 * WAD * v)) * keep
  {
  }

  lemma KeptSlope(d: int, keep: int, slope: int, ir: int, v: int)
    ensures (ir * keep) * (v * v) == (ir * (v * v)) * keep
    ensures (slope * (d * BPS) + d * BPS) * (v * v) == BPS * ((slope * d) * (v * v)) + BPS * (d * (v * v))
  {
  }

  lemma ProceedsBelow(bid: nat, slope: nat, unitNotional: nat, v: nat)
    requires ExitIntegral(bid, slope, v) >= 0
    ensures 2 * WAD * WAD2 * ExitProceeds(bid, slope, unitNotional, v)
         <= unitNotional * (2 * WAD * (bid * v) - slope * v * v + 2 * WAD)
  {
    hide Floor;
    var gain := ExitIntegral(bid, slope, v);
    assert 2 * WAD * gain <= 2 * WAD * (bid * v) - slope * v * v + 2 * WAD;
    MulMono(2 * WAD * gain, 2 * WAD * (bid * v) - slope * v * v + 2 * WAD, unitNotional);
    MulMono(0, unitNotional, gain);
    assert unitNotional * (2 * WAD * gain) == 2 * WAD * (unitNotional * gain);
  }

  lemma PaidBelow(bid: nat, slope: nat, unitNotional: nat, v: nat, paid: nat)
    requires ExitIntegral(bid, slope, v) >= 0 && paid <= ExitProceeds(bid, slope, unitNotional, v)
    ensures 2 * WAD * WAD2 * paid <= unitNotional * (2 * WAD * (bid * v) - slope * v * v + 2 * WAD)
  {
    ProceedsBelow(bid, slope, unitNotional, v);
    MulMono(paid, ExitProceeds(bid, slope, unitNotional, v), 2 * WAD * WAD2);
  }

  // ---------------------------------------------------------------- the books of all the trades together

  /** The roundings of `fills` fills over `volume` units traded, in 1e-18ths of twice a variance-unit. */
  function Allowance(fills: nat, volume: nat): nat {
    2 * WAD * (fills * (volume + 1)) + volume * volume
  }

  lemma AllowanceGrows(n: nat, volume: nat, u: nat)
    ensures Allowance(n, volume) <= Allowance(n + 1, volume)
    ensures Allowance(n, volume) + 2 * WAD * (u * (n + 1)) <= Allowance(n + 1, volume + u)
    ensures Allowance(n, volume) + 2 * WAD * (n * u) + u * u + 2 * WAD <= Allowance(n + 1, volume + u)
  {
    assert (n + 1) * (volume + u + 1) == n * (volume + 1) + n * u + volume + u + 1;
    assert (n + 1) * (volume + 1) == n * (volume + 1) + volume + 1;
    assert u * (n + 1) == n * u + u;
    assert (volume + u) * (volume + u) == volume * volume + 2 * (volume * u) + u * u;
    MulMono(0, volume, u);
  }

  /** Money out less money in, plus what the position is worth, stays within the allowance: after a purchase. */
  lemma BuyBalances(d: nat, k: nat, n: nat, z: nat, r: nat, g: int, x: int, worth: int, a: int, q: int, area: int,
                    e: int, u: int, rise: int, after: int)
    requires d * (k * g) + n * (2 * WAD * (z * x) + r * worth) <= n * (d * a)
    requires n * area <= k * q && d * area + d * e >= 2 * WAD * (z * u) + r * rise && a + e <= after
    ensures d * (k * (g - q)) + n * (2 * WAD * (z * (x + u)) + r * (worth + rise)) <= n * (d * after)
  {
    MulMono(n * area, k * q, d);
    MulMono(2 * WAD * (z * u) + r * rise, d * area + d * e, n);
    assert d * (k * (g - q)) == d * (k * g) - d * (k * q);
    PositionGrows(n, z, r, x, u, worth, rise);
    AllowanceSplits(n, d, a, e, area);
    MulMono(a + e, after, d);
    MulMono(d * (a + e), d * after, n);
  }

  lemma PositionGrows(n: int, z: int, r: int, x: int, u: int, worth: int, rise: int)
    ensures n * (2 * WAD * (z * (x + u)) + r * (worth + rise))
         == n * (2 * WAD * (z * x) + r * worth) + n * (2 * WAD * (z * u) + r * rise)
  {
    assert 2 * WAD * (z * (x + u)) + r * (worth + rise)
        == (2 * WAD * (z * x) + r * worth) + (2 * WAD * (z * u) + r * rise);
  }

  lemma AllowanceSplits(n: int, d: int, a: int, e: int, area: int)
    ensures n * (d * (a + e)) == n * (d * a) + n * (d * e)
    ensures n * (d * area + d * e) == d * (n * area) + n * (d * e)
  {
    assert d * (a + e) == d * a + d * e;
  }

  /** After a sale: the same, with the position and the money the other way round. */
  lemma SaleBalances(d: nat, k: nat, n: nat, z: nat, r: nat, g: int, x: int, worth: int, a: int, q: int, sold: int,
                     e: int, v: int, fall: int, after: int)
    requires d * (k * g) + n * (2 * WAD * (z * x) + r * worth) <= n * (d * a)
    requires k * q <= n * (sold + 2 * WAD) && d * sold <= 2 * WAD * (z * v) + r * fall + d * e
    requires a + e + 2 * WAD <= after
    ensures d * (k * (g + q)) + n * (2 * WAD * (z * (x - v)) + r * (worth - fall)) <= n * (d * after)
  {
    var area, extra := -(sold + 2 * WAD), e + 2 * WAD;
    assert n * area == -(n * (sold + 2 * WAD)) && k * -q == -(k * q);
    assert d * area + d * extra == -(d * sold) + d * e;
    assert z * -v == -(z * v) && r * -fall == -(r * fall);
    BuyBalances(d, k, n, z, r, g, x, worth, a, -q, area, extra, -v, -fall, after);
  }

  // ---------------------------------------------------------------- a series part of the way through the trades

  /** The height at which the value of a position starts, in 1e-18ths: where the forward variance of `s0` would stand
      with nothing outstanding. */
  function Base(s0: SeriesState, t: nat): int {
    (s0.params.anchorVariance + s0.SkewAt(t)) * WAD - s0.params.impactPerUnit * s0.outstandingUnits
  }

  function PositionValue(s0: SeriesState, t: nat, units: nat): nat {
    Value(Base(s0, t), s0.params.impactPerUnit, s0.params.capVariance * WAD, units)
  }

  function Height(s0: SeriesState, t: nat, units: nat): nat {
    Clamped(Base(s0, t) + s0.params.impactPerUnit * units, s0.params.capVariance * WAD)
  }

  /** How far the skew has moved beyond what is outstanding, in 1e-18ths: the roundings of the lifts. */
  function Drift(s0: SeriesState, s: SeriesState, t: nat): int {
    (s.SkewAt(t) - s0.SkewAt(t)) * WAD
    - (s0.params.impactPerUnit * s.outstandingUnits - s0.params.impactPerUnit * s0.outstandingUnits)
  }

  /** The clock and checkpoints of `s0`, with a skew that `n` fills have moved by what is outstanding beyond it. */
  ghost predicate SameWindow(s0: SeriesState, s: SeriesState, t: nat, n: nat) {
    && s.params == s0.params
    && s.processedThrough == s0.processedThrough
    && s.sumSquaredReturns == s0.sumSquaredReturns
    && 0 <= Drift(s0, s, t) + n * WAD && Drift(s0, s, t) <= n * WAD
  }

  /** What the window has already realized, in variance-seconds. */
  function Accrued(s0: SeriesState): nat
    requires s0.Priceable()
  {
    MulMono(0, s0.RealizedSoFar(), s0.processedThrough - s0.params.start);
    s0.RealizedSoFar() * (s0.processedThrough - s0.params.start)
  }

  /** The forward variance at such a state is the position's height, to within the roundings of its lifts. */
  lemma ForwardIsHeight(s0: SeriesState, s: SeriesState, t: nat, n: nat)
    requires SameWindow(s0, s, t, n)
    ensures var f := ForwardVariance(s.params.anchorVariance, s.SkewAt(t), s.params.capVariance);
      f * WAD - n * WAD <= Height(s0, t, s.outstandingUnits) <= f * WAD + n * WAD
  {
    hide DecaySkew;
  }

  lemma ProjectedAt(s0: SeriesState, s: SeriesState, t: nat, n: nat)
    requires s0.Priceable() && s.Priceable() && SameWindow(s0, s, t, n)
    ensures var q, d, r := s.QuoteAt(t), s0.params.expiry - s0.params.start, s0.params.expiry - s0.processedThrough;
      var f := ForwardVariance(s.params.anchorVariance, s.SkewAt(t), s.params.capVariance);
      && q.projectedVariance * d <= Accrued(s0) + f * r < q.projectedVariance * d + d
      && q.askVariance == AskVariance(q.projectedVariance, s0.params.halfSpreadBps, s0.params.capVariance)
      && q.bidVariance == BidVariance(q.projectedVariance, s0.params.halfSpreadBps, s0.params.capVariance)
      && q.askSlope == AskImpactSlope(s0.params.impactPerUnit, r, d, s0.params.halfSpreadBps)
      && q.bidSlope == BidImpactSlope(s0.params.impactPerUnit, r, d, s0.params.halfSpreadBps)
  {
    hide ForwardVariance, AskVariance, BidVariance, AskImpactSlope, BidImpactSlope, DecaySkew, Floor;
  }

  lemma AskAboveProjection(p: nat, sp: nat, cap: nat)
    requires AskVariance(p, sp, cap) < cap
    ensures p <= AskVariance(p, sp, cap)
  {
    hide Ceil;
    AskRounds(p, sp, cap);
    var a := AskVariance(p, sp, cap);
    MulMono(BPS, BPS + sp, p);
    MulCancelAtMost(p, a, BPS);
  }

  lemma BidBelowProjection(p: nat, sp: nat, cap: nat)
    requires sp < BPS
    ensures BidVariance(p, sp, cap) * BPS <= p * (BPS - sp)
  {
  }

  /** One trade asked for at one time. */
  datatype Deal = Buy(actor: string, amountIn: nat) | Sell(actor: string, units: nat)

  ghost function Dealt(s: SeriesState, v: VaultState, t: nat, deal: Deal): Result<Trade, Error>
    requires SeriesInv(s) && Backs(v, s)
  {
    InvPriceable(s);
    match deal
    case Buy(actor, amountIn) => s.Issue(v, t, actor, amountIn)
    case Sell(actor, units) => s.Exit(v, t, actor, units)
  }

  ghost function AfterDeals(s: SeriesState, v: VaultState, t: nat, deals: seq<Deal>): (SeriesState, VaultState)
    requires SeriesInv(s) && Backs(v, s)
    decreases deals
  {
    if deals == [] then (s, v)
    else
      DealKeeps(s, v, t, deals[0]);
      var r := Dealt(s, v, t, deals[0]);
      if r.Err? then AfterDeals(s, v, t, deals[1..]) else AfterDeals(r.value.series, r.value.vault, t, deals[1..])
  }

  /** The units that changed hands, either way. */
  ghost function Volume(s: SeriesState, v: VaultState, t: nat, deals: seq<Deal>): nat
    requires SeriesInv(s) && Backs(v, s)
    decreases deals
  {
    if deals == [] then 0
    else
      DealKeeps(s, v, t, deals[0]);
      var r := Dealt(s, v, t, deals[0]);
      if r.Err? then Volume(s, v, t, deals[1..])
      else
        (if r.value.fill.Some? then r.value.fill.value.units else 0)
        + Volume(r.value.series, r.value.vault, t, deals[1..])
  }

  lemma DealKeeps(s: SeriesState, v: VaultState, t: nat, deal: Deal)
    requires SeriesInv(s) && Backs(v, s)
    ensures var r := Dealt(s, v, t, deal);
      r.Ok? ==> SeriesInv(r.value.series) && Backs(r.value.vault, r.value.series)
  {
    hide SeriesInv, SeriesState.Issue, SeriesState.Exit;
    match deal
    case Buy(actor, amountIn) => IssueKeeps(s, v, t, actor, amountIn);
    case Sell(actor, units) => ExitKeeps(s, v, t, actor, units);
  }

  /** A purchase that fills is quoted inside the cap. */
  lemma BuyIs(s: SeriesState, v: VaultState, t: nat, actor: string, amountIn: nat)
    requires SeriesInv(s) && Backs(v, s)
    ensures s.Priceable()
    ensures var r := s.Issue(v, t, actor, amountIn);
      r.Ok? && r.value.fill.Some? ==> s.QuoteAt(t).askVariance < s.params.capVariance
  {
    InvPriceable(s);
    hide SeriesInv, SeriesState.QuoteAt, UnitsFor, IssuePremium, SeriesState.Reserve, IssueUnitsToCollateral;
  }

  /** One sale either changes nothing or pays at most the priced proceeds at the live bid. */
  lemma SellIs(s: SeriesState, v: VaultState, t: nat, actor: string, units: nat)
    requires SeriesInv(s) && Backs(v, s)
    ensures s.Priceable()
    ensures var r := s.Exit(v, t, actor, units);
      r.Ok? ==>
        match r.value.fill
        case None => r.value.series == s && r.value.vault == v
        case Some(fill) =>
          var q := s.QuoteAt(t);
          && fill.t == t && fill.units <= s.outstandingUnits && r.value.series == s.SoldBack(fill)
          && ExitIntegral(q.bidVariance, q.bidSlope, fill.units) >= 0
          && fill.quote <= ExitProceeds(q.bidVariance, q.bidSlope, s.params.unitNotional, fill.units)
  {
    InvPriceable(s);
    ExitFillFits(s, v, t, actor, units);
    hide SeriesInv, SeriesState.QuoteAt, ExitProceeds, ExitIntegral, SeriesState.Reserve, ExitUnitsToZeroBid;
  }

  /** The accounts of all the trades since `s0`: money out less money in, plus what the position beyond the first one
      is worth, within the allowance; everything over the denominators of the window, the price and the notional. */
  ghost predicate Balanced(s0: SeriesState, s: SeriesState, t: nat, n: nat, volume: nat)
    requires s0.Priceable()
  {
    var d, r := s0.params.expiry - s0.params.start, s0.params.expiry - s0.processedThrough;
    var out: int := (s.exitPaid - s0.exitPaid) - (s.premiumTaken - s0.premiumTaken);
    var worth: int := PositionValue(s0, t, s.outstandingUnits) - PositionValue(s0, t, s0.outstandingUnits);
    && SameWindow(s0, s, t, n)
    && d * (2 * WAD * WAD2 * out)
       + s0.params.unitNotional * (2 * WAD * (Accrued(s0) * (s.outstandingUnits - s0.outstandingUnits)) + r * worth)
       <= s0.params.unitNotional * (d * Allowance(n, volume))
  }

  lemma DriftBuys(s0: SeriesState, s: SeriesState, t: nat, n: nat, fill: Fill)
    requires s.Priceable() && SameWindow(s0, s, t, n) && fill.t == t && fill.units <= s.unitsAvailable
    ensures s.Bought(fill).Priceable() && SameWindow(s0, s.Bought(fill), t, n + 1)
  {
    hide Floor, DecaySkew;
    SkewAfterPurchase(s, fill);
    var i, u := s0.params.impactPerUnit, fill.units;
    assert i * (s.outstandingUnits + u) == i * s.outstandingUnits + i * u;
  }

  lemma DriftSells(s0: SeriesState, s: SeriesState, t: nat, n: nat, fill: Fill)
    requires s.Priceable() && SameWindow(s0, s, t, n) && fill.t == t && fill.units <= s.outstandingUnits
    ensures s.SoldBack(fill).Priceable() && SameWindow(s0, s.SoldBack(fill), t, n + 1)
  {
    hide Floor, DecaySkew;
    var i, v := s0.params.impactPerUnit, fill.units;
    SkewAfterSale(s, fill);
    assert i * (s.outstandingUnits - v) == i * s.outstandingUnits - i * v;
  }

  lemma SkewAfterPurchase(s: SeriesState, fill: Fill)
    requires fill.units <= s.unitsAvailable
    ensures s.Bought(fill).SkewAt(fill.t) == s.SkewAt(fill.t) + Floor(s.params.impactPerUnit * fill.units, WAD)
  {
    hide Floor;
  }

  lemma SkewAfterSale(s: SeriesState, fill: Fill)
    requires fill.units <= s.outstandingUnits
    ensures s.SoldBack(fill).SkewAt(fill.t) == s.SkewAt(fill.t) - Floor(s.params.impactPerUnit * fill.units, WAD)
  {
    hide Floor;
  }

  /** The ask's slope is at least the impact's share of the window, and the bid's at most one below its kept share. */
  lemma SlopesAround(i: nat, r: nat, d: nat, sp: nat)
    requires 0 < d && sp < BPS
    ensures i * r <= AskImpactSlope(i, r, d, sp) * d
    ensures i * r * (BPS - sp) <= BidImpactSlope(i, r, d, sp) * (d * BPS) + d * BPS
  {
    hide AskImpactSlope, BidImpactSlope;
    SlopeRounds(i, r, d, sp);
    var k := SlopesBracket(i, r, d, sp);
    MulMono(0, i, r);
    MulMono(BPS, BPS + sp, i * r);
    var a := AskImpactSlope(i, r, d, sp);
    assert a * (d * BPS) == BPS * (a * d);
    MulCancelAtMost(i * r, a * d, BPS);
  }

  /** What a purchase at such a state pays covers the value it adds. */
  lemma BoughtCovers(s0: SeriesState, s: SeriesState, t: nat, n: nat, u: nat)
    requires s0.Priceable() && s.Priceable() && SameWindow(s0, s, t, n)
    requires s.QuoteAt(t).askVariance < s.params.capVariance
    ensures var q, d, r := s.QuoteAt(t), s0.params.expiry - s0.params.start, s0.params.expiry - s0.processedThrough;
      var rise := PositionValue(s0, t, s.outstandingUnits + u) - PositionValue(s0, t, s.outstandingUnits);
      d * Area(q.askVariance, q.askSlope, u) + d * (2 * WAD * (u * (n + 1))) >= 2 * WAD * (Accrued(s0) * u) + r * rise
  {
    hide SeriesState.QuoteAt, Drift, Accrued, ForwardVariance, Area, AskVariance, AskImpactSlope, DecaySkew, Value,
         Clamped, Base;
    var p, d, r := s0.params, s0.params.expiry - s0.params.start, s0.params.expiry - s0.processedThrough;
    var q, f := s.QuoteAt(t), ForwardVariance(s.params.anchorVariance, s.SkewAt(t), s.params.capVariance);
    var rise := PositionValue(s0, t, s.outstandingUnits + u) - PositionValue(s0, t, s.outstandingUnits);
    ForwardIsHeight(s0, s, t, n);
    ProjectedAt(s0, s, t, n);
    AskAboveProjection(q.projectedVariance, p.halfSpreadBps, p.capVariance);
    SlopesAround(p.impactPerUnit, r, d, p.halfSpreadBps);
    ValueRises(Base(s0, t), p.impactPerUnit, p.capVariance * WAD, s.outstandingUnits, u);
    PurchaseCovers(d, r, Accrued(s0), f, q.projectedVariance, q.askVariance, q.askSlope, p.impactPerUnit, u, n,
                   Height(s0, t, s.outstandingUnits), rise);
  }

  /** What a sale at such a state is paid is covered by the value it takes off. */
  lemma SoldCovered(s0: SeriesState, s: SeriesState, t: nat, n: nat, v: nat)
    requires s0.Priceable() && s.Priceable() && SameWindow(s0, s, t, n) && v <= s.outstandingUnits
    ensures var q, d, r := s.QuoteAt(t), s0.params.expiry - s0.params.start, s0.params.expiry - s0.processedThrough;
      var fall := PositionValue(s0, t, s.outstandingUnits) - PositionValue(s0, t, s.outstandingUnits - v);
      d * (2 * WAD * (q.bidVariance * v) - q.bidSlope * v * v)
      <= 2 * WAD * (Accrued(s0) * v) + r * fall + d * (2 * WAD * (n * v) + v * v)
  {
    hide SeriesState.QuoteAt, Drift, Accrued, ForwardVariance, BidVariance, BidImpactSlope, DecaySkew, Value,
         Clamped, Base;
    var p, d, r := s0.params, s0.params.expiry - s0.params.start, s0.params.expiry - s0.processedThrough;
    var q, f := s.QuoteAt(t), ForwardVariance(s.params.anchorVariance, s.SkewAt(t), s.params.capVariance);
    ForwardIsHeight(s0, s, t, n);
    ProjectedAt(s0, s, t, n);
    BidBelowProjection(q.projectedVariance, p.halfSpreadBps, p.capVariance);
    SlopesAround(p.impactPerUnit, r, d, p.halfSpreadBps);
    ValueFalls(Base(s0, t), p.impactPerUnit, p.capVariance * WAD, s.outstandingUnits, v);
    var fall: nat := PositionValue(s0, t, s.outstandingUnits) - PositionValue(s0, t, s.outstandingUnits - v);
    SaleCovered(d, r, Accrued(s0), f, q.projectedVariance, BPS - p.halfSpreadBps, q.bidVariance, q.bidSlope,
                p.impactPerUnit, v, n, Height(s0, t, s.outstandingUnits), fall);
  }

  lemma BoughtBalances(s0: SeriesState, s: SeriesState, t: nat, n: nat, volume: nat, fill: Fill)
    requires s0.Priceable() && s.Priceable() && Balanced(s0, s, t, n, volume)
    requires fill.t == t && fill.units <= s.unitsAvailable && s.QuoteAt(t).askVariance < s.params.capVariance
    requires fill.quote
          == IssuePremium(s.QuoteAt(t).askVariance, s.QuoteAt(t).askSlope, s.params.unitNotional, fill.units)
    ensures Balanced(s0, s.Bought(fill), t, n + 1, volume + fill.units)
  {
    hide SeriesState.QuoteAt, SeriesState.SkewAt, Drift, Accrued, Area, IssuePremium, PositionValue, Allowance,
         SeriesState.Reserve, Floor;
    DriftBuys(s0, s, t, n, fill);
    BoughtCovers(s0, s, t, n, fill.units);
    var q, k, u := s.QuoteAt(t), s0.params.unitNotional, fill.units;
    var d, r := s0.params.expiry - s0.params.start, s0.params.expiry - s0.processedThrough;
    var area, e := Area(q.askVariance, q.askSlope, u), 2 * WAD * (u * (n + 1));
    PremiumAbove(q.askVariance, q.askSlope, k, u);
    AllowanceGrows(n, volume, u);
    var rise := PositionValue(s0, t, s.outstandingUnits + u) - PositionValue(s0, t, s.outstandingUnits);
    BuyBalances(d, 2 * WAD * WAD2, k, Accrued(s0), r,
                (s.exitPaid - s0.exitPaid) - (s.premiumTaken - s0.premiumTaken),
                s.outstandingUnits - s0.outstandingUnits,
                PositionValue(s0, t, s.outstandingUnits) - PositionValue(s0, t, s0.outstandingUnits),
                Allowance(n, volume), fill.quote, area, e, u, rise, Allowance(n + 1, volume + u));
  }

  lemma SoldBalances(s0: SeriesState, s: SeriesState, t: nat, n: nat, volume: nat, fill: Fill)
    requires s0.Priceable() && s.Priceable() && Balanced(s0, s, t, n, volume)
    requires fill.t == t && fill.units <= s.outstandingUnits
    requires ExitIntegral(s.QuoteAt(t).bidVariance, s.QuoteAt(t).bidSlope, fill.units) >= 0
    requires fill.quote
          <= ExitProceeds(s.QuoteAt(t).bidVariance, s.QuoteAt(t).bidSlope, s.params.unitNotional, fill.units)
    ensures Balanced(s0, s.SoldBack(fill), t, n + 1, volume + fill.units)
  {
    hide SeriesState.QuoteAt, SeriesState.SkewAt, Drift, Accrued, ExitProceeds, ExitIntegral, PositionValue, Allowance,
         SeriesState.Reserve, Floor;
    DriftSells(s0, s, t, n, fill);
    SoldCovered(s0, s, t, n, fill.units);
    var q, k, v := s.QuoteAt(t), s0.params.unitNotional, fill.units;
    var d, r := s0.params.expiry - s0.params.start, s0.params.expiry - s0.processedThrough;
    var sold, e := 2 * WAD * (q.bidVariance * v) - q.bidSlope * v * v, 2 * WAD * (n * v) + v * v;
    PaidBelow(q.bidVariance, q.bidSlope, k, v, fill.quote);
    AllowanceGrows(n, volume, v);
    var fall := PositionValue(s0, t, s.outstandingUnits) - PositionValue(s0, t, s.outstandingUnits - v);
    SaleBalances(d, 2 * WAD * WAD2, k, Accrued(s0), r,
                 (s.exitPaid - s0.exitPaid) - (s.premiumTaken - s0.premiumTaken),
                 s.outstandingUnits - s0.outstandingUnits,
                 PositionValue(s0, t, s.outstandingUnits) - PositionValue(s0, t, s0.outstandingUnits),
                 Allowance(n, volume), fill.quote, sold, e, v, fall,
                 Allowance(n + 1, volume + v));
  }

  lemma {:induction false} DealsBalance(s0: SeriesState, s: SeriesState, v: VaultState, t: nat, deals: seq<Deal>,
                                        n: nat, volume: nat)
    requires s0.Priceable() && SeriesInv(s) && Backs(v, s) && Balanced(s0, s, t, n, volume)
    ensures Balanced(s0, AfterDeals(s, v, t, deals).0, t, n + |deals|, volume + Volume(s, v, t, deals))
    decreases deals
  {
    hide SeriesInv, Balanced, Dealt, Backs;
    if deals != [] {
      DealKeeps(s, v, t, deals[0]);
      var r, rest := Dealt(s, v, t, deals[0]), deals[1..];
      MoreRoom(s0, s, t, n, volume);
      if r.Err? {
        DealsBalance(s0, s, v, t, rest, n + 1, volume);
      } else {
        DealBalances(s0, s, v, t, deals[0], n, volume);
        var u := if r.value.fill.Some? then r.value.fill.value.units else 0;
        DealsBalance(s0, r.value.series, r.value.vault, t, rest, n + 1, volume + u);
      }
    }
  }

  lemma MoreRoom(s0: SeriesState, s: SeriesState, t: nat, n: nat, volume: nat)
    requires s0.Priceable() && Balanced(s0, s, t, n, volume)
    ensures Balanced(s0, s, t, n + 1, volume)
  {
    hide Drift, Accrued, PositionValue, Allowance;
    var d := s0.params.expiry - s0.params.start;
    AllowanceGrows(n, volume, 0);
    MulMono(Allowance(n, volume), Allowance(n + 1, volume), d);
    MulMono(d * Allowance(n, volume), d * Allowance(n + 1, volume), s0.params.unitNotional);
  }

  lemma IssueBalances(s0: SeriesState, s: SeriesState, v: VaultState, t: nat, actor: string, amountIn: nat,
                      n: nat, volume: nat)
    requires s0.Priceable() && SeriesInv(s) && Backs(v, s) && Balanced(s0, s, t, n, volume)
    ensures s.Priceable()
    ensures s.Issue(v, t, actor, amountIn).Ok? ==>
              var r := s.Issue(v, t, actor, amountIn).value;
              Balanced(s0, r.series, t, n + 1, volume + if r.fill.Some? then r.fill.value.units else 0)
  {
    hide SeriesState.QuoteAt, SeriesState.Issue, SeriesInv, Balanced, IssuePremium;
    OfferIs(s, v, t, actor, amountIn);
    BuyIs(s, v, t, actor, amountIn);
    MoreRoom(s0, s, t, n, volume);
    var r := s.Issue(v, t, actor, amountIn);
    if r.Ok? && r.value.fill.Some? {
      BoughtBalances(s0, s, t, n, volume, r.value.fill.value);
    }
  }

  lemma ExitBalances(s0: SeriesState, s: SeriesState, v: VaultState, t: nat, actor: string, units: nat,
                     n: nat, volume: nat)
    requires s0.Priceable() && SeriesInv(s) && Backs(v, s) && Balanced(s0, s, t, n, volume)
    ensures s.Priceable()
    ensures s.Exit(v, t, actor, units).Ok? ==>
              var r := s.Exit(v, t, actor, units).value;
              Balanced(s0, r.series, t, n + 1, volume + if r.fill.Some? then r.fill.value.units else 0)
  {
    hide SeriesState.QuoteAt, SeriesState.Exit, SeriesInv, Balanced, ExitProceeds, ExitIntegral;
    SellIs(s, v, t, actor, units);
    MoreRoom(s0, s, t, n, volume);
    var r := s.Exit(v, t, actor, units);
    if r.Ok? && r.value.fill.Some? {
      SoldBalances(s0, s, t, n, volume, r.value.fill.value);
    }
  }

  lemma DealBalances(s0: SeriesState, s: SeriesState, v: VaultState, t: nat, deal: Deal, n: nat, volume: nat)
    requires s0.Priceable() && SeriesInv(s) && Backs(v, s) && Balanced(s0, s, t, n, volume)
    requires Dealt(s, v, t, deal).Ok?
    ensures var r := Dealt(s, v, t, deal).value;
      Balanced(s0, r.series, t, n + 1, volume + if r.fill.Some? then r.fill.value.units else 0)
  {
    hide SeriesState.Issue, SeriesState.Exit, SeriesInv, Backs, Balanced;
    match deal
    case Buy(actor, amountIn) => IssueBalances(s0, s, v, t, actor, amountIn, n, volume);
    case Sell(actor, units) => ExitBalances(s0, s, v, t, actor, units, n, volume);
  }

  lemma StartsBalanced(s: SeriesState, t: nat)
    requires s.Priceable()
    ensures Balanced(s, s, t, 0, 0)
  {
    hide PositionValue;
    assert Accrued(s) * 0 == 0;
  }

  /** Money paid out since `s0`, less the money taken in. */
  function Gain(s0: SeriesState, s: SeriesState): int {
    (s.exitPaid - s0.exitPaid) - (s.premiumTaken - s0.premiumTaken)
  }

  /** What the roundings of `n` fills over `volume` units are worth, in quote units rounded down. */
  function RoundingsWorth(p: Params, n: nat, volume: nat): nat {
    Floor(p.unitNotional * Allowance(n, volume), 2 * WAD * WAD2)
  }

  /** From the accounts to the money: a position that has not shrunk is worth no less than before. */
  lemma BalancedMoney(s0: SeriesState, s: SeriesState, t: nat, n: nat, volume: nat)
    requires s0.Priceable() && Balanced(s0, s, t, n, volume) && s0.outstandingUnits <= s.outstandingUnits
    ensures Gain(s0, s) <= RoundingsWorth(s0.params, n, volume)
  {
    hide Drift, Accrued, Allowance, Base, Value, Floor;
    var d, r := s0.params.expiry - s0.params.start, s0.params.expiry - s0.processedThrough;
    var k, x: nat := s0.params.unitNotional, s.outstandingUnits - s0.outstandingUnits;
    ValueRises(Base(s0, t), s0.params.impactPerUnit, s0.params.capVariance * WAD, s0.outstandingUnits, x);
    var worth: int := PositionValue(s0, t, s.outstandingUnits) - PositionValue(s0, t, s0.outstandingUnits);
    MulMono(0, x, Accrued(s0));
    MulMono(0, worth, r);
    MulMono(0, 2 * WAD * (Accrued(s0) * x) + r * worth, k);
    assert k * (d * Allowance(n, volume)) == d * (k * Allowance(n, volume));
    MulCancelAtMost(2 * WAD * WAD2 * Gain(s0, s), k * Allowance(n, volume), d);
    MulMono(0, k, Allowance(n, volume));
    FloorIs(k * Allowance(n, volume), 2 * WAD * WAD2, Gain(s0, s));
  }

  /** Any list of purchases and sales at one time, by anyone and in any order, through every clamp of the live market:
      as long as no fewer units are outstanding after it than before, the money paid out exceeds the money taken in by
      no more than the roundings are worth. */
  lemma TradingGainsOnlyRoundings(s: SeriesState, v: VaultState, t: nat, deals: seq<Deal>)
    requires SeriesInv(s) && Backs(v, s)
    ensures var after := AfterDeals(s, v, t, deals).0;
      s.outstandingUnits <= after.outstandingUnits ==>
        after.exitPaid - s.exitPaid
        <= after.premiumTaken - s.premiumTaken + RoundingsWorth(s.params, |deals|, Volume(s, v, t, deals))
  {
    InvPriceable(s);
    hide SeriesInv, AfterDeals, Volume, Balanced, RoundingsWorth;
    StartsBalanced(s, t);
    DealsBalance(s, s, v, t, deals, 0, 0);
    var after := AfterDeals(s, v, t, deals).0;
    if s.outstandingUnits <= after.outstandingUnits {
      BalancedMoney(s, after, t, |deals|, Volume(s, v, t, deals));
    }
  }

  lemma SmallAllowance(n: nat, volume: nat)
    requires n <= 100 && volume <= 1_000 * WAD
    ensures Allowance(n, volume) <= 2 * WAD2 * WAD / 100_000_000 - 1
  {
    MulMono(n, 100, volume + 1);
    MulMono(volume, 1_000 * WAD, volume);
  }

  /** With a notional of 100 units of a six-decimal currency the roundings are worth nothing: a hundred trades of up to
      a thousand units in all gain nothing whatever. */
  lemma SixDecimalsGainNothing(s: SeriesState, v: VaultState, t: nat, deals: seq<Deal>)
    requires SeriesInv(s) && Backs(v, s) && s.params.unitNotional <= 100_000_000
    requires |deals| <= 100 && Volume(s, v, t, deals) <= 1_000 * WAD
    ensures var after := AfterDeals(s, v, t, deals).0;
      s.outstandingUnits <= after.outstandingUnits ==>
        after.exitPaid - s.exitPaid <= after.premiumTaken - s.premiumTaken
  {
    hide SeriesInv, AfterDeals, Volume, Allowance, Floor;
    var n, volume := |deals|, Volume(s, v, t, deals);
    TradingGainsOnlyRoundings(s, v, t, deals);
    SmallAllowance(n, volume);
    SmallNotional(s.params, Allowance(n, volume));
  }

  lemma SmallNotional(p: Params, a: nat)
    requires p.unitNotional <= 100_000_000 && a <= 2 * WAD2 * WAD / 100_000_000 - 1
    ensures Floor(p.unitNotional * a, 2 * WAD * WAD2) == 0
  {
    hide Floor;
    MulMono(p.unitNotional, 100_000_000, a);
    MulMono(0, p.unitNotional, a);
    FloorIs(p.unitNotional * a, 2 * WAD * WAD2, 1);
  }
}
