/** Trading against oneself: a purchase followed at once by a sale, through every clamp of both legs. */
module RoundTrip {
  import opened Arith
  import opened Outcomes
  import opened Pricing
  import opened Market
  import opened Solvency

  /** A purchase lifts the forward variance, and by no more than its stated impact. */
  lemma ForwardLift(anchor: nat, skew: int, lift: nat, cap: nat)
    ensures ForwardVariance(anchor, skew, cap) <= ForwardVariance(anchor, skew + lift, cap)
         <= ForwardVariance(anchor, skew, cap) + lift
  {
  }

  /** Buying `u` units and selling any `unitsBack <= u` of them at the same time, with no checkpoint between, returns at
      most the premium and what the excess of the size sold over the spread is worth. At any spread that excess is at
      most four last places on every unit sold and the size squared. */
  lemma ImmediateRoundTripGainsAtMost(
    s: SeriesState, v: VaultState, now: nat, buyer: string, amountIn: nat, seller: string, unitsBack: nat)
    requires SeriesInv(s) && Backs(v, s) && s.Priceable()
    requires s.Issue(v, now, buyer, amountIn).Ok? && s.Issue(v, now, buyer, amountIn).value.fill.Some?
    requires unitsBack <= s.Issue(v, now, buyer, amountIn).value.fill.value.units
    ensures var bought := s.Issue(v, now, buyer, amountIn).value;
            && bought.series.Priceable()
            && var sold := bought.series.Exit(bought.vault, now, seller, unitsBack);
               && sold.Ok?
               && (sold.value.fill.Some? ==>
                     var back := sold.value.fill.value;
                     back.units <= unitsBack
                     && back.quote <= bought.fill.value.quote + TripWorth(s, now, back.units))
    ensures Excess(s.QuoteAt(now).askVariance, s.QuoteAt(now).bidVariance, unitsBack)
         <= 4 * WAD * unitsBack + unitsBack * unitsBack
  {
    hide TripWorth, Excess, SeriesState.QuoteAt, SeriesInv, SeriesState.Reserve;
    var bought := s.Issue(v, now, buyer, amountIn).value;
    IssueKeeps(s, v, now, buyer, amountIn);
    IssueFillFits(s, v, now, buyer, amountIn);
    BoughtThenSold(s, bought.series, bought.fill.value, now, buyer, amountIn, v.Free(), bought.vault.balance, seller,
                   unitsBack);
    ExitKeeps(bought.series, bought.vault, now, seller, unitsBack);
    QuotedBidBelowAsk(s, now);
    ExcessAtMost(s.QuoteAt(now).askVariance, s.QuoteAt(now).bidVariance, unitsBack);
  }

  lemma QuotedBidBelowAsk(s: SeriesState, now: nat)
    requires s.Priceable()
    ensures s.QuoteAt(now).bidVariance <= s.QuoteAt(now).askVariance
  {
    hide AskVariance, BidVariance, DecaySkew, Floor;
    BidNeverAboveAsk(s.QuoteAt(now).projectedVariance, s.params.halfSpreadBps, s.params.capVariance);
  }

  /** What the excess of a size sold over the quoted spread is worth. */
  function TripWorth(s: SeriesState, now: nat, units: nat): nat
    requires s.Priceable()
  {
    ExcessWorth(s.params.unitNotional, s.QuoteAt(now).askVariance, s.QuoteAt(now).bidVariance, units)
  }

  /** It never returns more than the premium whenever the spread is wide enough for the size sold:
      `unitsBack <= 2·(ask − bid − 2)·1e18`. */
  lemma ImmediateRoundTripNeverProfits(
    s: SeriesState, v: VaultState, now: nat, buyer: string, amountIn: nat, seller: string, unitsBack: nat)
    requires SeriesInv(s) && Backs(v, s) && s.Priceable()
    requires s.Issue(v, now, buyer, amountIn).Ok? && s.Issue(v, now, buyer, amountIn).value.fill.Some?
    requires unitsBack <= s.Issue(v, now, buyer, amountIn).value.fill.value.units
    requires unitsBack <= 2 * WAD * (s.QuoteAt(now).askVariance - s.QuoteAt(now).bidVariance - 2)
    ensures var bought := s.Issue(v, now, buyer, amountIn).value;
            && bought.series.Priceable()
            && var sold := bought.series.Exit(bought.vault, now, seller, unitsBack);
               sold.Ok? && (sold.value.fill.Some? ==> sold.value.fill.value.quote <= bought.fill.value.quote)
  {
    hide SeriesInv, SeriesState.Issue, SeriesState.Exit, SeriesState.QuoteAt, TripWorth;
    ImmediateRoundTripGainsAtMost(s, v, now, buyer, amountIn, seller, unitsBack);
    var bought := s.Issue(v, now, buyer, amountIn).value;
    var sold := bought.series.Exit(bought.vault, now, seller, unitsBack);
    if sold.value.fill.Some? {
      WideSpreadNoExcess(s, now, sold.value.fill.value.units);
    }
  }

  lemma WideSpreadNoExcess(s: SeriesState, now: nat, units: nat)
    requires s.Priceable() && units <= 2 * WAD * (s.QuoteAt(now).askVariance - s.QuoteAt(now).bidVariance - 2)
    ensures TripWorth(s, now, units) == 0
  {
    hide Excess, Floor, Ceil, SeriesState.QuoteAt;
    NoExcess(s.QuoteAt(now).askVariance, s.QuoteAt(now).bidVariance, units);
    CeilIs(0, 2 * WAD, 0);
    FloorIs(0, WAD2, 1);
  }

  /** The same, on the two fills. */
  lemma BoughtThenSold(s: SeriesState, s1: SeriesState, fill: Fill, now: nat, buyer: string, amountIn: nat, free: nat,
                       balance: int, seller: string, unitsBack: nat)
    requires s.Priceable() && s.IssueFill(free, now, buyer, amountIn) == Some(fill)
    requires fill.units <= s.unitsAvailable && unitsBack <= fill.units && s1 == s.Bought(fill)
    ensures var sold := s1.ExitFill(balance, now, seller, unitsBack);
            sold.Ok? && sold.value.Some? ==>
              && sold.value.value.units <= unitsBack
              && sold.value.value.quote <= fill.quote + TripWorth(s, now, sold.value.value.units)
  {
    hide TripWorth;
    var sold := s1.ExitFill(balance, now, seller, unitsBack);
    if sold.Ok? && sold.value.Some? {
      PricedRoundTrip(s, s1, now, fill.units, sold.value.value.units);
    }
  }

  /** The same comparison on the quotes before and after the purchase. */
  lemma PricedRoundTrip(s: SeriesState, s1: SeriesState, now: nat, u: nat, back: nat)
    requires s.Priceable() && s1.Priceable() && s1.params == s.params && 0 < back <= u
    requires s1.processedThrough == s.processedThrough && s1.sumSquaredReturns == s.sumSquaredReturns
    requires s1.skew == s.SkewAt(now) + Floor(s.params.impactPerUnit * u, WAD) && s1.lastSkewTs == now
    requires ExitIntegral(s1.QuoteAt(now).bidVariance, s1.QuoteAt(now).bidSlope, back) >= 0
    ensures ExitProceeds(s1.QuoteAt(now).bidVariance, s1.QuoteAt(now).bidSlope, s.params.unitNotional, back)
         <= IssuePremium(s.QuoteAt(now).askVariance, s.QuoteAt(now).askSlope, s.params.unitNotional, u)
            + TripWorth(s, now, back)
  {
    hide ExcessWorth;
    var p, lift := s.params, Floor(s.params.impactPerUnit * u, WAD);
    var elapsed, remaining := s.processedThrough - p.start, p.expiry - s.processedThrough;
    var q0, q1 := s.QuoteAt(now), s1.QuoteAt(now);
    ForwardLift(p.anchorVariance, s.SkewAt(now), lift, p.capVariance);
    LiftedTrip(q0.realizedSoFar, q0.marketVariance, q1.marketVariance, q0.projectedVariance, q1.projectedVariance,
               elapsed, remaining, lift, p, u, back);
  }

  lemma LiftedTrip(realized: nat, f0: nat, f1: nat, p0: nat, p1: nat, elapsed: nat, remaining: nat, lift: nat,
                   p: Params, u: nat, back: nat)
    requires p.Valid() && 0 < elapsed + remaining && 0 < back <= u
    requires f0 <= f1 <= f0 + lift && lift * WAD <= p.impactPerUnit * u
    requires p0 == ProjectedVariance(realized, elapsed, f0, remaining)
    requires p1 == ProjectedVariance(realized, elapsed, f1, remaining)
    requires ExitIntegral(BidVariance(p1, p.halfSpreadBps, p.capVariance),
                          BidImpactSlope(p.impactPerUnit, remaining, elapsed + remaining, p.halfSpreadBps), back) >= 0
    ensures ExitProceeds(BidVariance(p1, p.halfSpreadBps, p.capVariance),
                         BidImpactSlope(p.impactPerUnit, remaining, elapsed + remaining, p.halfSpreadBps),
                         p.unitNotional, back)
         <= IssuePremium(AskVariance(p0, p.halfSpreadBps, p.capVariance),
                         AskImpactSlope(p.impactPerUnit, remaining, elapsed + remaining, p.halfSpreadBps),
                         p.unitNotional, u)
            + ExcessWorth(p.unitNotional, AskVariance(p0, p.halfSpreadBps, p.capVariance),
                          BidVariance(p0, p.halfSpreadBps, p.capVariance), back)
  {
    hide AskVariance, BidVariance, AskImpactSlope, BidImpactSlope, ExitIntegral, ExitProceeds, IssuePremium, Floor,
         ExcessWorth;
    MulMono(f1 - f0, lift, WAD);
    MulMono(0, realized, elapsed);
    RoundTripGainsAtMost(realized * elapsed, f0, f1, p0, p1, remaining, elapsed + remaining,
                         p.halfSpreadBps, p.capVariance, p.impactPerUnit, p.unitNotional, u, back);
  }
}
