/** Runs from an empty vault that end where a documented claim fails. */
module Witnesses {
  import opened Arith
  import opened Outcomes
  import opened Pricing
  import opened Market
  import opened Solvency
  import opened MarketRuns
  import opened LiveSplitting
  import opened LiveSales
  import opened Redemption

  // ---------------------------------------------------------------- stepping through a run

  lemma RunThen(ops: seq<Op>, op: Op)
    ensures BookInv(Genesis())
    ensures Run(Genesis(), ops + [op]) == Next(Run(Genesis(), ops), op)
  {
    assert BookInv(Genesis());
    hide Next, BookInv;
    RunSplits(Genesis(), ops, [op]);
    assert [op][1..] == [];
  }

  /** A funded vault with one fresh series. */
  function Opening(deposit: nat, p: Params): seq<Op> {
    [Deposit(deposit)] + [Open(p)]
  }

  lemma OpeningIs(deposit: nat, p: Params)
    requires p.Valid()
    ensures BookInv(Genesis())
    ensures Run(Genesis(), Opening(deposit, p)) == Book(VaultState(deposit, 0, 0, deposit), [Opened(p)])
  {
    RunThen([], Deposit(deposit));
    assert [] + [Deposit(deposit)] == [Deposit(deposit)];
    RunThen([Deposit(deposit)], Open(p));
  }

  lemma OnlySeriesMoves(b: Book, op: Op, t: Trade)
    requires BookInv(b) && |b.series| == 1 && OnSeriesOp(op, 0)
    requires TradeOf(b.series[0], b.vault, op) == Ok(t)
    ensures Next(b, op) == Book(t.vault, [t.series])
    ensures SeriesInv(t.series) && Backs(t.vault, t.series)
  {
    BookBacks(b, 0);
    TradeKeeps(b.series[0], b.vault, op);
    assert b.series[0 := t.series] == [t.series];
    BookBacks(Next(b, op), 0);
  }

  // ---------------------------------------------------------------- one purchase, from numbers

  lemma CeilSqrtIs(n: nat, r: nat)
    requires r > 0 && (r - 1) * (r - 1) < n <= r * r
    ensures CeilSqrt(n) == r
  {
    var c := CeilSqrt(n);
    if c < r {
      SquareMono(c, r - 1);
    } else if c > r {
      SquareMono(r, c - 1);
    }
  }

  /** The size an offer asks for, from its budget, the discriminant's root and the quotient. */
  lemma UnitsForIs(ask: nat, slope: nat, n: nat, offer: nat, x: nat, y: nat, root: nat, units: nat)
    requires n > 0 && ask > 0 && slope > 0 && offer > 0 && root > 0
    requires x * n <= offer * WAD2 < x * n + n
    requires y * WAD >= 2 * slope * x > y * WAD - WAD
    requires (root - 1) * (root - 1) < ask * ask + y <= root * root
    requires units * (ask + root) <= 2 * x < units * (ask + root) + (ask + root)
    ensures UnitsFor(ask, slope, n, offer) == units
  {
    hide Floor, Ceil, CeilSqrt;
    QuotientIs(offer * WAD2, n, x);
    CeilIs(2 * slope * x, WAD, y);
    CeilIs(2 * slope * x, WAD, y as int - 1);
    CeilSqrtIs(ask * ask + y, root);
    QuotientIs(2 * x, ask + root, units);
  }

  lemma QuotientIs(a: nat, d: nat, q: nat)
    requires d > 0 && q * d <= a < q * d + d
    ensures Floor(a, d) == q
  {
    hide Floor;
    FloorIs(a, d, q);
    FloorIs(a, d, q + 1);
  }

  /** No clamp cuts an offer of this size short. */
  ghost predicate FillsInFull(s: SeriesState, free: int, t: nat, offer: nat, units: nat)
    requires s.Priceable()
  {
    var q := s.QuoteAt(t);
    && UnitsFor(q.askVariance, q.askSlope, s.params.unitNotional, offer) == units
    && 0 < units <= s.unitsAvailable
    && units <= IssueUnitsToCap(q.askVariance, q.askSlope, s.params.capVariance)
    && 0 < IssuePremium(q.askVariance, q.askSlope, s.params.unitNotional, units)
    && s.Reserve(s.outstandingUnits + units) <= s.lockedLiability + free
  }

  lemma OfferFills(s: SeriesState, free: nat, t: nat, actor: string, offer: nat, units: nat)
    requires s.Priceable() && FillsInFull(s, free, t, offer, units)
    ensures var q := s.QuoteAt(t);
      var cost := IssuePremium(q.askVariance, q.askSlope, s.params.unitNotional, units);
      s.IssueFill(free, t, actor, offer) == Some(Fill(t, IssueLeg, actor, units, cost, false))
  {
    hide SeriesState.QuoteAt, UnitsFor, IssueUnitsToCap, IssuePremium, IssueUnitsToCollateral;
    CollateralClampFits(
      s.outstandingUnits, s.lockedLiability, free, s.params.unitNotional, s.params.capVariance, units);
  }

  /** An offer that no clamp cuts short buys what it asks for. */
  lemma OfferBuys(s: SeriesState, v: VaultState, t: nat, actor: string, offer: nat, units: nat)
    requires SeriesInv(s) && Backs(v, s) && s.Priceable() && s.IssuanceOpen(t) && s.IsCurrent(t)
    requires FillsInFull(s, v.Free(), t, offer, units)
    ensures var q := s.QuoteAt(t);
      var cost := IssuePremium(q.askVariance, q.askSlope, s.params.unitNotional, units);
      var fill := Fill(t, IssueLeg, actor, units, cost, false);
      var after := s.Bought(fill);
      var locked := v.locked + after.lockedLiability - s.lockedLiability;
      s.Issue(v, t, actor, offer)
      == Ok(Trade(after, v.(locked := locked, balance := v.balance + cost), Some(fill)))
  {
    hide SeriesState.QuoteAt, UnitsFor, IssueUnitsToCap, IssuePremium, SeriesState.IssueFill, SeriesInv;
    var q := s.QuoteAt(t);
    OfferFills(s, v.Free(), t, actor, offer, units);
    var cost := IssuePremium(q.askVariance, q.askSlope, s.params.unitNotional, units);
    BoughtAccounted(s, v, Fill(t, IssueLeg, actor, units, cost, false));
  }

  // ---------------------------------------------------------------- two offers on one quote

  /** Everything one offer or two need of a state to buy `2 * units` at an ask that the first fill does not move. */
  predicate QuoteHolds(s: SeriesState, v: VaultState, t: nat, ask: nat, slope: nat, units: nat) {
    && s.Priceable()
    && !s.issuanceStopped && !s.finalized && t <= s.params.saleEnd && s.IsCurrent(t)
    && s.QuoteAt(t).askVariance == ask && s.QuoteAt(t).askSlope == slope
    && AskAt(s, s.SkewAt(t) + LiftOf(s.params, units)) == ask
    && 0 < units && 2 * units < s.unitsAvailable && 2 * units <= IssueUnitsToCap(ask, slope, s.params.capVariance)
    && s.Reserve(s.outstandingUnits + 2 * units) <= s.lockedLiability + v.Free()
  }

  lemma SpreeStep(s: SeriesState, v: VaultState, t: nat, offer: nat, rest: seq<nat>, trade: Trade)
    requires SeriesInv(s) && Backs(v, s) && s.Priceable() && s.Issue(v, t, "", offer) == Ok(trade)
    ensures SeriesInv(trade.series) && Backs(trade.vault, trade.series)
    ensures Spree(s, v, t, "", [offer] + rest) == Spree(trade.series, trade.vault, t, "", rest)
  {
    hide SeriesState.Issue;
    IssueKeeps(s, v, t, "", offer);
    assert ([offer] + rest)[1..] == rest;
  }

  /** A first fill of one half leaves the same quote for the other. */
  lemma SecondHalf(s: SeriesState, v: VaultState, t: nat, ask: nat, slope: nat, units: nat, half: nat)
    requires QuoteHolds(s, v, t, ask, slope, units) && SeriesInv(s) && Backs(v, s)
    requires UnitsFor(ask, slope, s.params.unitNotional, half) == units
    requires 0 < IssuePremium(ask, slope, s.params.unitNotional, units)
    ensures var cost := IssuePremium(ask, slope, s.params.unitNotional, units);
      var first := s.Bought(Fill(t, IssueLeg, "", units, cost, false));
      var v1 := v.(locked := v.locked + first.lockedLiability - s.lockedLiability, balance := v.balance + cost);
      && s.Issue(v, t, "", half) == Ok(Trade(first, v1, Some(Fill(t, IssueLeg, "", units, cost, false))))
      && SeriesInv(first) && Backs(v1, first) && first.Priceable() && first.IssuanceOpen(t) && first.IsCurrent(t)
      && first.QuoteAt(t).askVariance == ask && first.QuoteAt(t).askSlope == slope
      && first.Reserve(first.outstandingUnits + units) <= first.lockedLiability + v1.Free()
  {
    hide SeriesState.QuoteAt, UnitsFor, IssueUnitsToCap, IssuePremium, AskAt, MaxLiability;
    MaxLiabilityMono(
      s.outstandingUnits + units, s.outstandingUnits + 2 * units, s.params.unitNotional, s.params.capVariance);
    RoomToCapShrinks(ask, slope, s.params.capVariance, units);
    OfferBuys(s, v, t, "", half, units);
    QuoteAfter(s, s.Issue(v, t, "", half).value.fill.value);
    SpreeStep(s, v, t, half, [], s.Issue(v, t, "", half).value);
  }

  lemma RoomToCapShrinks(ask: nat, slope: nat, cap: nat, units: nat)
    requires 2 * units <= IssueUnitsToCap(ask, slope, cap)
    ensures units <= IssueUnitsToCap(ask, slope, cap)
  {
  }

  /** One offer for the whole against two for the halves: the same units, each at its own premium. */
  lemma OneAgainstTwo(s: SeriesState, v: VaultState, t: nat, ask: nat, slope: nat, units: nat, whole: nat, half: nat)
    requires QuoteHolds(s, v, t, ask, slope, units) && SeriesInv(s) && Backs(v, s)
    requires UnitsFor(ask, slope, s.params.unitNotional, whole) == 2 * units
    requires UnitsFor(ask, slope, s.params.unitNotional, half) == units
    requires 0 < IssuePremium(ask, slope, s.params.unitNotional, units)
    requires 0 < IssuePremium(ask, slope, s.params.unitNotional, 2 * units)
    ensures var one, two := Spree(s, v, t, "", [whole]).0, Spree(s, v, t, "", [half, half]).0;
      && one.outstandingUnits == s.outstandingUnits + 2 * units == two.outstandingUnits
      && one.premiumTaken == s.premiumTaken + IssuePremium(ask, slope, s.params.unitNotional, 2 * units)
      && two.premiumTaken == s.premiumTaken + 2 * IssuePremium(ask, slope, s.params.unitNotional, units)
  {
    hide SeriesState.QuoteAt, UnitsFor, IssueUnitsToCap, IssuePremium, AskAt, MaxLiability, SeriesState.Issue,
         SeriesInv;
    OfferBuys(s, v, t, "", whole, 2 * units);
    SpreeStep(s, v, t, whole, [], s.Issue(v, t, "", whole).value);
    assert [whole] + [] == [whole];
    SecondHalf(s, v, t, ask, slope, units, half);
    var first := s.Issue(v, t, "", half).value;
    SpreeStep(s, v, t, half, [half], first);
    assert [half] + [half] == [half, half];
    RoomToCapShrinks(ask, slope, s.params.capVariance, units);
    OfferBuys(first.series, first.vault, t, "", half, units);
    SpreeStep(first.series, first.vault, t, half, [], first.series.Issue(first.vault, t, "", half).value);
    assert [half] + [] == [half];
  }

  /** A price path on which every sample has the same squared return. */
  function Steady(square: nat): SquaredReturns {
    _ => square
  }

  // ---------------------------------------------------------------- the forward variance held at the cap

  const THOUSAND: nat := 1_000_000_000

  function NewVault(): VaultState {
    VaultState(THOUSAND, 0, 0, THOUSAND)
  }

  function CapTerms(decay: Decay): Params {
    Params(0, 2 * YEAR, 2 * YEAR, YEAR, 100_000_000, WAD, WAD, WAD, 0, 100, 10 * WAD, decay)
  }

  /** A series anchored at its own cap, half way through a window that has realized nothing. */
  function HalfwayAtTheCap(decay: Decay): seq<Op> {
    Opening(THOUSAND, CapTerms(decay)) + [Checkpoint(0, YEAR, Steady(0), 1)]
  }

  function AtTheCap(decay: Decay): SeriesState {
    Opened(CapTerms(decay)).(samplesStored := 2, processedThrough := YEAR)
  }

  lemma HalfwayIs(decay: Decay)
    ensures BookInv(Genesis())
    ensures var b := Run(Genesis(), HalfwayAtTheCap(decay));
      && b.vault == NewVault() && |b.series| == 1
      && b.series[0] == AtTheCap(decay)
  {
    hide Next, Opening, SeriesState.Checkpoint;
    OpeningIs(THOUSAND, CapTerms(decay));
    RunThen(Opening(THOUSAND, CapTerms(decay)), Checkpoint(0, YEAR, Steady(0), 1));
    StoringTheMiddle(decay);
    OnlySeriesMoves(Run(Genesis(), Opening(THOUSAND, CapTerms(decay))), Checkpoint(0, YEAR, Steady(0), 1),
                    Trade(Opened(CapTerms(decay)).Checkpoint(YEAR, Steady(0), 1), NewVault(), None));
  }

  lemma StoringTheMiddle(decay: Decay)
    ensures CapTerms(decay).Valid()
    ensures var s := Opened(CapTerms(decay));
      s.Checkpoint(YEAR, Steady(0), 1) == AtTheCap(decay)
  {
    QuotientIs(YEAR, YEAR, 1);
    assert ReturnSum(Steady(0), 1, 2) == 0;
  }

  const CAP_ASK: nat := 505_000_000_000_000_000

  lemma AskAtTheCap(s: SeriesState, decay: Decay, skew: nat)
    requires s == AtTheCap(decay)
    ensures s.Priceable() && AskAt(s, skew) == CAP_ASK
  {
    assert s.RealizedSoFar() == 0 by { QuotientIs(0, YEAR, 0); }
    QuotientIs(0 * YEAR + WAD * YEAR, 2 * YEAR, WAD / 2);
  }

  lemma CapQuote(s: SeriesState, decay: Decay)
    requires s == AtTheCap(decay)
    ensures s.Priceable() && s.QuoteAt(YEAR).askVariance == CAP_ASK && s.QuoteAt(YEAR).askSlope == CAP_ASK
    ensures s.SkewAt(YEAR) == 0
  {
    AskAtTheCap(s, decay, 0);
  }

  const HALF_AT_CAP: nat := 400_000_000_000_000_000

  lemma HalfAtTheCap()
    ensures UnitsFor(CAP_ASK, CAP_ASK, 100_000_000, 24_240_000) == HALF_AT_CAP
    ensures IssuePremium(CAP_ASK, CAP_ASK, 100_000_000, HALF_AT_CAP) == 24_240_000
  {
    hide UnitsFor;
    UnitsForIs(CAP_ASK, CAP_ASK, 100_000_000, 24_240_000,
               242_400_000_000_000_000_000_000_000_000_000_000,
               244_824_000_000_000_000_000_000_000_000_000_000, 707_000_000_000_000_000, HALF_AT_CAP);
  }

  lemma WholeAtTheCap()
    ensures UnitsFor(CAP_ASK, CAP_ASK, 100_000_000, 56_560_000) == 2 * HALF_AT_CAP
    ensures IssuePremium(CAP_ASK, CAP_ASK, 100_000_000, 2 * HALF_AT_CAP) == 56_560_000
  {
    hide UnitsFor;
    UnitsForIs(CAP_ASK, CAP_ASK, 100_000_000, 56_560_000,
               565_600_000_000_000_000_000_000_000_000_000_000,
               571_256_000_000_000_000_000_000_000_000_000_000, 909_000_000_000_000_000, 2 * HALF_AT_CAP);
  }

  /** There one offer buys 0.8 units for 56.56, and two offers buy the same for 48.48. */
  lemma SplittingBeatsOneFillAtTheCap(decay: Decay)
    ensures BookInv(Genesis())
    ensures var b := Run(Genesis(), HalfwayAtTheCap(decay));
      && |b.series| == 1 && SeriesInv(b.series[0]) && Backs(b.vault, b.series[0])
      && var one, two := Spree(b.series[0], b.vault, YEAR, "", [56_560_000]).0,
                         Spree(b.series[0], b.vault, YEAR, "", [24_240_000, 24_240_000]).0;
         && one.outstandingUnits == two.outstandingUnits == 2 * HALF_AT_CAP
         && one.premiumTaken == 56_560_000 && two.premiumTaken == 48_480_000
  {
    hide SeriesInv, NewVault, AtTheCap, HalfwayAtTheCap, Run, Spree;
    HalfwayIs(decay);
    var b := Run(Genesis(), HalfwayAtTheCap(decay));
    BookBacks(b, 0);
    OneAgainstTwoAtTheCap(b.series[0], b.vault, decay);
  }

  lemma OneAgainstTwoAtTheCap(s: SeriesState, v: VaultState, decay: Decay)
    requires s == AtTheCap(decay) && v == NewVault() && SeriesInv(s) && Backs(v, s)
    ensures var one, two := Spree(s, v, YEAR, "", [56_560_000]).0, Spree(s, v, YEAR, "", [24_240_000, 24_240_000]).0;
      && one.outstandingUnits == two.outstandingUnits == 2 * HALF_AT_CAP
      && one.premiumTaken == 56_560_000 && two.premiumTaken == 48_480_000
  {
    hide SeriesInv, Backs, Spree, NewVault, AtTheCap, QuoteHolds, UnitsFor, IssuePremium;
    CapHolds(s, v, decay);
    HalfAtTheCap();
    WholeAtTheCap();
    OneAgainstTwo(s, v, YEAR, CAP_ASK, CAP_ASK, HALF_AT_CAP, 56_560_000, 24_240_000);
  }

  lemma CapHolds(s: SeriesState, v: VaultState, decay: Decay)
    requires s == AtTheCap(decay) && v == NewVault()
    ensures QuoteHolds(s, v, YEAR, CAP_ASK, CAP_ASK, HALF_AT_CAP)
    ensures s.params.unitNotional == 100_000_000 && s.outstandingUnits == 0 && s.premiumTaken == 0
  {
    hide SeriesState.QuoteAt, AskAt, Floor, Ceil, MaxLiability, IssueUnitsToCap, LiftOf;
    CapQuote(s, decay);
    AskAtTheCap(s, decay, LiftOf(s.params, HALF_AT_CAP));
    QuotientIs(YEAR, YEAR, 1);
    CapRoom();
  }

  lemma CapRoom()
    ensures 2 * HALF_AT_CAP <= IssueUnitsToCap(CAP_ASK, CAP_ASK, WAD)
    ensures MaxLiability(2 * HALF_AT_CAP, 100_000_000, WAD) <= THOUSAND
  {
  }

  // ---------------------------------------------------------------- a lift too small to move the forward variance

  /** A large notional with the least impact there is: half a unit does not move the quote. */
  function FineTerms(decay: Decay): Params {
    Params(0, 2, 2, 1, 100 * WAD, WAD, WAD / 4, 1, 0, 0, 10 * WAD, decay)
  }

  const QUARTER: nat := 250_000_000_000_000_000
  const HALF_UNIT: nat := 500_000_000_000_000_000

  lemma HalfUnit()
    ensures UnitsFor(QUARTER, 1, 100 * WAD, 12_500_000_000_000_000_030) == HALF_UNIT
    ensures IssuePremium(QUARTER, 1, 100 * WAD, HALF_UNIT) == 12_500_000_000_000_000_013
  {
    hide UnitsFor;
    UnitsForIs(QUARTER, 1, 100 * WAD, 12_500_000_000_000_000_030,
               125_000_000_000_000_000_300_000_000_000_000_000,
               250_000_000_000_000_001, 250_000_000_000_000_001, HALF_UNIT);
  }

  lemma WholeUnit()
    ensures UnitsFor(QUARTER, 1, 100 * WAD, 25_000_000_000_000_000_050) == 2 * HALF_UNIT
    ensures IssuePremium(QUARTER, 1, 100 * WAD, 2 * HALF_UNIT) == 25_000_000_000_000_000_050
  {
    hide UnitsFor;
    UnitsForIs(QUARTER, 1, 100 * WAD, 25_000_000_000_000_000_050,
               250_000_000_000_000_000_500_000_000_000_000_000,
               500_000_000_000_000_001, 250_000_000_000_000_001, 2 * HALF_UNIT);
  }

  lemma FineHolds(s: SeriesState, v: VaultState, decay: Decay)
    requires s == Opened(FineTerms(decay)) && v.Free() >= 1_000 * WAD
    ensures QuoteHolds(s, v, 0, QUARTER, 1, HALF_UNIT)
    ensures ForwardHasRoom(s, 0, 2 * HALF_UNIT)
    ensures s.params.unitNotional == 100 * WAD && s.outstandingUnits == 0 && s.premiumTaken == 0
  {
    hide Floor, MaxLiability, IssueUnitsToCap;
    assert s.RealizedSoFar() == 0 && s.SkewAt(0) == 0;
    QuotientIs(0 * 0 + WAD / 4 * 2, 2, WAD / 4);
    QuotientIs(1 * HALF_UNIT, WAD, 0);
    QuotientIs(1 * (2 * HALF_UNIT), WAD, 1);
    QuotientIs(0, 1, 0);
    FineRoom();
  }

  lemma FineRoom()
    ensures 2 * HALF_UNIT <= IssueUnitsToCap(QUARTER, 1, WAD)
    ensures MaxLiability(2 * HALF_UNIT, 100 * WAD, WAD) <= 1_000 * WAD
  {
  }

  /** Well between both clamps, two offers buy one unit 24 base units below the price of one offer: the roundings. */
  lemma SplittingSavesRoundingsInside(decay: Decay)
    ensures BookInv(Genesis())
    ensures var b := Run(Genesis(), Opening(1_000 * WAD, FineTerms(decay)));
      && |b.series| == 1 && SeriesInv(b.series[0]) && Backs(b.vault, b.series[0])
      && var s, v := b.series[0], b.vault;
         var one := Spree(s, v, 0, "", [25_000_000_000_000_000_050]).0;
         var two := Spree(s, v, 0, "", [12_500_000_000_000_000_030, 12_500_000_000_000_000_030]).0;
         && one.outstandingUnits == two.outstandingUnits == 2 * HALF_UNIT
         && one.premiumTaken == 25_000_000_000_000_000_050 && two.premiumTaken == 25_000_000_000_000_000_026
         && ForwardHasRoom(s, 0, 2 * HALF_UNIT)
  {
    OpeningIs(1_000 * WAD, FineTerms(decay));
    hide SeriesInv, Run, Spree, ForwardHasRoom;
    var b := Run(Genesis(), Opening(1_000 * WAD, FineTerms(decay)));
    BookBacks(b, 0);
    OneAgainstTwoInside(b.series[0], b.vault, decay);
  }

  lemma OneAgainstTwoInside(s: SeriesState, v: VaultState, decay: Decay)
    requires s == Opened(FineTerms(decay)) && v.Free() >= 1_000 * WAD && SeriesInv(s) && Backs(v, s)
    ensures var one := Spree(s, v, 0, "", [25_000_000_000_000_000_050]).0;
      var two := Spree(s, v, 0, "", [12_500_000_000_000_000_030, 12_500_000_000_000_000_030]).0;
      && one.outstandingUnits == two.outstandingUnits == 2 * HALF_UNIT
      && one.premiumTaken == 25_000_000_000_000_000_050 && two.premiumTaken == 25_000_000_000_000_000_026
    ensures ForwardHasRoom(s, 0, 2 * HALF_UNIT)
  {
    hide SeriesInv, Backs, Spree, Opened, QuoteHolds, UnitsFor, IssuePremium, ForwardHasRoom;
    FineHolds(s, v, decay);
    HalfUnit();
    WholeUnit();
    OneAgainstTwo(s, v, 0, QUARTER, 1, HALF_UNIT, 25_000_000_000_000_000_050, 12_500_000_000_000_000_030);
  }

  // ---------------------------------------------------------------- a series over whole years

  /** Yearly samples, a 10% anchor volatility and an inventory signal that halves every second. */
  function YearTerms(years: nat, decay: Decay): Params {
    Params(0, years * YEAR, years * YEAR, YEAR, 100_000_000, WAD, WAD / 100, WAD, 1, 100, 10 * WAD, decay)
  }

  const FIRST_ASK: nat := 10_100_000_000_000_000
  const FIRST_SLOPE: nat := 1_010_000_000_000_000_000
  const FIRST_COST: nat := 13_130_000

  lemma FirstUnits()
    ensures UnitsFor(FIRST_ASK, FIRST_SLOPE, 100_000_000, FIRST_COST) == HALF_UNIT
    ensures IssuePremium(FIRST_ASK, FIRST_SLOPE, 100_000_000, HALF_UNIT) == FIRST_COST
  {
    hide UnitsFor;
    UnitsForIs(FIRST_ASK, FIRST_SLOPE, 100_000_000, FIRST_COST,
               131_300_000_000_000_000_000_000_000_000_000_000,
               265_226_000_000_000_000_000_000_000_000_000_000, 515_100_000_000_000_000, HALF_UNIT);
  }

  /** The run: fund, open, sell half a unit at the opening, store the year's sample. */
  function FirstYear(years: nat, square: nat, decay: Decay): seq<Op> {
    Opening(THOUSAND, YearTerms(years, decay)) + [Issue(0, 0, "", FIRST_COST)]
    + [Checkpoint(0, YEAR, Steady(square), 1)]
  }

  function HalfSold(years: nat, decay: Decay): SeriesState {
    Opened(YearTerms(years, decay)).(
      outstandingUnits := HALF_UNIT, unitsAvailable := 10 * WAD - HALF_UNIT, lockedLiability := 50_000_000,
      premiumTaken := FIRST_COST, skew := HALF_UNIT, fills := [Fill(0, IssueLeg, "", HALF_UNIT, FIRST_COST, false)])
  }

  function YearStored(years: nat, square: nat, decay: Decay): SeriesState {
    HalfSold(years, decay).(samplesStored := 2, sumSquaredReturns := square, processedThrough := YEAR)
  }

  function FundedVault(): VaultState {
    VaultState(THOUSAND + FIRST_COST, 50_000_000, 0, THOUSAND)
  }

  lemma FirstQuote(years: nat, decay: Decay)
    requires years == 1 || years == 2
    ensures var s := Opened(YearTerms(years, decay));
      s.Priceable() && s.QuoteAt(0).askVariance == FIRST_ASK && s.QuoteAt(0).askSlope == FIRST_SLOPE
  {
    var s := Opened(YearTerms(years, decay));
    assert s.RealizedSoFar() == 0 && s.SkewAt(0) == 0;
    QuotientIs(0 * 0 + WAD / 100 * (years * YEAR), years * YEAR, WAD / 100);
    CeilIs(WAD * (years * YEAR) * 10_100, years * YEAR * BPS, FIRST_SLOPE);
    CeilIs(WAD * (years * YEAR) * 10_100, years * YEAR * BPS, FIRST_SLOPE - 1);
  }

  lemma FirstRoom()
    ensures HALF_UNIT <= IssueUnitsToCap(FIRST_ASK, FIRST_SLOPE, WAD)
  {
  }

  lemma HalfReserve()
    ensures MaxLiability(HALF_UNIT, 100_000_000, WAD) == 50_000_000
  {
    CeilIs(HALF_UNIT * 100_000_000 * WAD, WAD2, 50_000_000);
    CeilIs(HALF_UNIT * 100_000_000 * WAD, WAD2, 49_999_999);
  }

  lemma FirstFits(s: SeriesState, v: VaultState, years: nat, decay: Decay)
    requires years == 1 || years == 2
    requires s == Opened(YearTerms(years, decay)) && v == NewVault()
    ensures s.Priceable() && s.IssuanceOpen(0) && s.IsCurrent(0) && s.params.unitNotional == 100_000_000
    ensures s.QuoteAt(0).askVariance == FIRST_ASK && s.QuoteAt(0).askSlope == FIRST_SLOPE
    ensures HALF_UNIT <= s.unitsAvailable && HALF_UNIT <= IssueUnitsToCap(FIRST_ASK, FIRST_SLOPE, s.params.capVariance)
    ensures s.Reserve(s.outstandingUnits + HALF_UNIT) <= s.lockedLiability + v.Free()
  {
    hide SeriesState.QuoteAt, MaxLiability, Floor, Ceil, IssueUnitsToCap;
    FirstQuote(years, decay);
    HalfReserve();
    FirstRoom();
    QuotientIs(0, YEAR, 0);
  }

  lemma FirstBought(years: nat, decay: Decay)
    requires years == 1 || years == 2
    ensures Opened(YearTerms(years, decay)).Bought(Fill(0, IssueLeg, "", HALF_UNIT, FIRST_COST, false))
         == HalfSold(years, decay)
  {
    hide MaxLiability, Floor;
    HalfReserve();
    QuotientIs(WAD * HALF_UNIT, WAD, HALF_UNIT);
    assert [] + [Fill(0, IssueLeg, "", HALF_UNIT, FIRST_COST, false)]
        == [Fill(0, IssueLeg, "", HALF_UNIT, FIRST_COST, false)];
  }

  lemma FirstSale(s: SeriesState, v: VaultState, years: nat, decay: Decay)
    requires years == 1 || years == 2
    requires s == Opened(YearTerms(years, decay)) && v == NewVault()
    requires SeriesInv(s) && Backs(v, s)
    ensures s.Priceable()
    ensures s.Issue(v, 0, "", FIRST_COST)
         == Ok(Trade(HalfSold(years, decay), FundedVault(), Some(Fill(0, IssueLeg, "", HALF_UNIT, FIRST_COST, false))))
  {
    hide UnitsFor, IssuePremium, SeriesState.QuoteAt, SeriesInv, MaxLiability, IssueUnitsToCap, SeriesState.Bought,
         SeriesState.Issue;
    FirstFits(s, v, years, decay);
    FirstBought(years, decay);
    FirstUnits();
    OfferBuys(s, v, 0, "", FIRST_COST, HALF_UNIT);
  }

  lemma StoringIs(years: nat, square: nat, decay: Decay)
    requires years == 1 || years == 2
    ensures HalfSold(years, decay).params.Valid()
    ensures HalfSold(years, decay).Checkpoint(YEAR, Steady(square), 1) == YearStored(years, square, decay)
  {
    QuotientIs(YEAR, YEAR, 1);
    assert ReturnSum(Steady(square), 1, 2) == square;
  }

  lemma FirstYearIs(years: nat, square: nat, decay: Decay)
    requires years == 1 || years == 2
    ensures BookInv(Genesis())
    ensures var b := Run(Genesis(), FirstYear(years, square, decay));
      b.vault == FundedVault() && b.series == [YearStored(years, square, decay)]
  {
    hide HalfSold, YearStored, FundedVault, Opening, Next, SeriesState.Issue, SeriesState.Checkpoint;
    var opening := Opening(THOUSAND, YearTerms(years, decay));
    OpeningIs(THOUSAND, YearTerms(years, decay));
    var b := Run(Genesis(), opening);
    BookBacks(b, 0);
    FirstSale(b.series[0], b.vault, years, decay);
    RunThen(opening, Issue(0, 0, "", FIRST_COST));
    OnlySeriesMoves(b, Issue(0, 0, "", FIRST_COST), b.series[0].Issue(b.vault, 0, "", FIRST_COST).value);
    RunThen(opening + [Issue(0, 0, "", FIRST_COST)], Checkpoint(0, YEAR, Steady(square), 1));
    StoringIs(years, square, decay);
    OnlySeriesMoves(Run(Genesis(), opening + [Issue(0, 0, "", FIRST_COST)]), Checkpoint(0, YEAR, Steady(square), 1),
                    Trade(YearStored(years, square, decay), FundedVault(), None));
  }

  // ---------------------------------------------------------------- the forward variance held at zero

  const HELD_ASK: nat := 252_500_000_000_000_000
  const HELD_SLOPE: nat := 505_000_000_000_000_000
  const FIFTH: nat := 200_000_000_000_000_000

  lemma FifthUnits()
    ensures UnitsFor(HELD_ASK, HELD_SLOPE, 100_000_000, 6_060_000) == FIFTH
    ensures IssuePremium(HELD_ASK, HELD_SLOPE, 100_000_000, FIFTH) == 6_060_000
  {
    hide UnitsFor;
    UnitsForIs(HELD_ASK, HELD_SLOPE, 100_000_000, 6_060_000,
               60_600_000_000_000_000_000_000_000_000_000_000,
               61_206_000_000_000_000_000_000_000_000_000_000, 353_500_000_000_000_000, FIFTH);
  }

  lemma TwoFifthsUnits()
    ensures UnitsFor(HELD_ASK, HELD_SLOPE, 100_000_000, 14_140_000) == 2 * FIFTH
    ensures IssuePremium(HELD_ASK, HELD_SLOPE, 100_000_000, 2 * FIFTH) == 14_140_000
  {
    hide UnitsFor;
    UnitsForIs(HELD_ASK, HELD_SLOPE, 100_000_000, 14_140_000,
               141_400_000_000_000_000_000_000_000_000_000_000,
               142_814_000_000_000_000_000_000_000_000_000_000, 454_500_000_000_000_000, 2 * FIFTH);
  }

  /** After the year the half unit is sold back: the old skew has decayed away, so the sale leaves it negative. */
  function SoldOff(decay: Decay): SeriesState {
    YearStored(2, WAD / 2, decay).(
      outstandingUnits := 0, lockedLiability := 0, exitPaid := 6_435_000,
      skew := -(HALF_UNIT as int), lastSkewTs := YEAR,
      fills := [Fill(0, IssueLeg, "", HALF_UNIT, FIRST_COST, false),
                Fill(YEAR, ExitLeg, "", HALF_UNIT, 6_435_000, false)])
  }

  function VaultAfterSale(): VaultState {
    VaultState(THOUSAND + FIRST_COST - 6_435_000, 0, 0, THOUSAND)
  }

  lemma BidBeforeSale(decay: Decay)
    requires decay(YEAR) == 0
    ensures var s := YearStored(2, WAD / 2, decay);
      && s.Priceable() && s.SkewAt(YEAR) == 0
      && s.QuoteAt(YEAR).bidVariance == 252_450_000_000_000_000
      && s.QuoteAt(YEAR).bidSlope == 495_000_000_000_000_000
  {
    hide Floor, Ceil;
    var s := YearStored(2, WAD / 2, decay);
    QuotientIs(0, WAD, 0);
    assert s.SkewAt(YEAR) == 0;
    QuotientIs(WAD / 2 * YEAR, YEAR, WAD / 2);
    assert s.RealizedSoFar() == WAD / 2;
    QuotientIs(WAD / 2 * YEAR + WAD / 100 * YEAR, 2 * YEAR, 51 * WAD / 200);
    QuotientIs(51 * WAD / 200 * 9_900, BPS, 252_450_000_000_000_000);
    QuotientIs(WAD * YEAR * 9_900, 2 * YEAR * BPS, 495_000_000_000_000_000);
  }

  lemma SaleIs(s: SeriesState, v: VaultState, decay: Decay)
    requires decay(YEAR) == 0 && s == YearStored(2, WAD / 2, decay) && v == FundedVault()
    requires SeriesInv(s) && Backs(v, s)
    ensures s.Priceable()
    ensures s.Exit(v, YEAR, "", HALF_UNIT)
         == Ok(Trade(SoldOff(decay), VaultAfterSale(), Some(Fill(YEAR, ExitLeg, "", HALF_UNIT, 6_435_000, false))))
  {
    hide SeriesState.QuoteAt, SeriesInv, DecaySkew;
    BidBeforeSale(decay);
    QuotientIs(YEAR, YEAR, 1);
    QuotientIs(WAD * HALF_UNIT, WAD, HALF_UNIT);
    assert s.fills + [Fill(YEAR, ExitLeg, "", HALF_UNIT, 6_435_000, false)] == SoldOff(decay).fills;
    assert s.ExitFill(v.balance, YEAR, "", HALF_UNIT) == Ok(Some(Fill(YEAR, ExitLeg, "", HALF_UNIT, 6_435_000, false)));
  }

  function SellOffRun(decay: Decay): seq<Op> {
    FirstYear(2, WAD / 2, decay) + [Exit(0, YEAR, "", HALF_UNIT)]
  }

  lemma SellOffIs(decay: Decay)
    requires decay(YEAR) == 0
    ensures BookInv(Genesis())
    ensures var b := Run(Genesis(), SellOffRun(decay));
      b.vault == VaultAfterSale() && b.series == [SoldOff(decay)]
  {
    hide YearStored, SoldOff, FundedVault, VaultAfterSale, FirstYear, Next, SeriesState.Exit;
    FirstYearIs(2, WAD / 2, decay);
    var b := Run(Genesis(), FirstYear(2, WAD / 2, decay));
    BookBacks(b, 0);
    SaleIs(b.series[0], b.vault, decay);
    RunThen(FirstYear(2, WAD / 2, decay), Exit(0, YEAR, "", HALF_UNIT));
    OnlySeriesMoves(b, Exit(0, YEAR, "", HALF_UNIT), b.series[0].Exit(b.vault, YEAR, "", HALF_UNIT).value);
  }

  lemma HeldAsk(s: SeriesState, decay: Decay, skew: int)
    requires s == SoldOff(decay) && skew <= -(WAD as int) / 100
    ensures s.Priceable() && AskAt(s, skew) == HELD_ASK
  {
    QuotientIs(WAD / 2 * YEAR, YEAR, WAD / 2);
    assert s.RealizedSoFar() == WAD / 2;
    QuotientIs(WAD / 2 * YEAR + 0 * YEAR, 2 * YEAR, WAD / 4);
  }

  lemma HeldHolds(s: SeriesState, v: VaultState, decay: Decay)
    requires s == SoldOff(decay) && v == VaultAfterSale()
    ensures QuoteHolds(s, v, YEAR, HELD_ASK, HELD_SLOPE, FIFTH)
    ensures s.params.anchorVariance + s.SkewAt(YEAR) + LiftOf(s.params, FIFTH) <= 0
    ensures s.params.unitNotional == 100_000_000 && s.outstandingUnits == 0
  {
    hide AskAt, Floor, Ceil, MaxLiability, IssueUnitsToCap, SeriesState.QuoteAt;
    HeldQuote(s, decay);
    assert s.SkewAt(YEAR) == -(HALF_UNIT as int);
    HeldAsk(s, decay, -(HALF_UNIT as int));
    QuotientIs(WAD * FIFTH, WAD, FIFTH);
    HeldAsk(s, decay, FIFTH as int - HALF_UNIT);
    QuotientIs(YEAR, YEAR, 1);
    HeldRoom();
  }

  lemma HeldQuote(s: SeriesState, decay: Decay)
    requires s == SoldOff(decay)
    ensures s.Priceable() && s.QuoteAt(YEAR).askVariance == HELD_ASK && s.QuoteAt(YEAR).askSlope == HELD_SLOPE
  {
    hide AskAt;
    HeldAsk(s, decay, -(HALF_UNIT as int));
    assert s.QuoteAt(YEAR).askVariance == AskAt(s, -(HALF_UNIT as int)) by { AskIsAskAt(s, YEAR); }
  }

  lemma AskIsAskAt(s: SeriesState, t: nat)
    requires s.Priceable()
    ensures s.QuoteAt(t).askVariance == AskAt(s, s.SkewAt(t))
  {
  }

  lemma HeldRoom()
    ensures 2 * FIFTH <= IssueUnitsToCap(HELD_ASK, HELD_SLOPE, WAD)
    ensures MaxLiability(2 * FIFTH, 100_000_000, WAD) <= 40_000_000
  {
  }

  /** After a sale into a decayed market the forward variance is held at zero, and one offer pays 14.14 for the 0.4
      units that two offers buy for 12.12. */
  lemma SplittingBeatsOneFillAtZero(decay: Decay)
    requires decay(YEAR) == 0
    ensures BookInv(Genesis())
    ensures var b := Run(Genesis(), SellOffRun(decay));
      && |b.series| == 1 && SeriesInv(b.series[0]) && Backs(b.vault, b.series[0])
      && var s, v := b.series[0], b.vault;
         var one, two := Spree(s, v, YEAR, "", [14_140_000]).0, Spree(s, v, YEAR, "", [6_060_000, 6_060_000]).0;
         && one.outstandingUnits == two.outstandingUnits == 2 * FIFTH
         && one.premiumTaken - s.premiumTaken == 14_140_000 && two.premiumTaken - s.premiumTaken == 12_120_000
  {
    hide SeriesInv, VaultAfterSale, SoldOff, SellOffRun, Run, Spree;
    SellOffIs(decay);
    var b := Run(Genesis(), SellOffRun(decay));
    BookBacks(b, 0);
    OneAgainstTwoAtZero(b.series[0], b.vault, decay);
  }

  lemma OneAgainstTwoAtZero(s: SeriesState, v: VaultState, decay: Decay)
    requires s == SoldOff(decay) && v == VaultAfterSale() && SeriesInv(s) && Backs(v, s)
    ensures var one, two := Spree(s, v, YEAR, "", [14_140_000]).0, Spree(s, v, YEAR, "", [6_060_000, 6_060_000]).0;
      && one.outstandingUnits == two.outstandingUnits == 2 * FIFTH
      && one.premiumTaken - s.premiumTaken == 14_140_000 && two.premiumTaken - s.premiumTaken == 12_120_000
  {
    hide SeriesInv, Backs, Spree, VaultAfterSale, SoldOff, QuoteHolds, UnitsFor, IssuePremium;
    HeldHolds(s, v, decay);
    FifthUnits();
    TwoFifthsUnits();
    OneAgainstTwo(s, v, YEAR, HELD_ASK, HELD_SLOPE, FIFTH, 14_140_000, 6_060_000);
  }

  // ---------------------------------------------------------------- a claim that redemption cannot extinguish

  const FAINT: nat := 10_000_000_000

  function DustRun(decay: Decay): seq<Op> {
    FirstYear(1, FAINT, decay) + [Finalize(0, YEAR)]
  }

  function Dust(decay: Decay): SeriesState {
    YearStored(1, FAINT, decay).(finalized := true, finalVariance := FAINT, payoutPerUnit := 1, lockedLiability := 1)
  }

  lemma FinalizingIs(s: SeriesState, v: VaultState, decay: Decay)
    requires s == YearStored(1, FAINT, decay) && v == FundedVault() && s.params.Valid()
    ensures s.Finalize(v, YEAR) == Ok(Trade(Dust(decay), v.(locked := 1), None))
  {
    QuotientIs(FAINT * YEAR, YEAR, FAINT);
    QuotientIs(100_000_000 * FAINT, WAD, 1);
    CeilIs(HALF_UNIT * 1, WAD, 0);
    CeilIs(HALF_UNIT * 1, WAD, 1);
  }

  /** A calm year leaves a payout of one base unit per unit, half a unit outstanding, and no redemption of any size
      that changes anything: the claim is never extinguished. */
  lemma DustClaimSurvives(decay: Decay, now: nat, actor: string, unitsRequested: nat)
    ensures BookInv(Genesis())
    ensures var b := Run(Genesis(), DustRun(decay));
      && |b.series| == 1
      && var s := b.series[0];
         && s.finalized && s.outstandingUnits > 0 && 0 < s.outstandingUnits * s.payoutPerUnit < WAD
         && s.Settle(b.vault, now, actor, unitsRequested) == Ok(Trade(s, b.vault, None))
         && s.Close(b.vault) == Err(ClaimsOutstanding)
  {
    hide SeriesState.Finalize, Next, FirstYear, SeriesState.Settle;
    FirstYearIs(1, FAINT, decay);
    var before := Run(Genesis(), FirstYear(1, FAINT, decay));
    BookBacks(before, 0);
    FinalizingIs(before.series[0], before.vault, decay);
    RunThen(FirstYear(1, FAINT, decay), Finalize(0, YEAR));
    OnlySeriesMoves(before, Finalize(0, YEAR), before.series[0].Finalize(before.vault, YEAR).value);
    var b := Run(Genesis(), DustRun(decay));
    DustPaysNothing(unitsRequested);
    RedemptionPaysInFull(b.series[0], b.vault, now, actor, unitsRequested);
  }

  lemma DustPaysNothing(unitsRequested: nat)
    ensures SettleProceeds(Min(unitsRequested, HALF_UNIT), 1) == 0
  {
    QuotientIs(Min(unitsRequested, HALF_UNIT) * 1, WAD, 0);
  }

  // ---------------------------------------------------------------- two claims too small for a position that is not

  const SHARE: nat := 600_000_000_000_000_000
  const SHARE_COST: nat := 606_000

  /** One year without price impact. */
  function PairTerms(decay: Decay): Params {
    Params(0, YEAR, YEAR, YEAR, 100_000_000, WAD, WAD / 100, 0, 1, 100, 10 * WAD, decay)
  }

  function ShareFill(name: string): Fill {
    Fill(0, IssueLeg, name, SHARE, SHARE_COST, false)
  }

  /** After one sale to Ann, and after a second to Bob. */
  function SharesSold(sold: nat, decay: Decay): SeriesState
    requires sold <= 2
  {
    Opened(PairTerms(decay)).(
      outstandingUnits := sold * SHARE, unitsAvailable := 10 * WAD - sold * SHARE, lockedLiability := sold * 60_000_000,
      premiumTaken := sold * SHARE_COST,
      fills := if sold == 0 then [] else if sold == 1 then [ShareFill("ann")] else [ShareFill("ann"), ShareFill("bob")])
  }

  function PairStored(decay: Decay): SeriesState {
    SharesSold(2, decay).(samplesStored := 2, sumSquaredReturns := FAINT, processedThrough := YEAR)
  }

  function PairFinal(decay: Decay): SeriesState {
    PairStored(decay).(finalized := true, finalVariance := FAINT, payoutPerUnit := 1, lockedLiability := 2)
  }

  function PairVault(sold: nat): VaultState {
    VaultState(THOUSAND + sold * SHARE_COST, sold * 60_000_000, 0, THOUSAND)
  }

  lemma ShareUnits()
    ensures UnitsFor(FIRST_ASK, 0, 100_000_000, SHARE_COST) == SHARE
    ensures IssuePremium(FIRST_ASK, 0, 100_000_000, SHARE) == SHARE_COST
  {
    QuotientIs(SHARE_COST * WAD2, 100_000_000, FIRST_ASK * SHARE);
    QuotientIs(FIRST_ASK * SHARE, FIRST_ASK, SHARE);
    CeilIs(0, 2 * WAD, 0);
    CeilIs(100_000_000 * (FIRST_ASK * SHARE), WAD2, SHARE_COST);
    CeilIs(100_000_000 * (FIRST_ASK * SHARE), WAD2, SHARE_COST - 1);
  }

  /** The quote does not move: the skew stays at zero. */
  lemma PairQuote(s: SeriesState, decay: Decay)
    requires s.params == PairTerms(decay) && s.processedThrough == 0 && s.sumSquaredReturns == 0 && s.skew == 0
    ensures s.Priceable() && s.SkewAt(0) == 0
    ensures s.QuoteAt(0).askVariance == FIRST_ASK && s.QuoteAt(0).askSlope == 0
  {
    assert s.RealizedSoFar() == 0;
    QuotientIs(0 * 0 + WAD / 100 * YEAR, YEAR, WAD / 100);
  }

  lemma ShareReserve(shares: nat)
    requires shares <= 2
    ensures MaxLiability(shares * SHARE, 100_000_000, WAD) == shares * 60_000_000
  {
    CeilIs(shares * SHARE * 100_000_000 * WAD, WAD2, shares * 60_000_000);
    CeilIs(shares * SHARE * 100_000_000 * WAD, WAD2, shares * 60_000_000 - 1);
  }

  lemma PairRoom()
    ensures SHARE <= IssueUnitsToCap(FIRST_ASK, 0, WAD)
  {
  }

  lemma ShareFits(s: SeriesState, v: VaultState, sold: nat, decay: Decay)
    requires sold < 2 && s == SharesSold(sold, decay) && v == PairVault(sold)
    ensures s.Priceable() && s.IssuanceOpen(0) && s.IsCurrent(0) && s.params.unitNotional == 100_000_000
    ensures s.QuoteAt(0).askVariance == FIRST_ASK && s.QuoteAt(0).askSlope == 0
    ensures FillsInFull(s, v.Free(), 0, SHARE_COST, SHARE)
  {
    hide SeriesState.QuoteAt, MaxLiability, Floor, Ceil, IssueUnitsToCap, UnitsFor, IssuePremium;
    PairQuote(s, decay);
    ShareReserve(sold + 1);
    PairRoom();
    ShareUnits();
    QuotientIs(0, YEAR, 0);
  }

  lemma ShareBought(sold: nat, name: string, decay: Decay)
    requires sold < 2 && name == (if sold == 0 then "ann" else "bob")
    ensures SharesSold(sold, decay).Bought(ShareFill(name)) == SharesSold(sold + 1, decay)
  {
    hide MaxLiability, Floor;
    ShareReserve(sold + 1);
    QuotientIs(0 * SHARE, WAD, 0);
    assert SharesSold(sold, decay).fills + [ShareFill(name)] == SharesSold(sold + 1, decay).fills;
  }

  lemma ShareSale(s: SeriesState, v: VaultState, sold: nat, name: string, decay: Decay)
    requires sold < 2 && s == SharesSold(sold, decay) && v == PairVault(sold)
    requires name == (if sold == 0 then "ann" else "bob")
    requires SeriesInv(s) && Backs(v, s)
    ensures s.Priceable()
    ensures s.Issue(v, 0, name, SHARE_COST)
         == Ok(Trade(SharesSold(sold + 1, decay), PairVault(sold + 1), Some(ShareFill(name))))
  {
    hide IssuePremium, SeriesState.QuoteAt, SeriesInv, SeriesState.Bought, SeriesState.Issue, FillsInFull;
    ShareFits(s, v, sold, decay);
    ShareBought(sold, name, decay);
    ShareUnits();
    OfferBuys(s, v, 0, name, SHARE_COST, SHARE);
  }

  lemma PairStoring(decay: Decay)
    ensures SharesSold(2, decay).params.Valid()
    ensures SharesSold(2, decay).Checkpoint(YEAR, Steady(FAINT), 1) == PairStored(decay)
  {
    QuotientIs(YEAR, YEAR, 1);
    assert ReturnSum(Steady(FAINT), 1, 2) == FAINT;
  }

  lemma PairFinalizing(s: SeriesState, v: VaultState, decay: Decay)
    requires s == PairStored(decay) && v == PairVault(2) && s.params.Valid()
    ensures s.Finalize(v, YEAR) == Ok(Trade(PairFinal(decay), v.(locked := 2), None))
  {
    QuotientIs(FAINT * YEAR, YEAR, FAINT);
    QuotientIs(100_000_000 * FAINT, WAD, 1);
    CeilIs(2 * SHARE * 1, WAD, 1);
    CeilIs(2 * SHARE * 1, WAD, 2);
  }

  /** The run: fund, open, sell 0.6 units to each of two holders, store the year's sample, finalize. */
  function PairSales(sold: nat, decay: Decay): seq<Op>
    requires sold <= 2
  {
    if sold == 0 then Opening(THOUSAND, PairTerms(decay))
    else PairSales(sold - 1, decay) + [Issue(0, 0, if sold == 1 then "ann" else "bob", SHARE_COST)]
  }

  function PairRun(decay: Decay): seq<Op> {
    PairSales(2, decay) + [Checkpoint(0, YEAR, Steady(FAINT), 1)] + [Finalize(0, YEAR)]
  }

  lemma SaleThen(before: seq<Op>, sold: nat, name: string, decay: Decay)
    requires sold < 2 && name == (if sold == 0 then "ann" else "bob")
    requires BookInv(Genesis()) && Run(Genesis(), before) == Book(PairVault(sold), [SharesSold(sold, decay)])
    ensures Run(Genesis(), before + [Issue(0, 0, name, SHARE_COST)])
         == Book(PairVault(sold + 1), [SharesSold(sold + 1, decay)])
  {
    hide Next, Run, SeriesState.Issue, SharesSold, PairVault;
    var b, op := Run(Genesis(), before), Issue(0, 0, name, SHARE_COST);
    BookBacks(b, 0);
    ShareSale(b.series[0], b.vault, sold, name, decay);
    RunThen(before, op);
    OnlySeriesMoves(b, op, b.series[0].Issue(b.vault, 0, name, SHARE_COST).value);
  }

  lemma PairSalesAre(decay: Decay)
    ensures BookInv(Genesis())
    ensures Run(Genesis(), PairSales(2, decay)) == Book(PairVault(2), [SharesSold(2, decay)])
  {
    hide Next, Run, Opening, SeriesState.Issue, SeriesInv;
    OpeningIs(THOUSAND, PairTerms(decay));
    SaleThen(PairSales(0, decay), 0, "ann", decay);
    SaleThen(PairSales(1, decay), 1, "bob", decay);
  }

  lemma PairRunIs(decay: Decay)
    ensures BookInv(Genesis())
    ensures var b := Run(Genesis(), PairRun(decay));
      b.vault == PairVault(2).(locked := 2) && b.series == [PairFinal(decay)]
  {
    hide Next, PairSales, SeriesState.Checkpoint, SeriesState.Finalize, SharesSold, PairStored, PairFinal;
    PairSalesAre(decay);
    var sales, storing := PairSales(2, decay), Checkpoint(0, YEAR, Steady(FAINT), 1);
    RunThen(sales, storing);
    PairStoring(decay);
    OnlySeriesMoves(Run(Genesis(), sales), storing, Trade(PairStored(decay), PairVault(2), None));
    var b := Run(Genesis(), sales + [storing]);
    BookBacks(b, 0);
    PairFinalizing(b.series[0], b.vault, decay);
    RunThen(sales + [storing], Finalize(0, YEAR));
    OnlySeriesMoves(b, Finalize(0, YEAR), b.series[0].Finalize(b.vault, YEAR).value);
  }

  function Pair(): seq<Holder> {
    [Holder("ann", SHARE, SHARE_COST, 0), Holder("bob", SHARE, SHARE_COST, 0)]
  }

  /** Two holders of 0.6 units each at a payout of one base unit per unit: the position is worth a base unit, and no
      holder's share of it is. Both redemptions pay nothing, and all 1.2 units stay outstanding. */
  lemma TwoSharesSurvive(decay: Decay, now: nat)
    ensures BookInv(Genesis())
    ensures var b := Run(Genesis(), PairRun(decay));
      && |b.series| == 1
      && var s := b.series[0];
         && s.finalized && Agree(s, Pair()) && s.outstandingUnits * s.payoutPerUnit >= WAD
         && var r := RedeemEach(s, b.vault, now, Pair());
            r.Ok? && r.value.0.outstandingUnits == 2 * SHARE && r.value.1.balance == b.vault.balance
  {
    PairRunIs(decay);
    var b := Run(Genesis(), PairRun(decay));
    BookBacks(b, 0);
    var s := b.series[0];
    assert SeriesInv(s) && Backs(b.vault, s);
    PairIs(s, decay);
    hide *;
    PairRedeems(s, b.vault, now);
  }

  lemma PairIs(s: SeriesState, decay: Decay)
    requires s == PairFinal(decay)
    ensures Agree(s, Pair()) && s.finalized && s.payoutPerUnit == 1 && s.outstandingUnits == 2 * SHARE
    ensures Held(Pair()) == 2 * SHARE && Stranded(Pair(), 1) == 2 * SHARE && Due(Pair(), 1) == 0
  {
    assert Pair()[1..] == [Pair()[1]] && Pair()[1..][1..] == [];
    QuotientIs(SHARE * 1, WAD, 0);
  }

  lemma PairRedeems(s: SeriesState, v: VaultState, now: nat)
    requires SeriesInv(s) && Backs(v, s) && s.finalized && s.payoutPerUnit == 1 && s.outstandingUnits == 2 * SHARE
    requires Held(Pair()) == 2 * SHARE && Stranded(Pair(), 1) == 2 * SHARE && Due(Pair(), 1) == 0
    ensures var r := RedeemEach(s, v, now, Pair());
      r.Ok? && r.value.0.outstandingUnits == 2 * SHARE && r.value.1.balance == v.balance
  {
    hide RedeemEach, SeriesInv, Backs, Held, Stranded, Due, Pair;
    RedemptionLeaves(s, v, now, Pair());
  }

  // ---------------------------------------------------------------- a round trip that gains a rounding

  /** No spread, the least impact there is, and a forward variance that halves with a remainder. */
  function TightTerms(decay: Decay): Params {
    Params(0, 2, 2, 1, 100 * WAD, WAD, WAD / 4 + 1, 1, 0, 0, 10 * WAD, decay)
  }

  const EIGHTH: nat := 125_000_000_000_000_000
  const TRIP_COST: nat := 12_500_000_000_000_000_050

  function Tight(decay: Decay): SeriesState {
    Opened(TightTerms(decay)).(samplesStored := 2, processedThrough := 1)
  }

  function TightVault(): VaultState {
    VaultState(1_000 * WAD, 0, 0, 1_000 * WAD)
  }

  function TripFill(): Fill {
    Fill(1, IssueLeg, "", WAD, TRIP_COST, false)
  }

  function Tripped(decay: Decay): SeriesState {
    Tight(decay).(outstandingUnits := WAD, unitsAvailable := 9 * WAD, lockedLiability := 100 * WAD,
                  premiumTaken := TRIP_COST, skew := 1, lastSkewTs := 1, fills := [TripFill()])
  }

  function TrippedVault(): VaultState {
    VaultState(1_000 * WAD + TRIP_COST, 100 * WAD, 0, 1_000 * WAD)
  }

  lemma TripUnits()
    ensures UnitsFor(EIGHTH, 1, 100 * WAD, TRIP_COST) == WAD
    ensures IssuePremium(EIGHTH, 1, 100 * WAD, WAD) == TRIP_COST
  {
    hide UnitsFor;
    UnitsForIs(EIGHTH, 1, 100 * WAD, TRIP_COST, 125_000_000_000_000_000_500_000_000_000_000_000,
               250_000_000_000_000_001, EIGHTH + 1, WAD);
  }

  lemma TightAsk(s: SeriesState, decay: Decay)
    requires s == Tight(decay)
    ensures s.Priceable() && s.QuoteAt(1).askVariance == EIGHTH && s.QuoteAt(1).askSlope == 1
  {
    QuotientIs(0 * YEAR, 1, 0);
    QuotientIs(0 * 1 + (WAD / 4 + 1) * 1, 2, EIGHTH);
  }

  lemma TightRoom()
    ensures WAD <= IssueUnitsToCap(EIGHTH, 1, WAD)
    ensures MaxLiability(WAD, 100 * WAD, WAD) == 100 * WAD
  {
    CeilIs(WAD * (100 * WAD) * WAD, WAD2, 100 * WAD);
    CeilIs(WAD * (100 * WAD) * WAD, WAD2, 100 * WAD - 1);
  }

  lemma TripBought(s: SeriesState, v: VaultState, decay: Decay)
    requires s == Tight(decay) && v == TightVault() && SeriesInv(s) && Backs(v, s)
    ensures s.Priceable()
    ensures s.Issue(v, 1, "", TRIP_COST) == Ok(Trade(Tripped(decay), TrippedVault(), Some(TripFill())))
  {
    hide UnitsFor, IssuePremium, SeriesState.QuoteAt, SeriesInv, MaxLiability, IssueUnitsToCap, SeriesState.Issue,
         Floor;
    TightAsk(s, decay);
    TightRoom();
    TripUnits();
    QuotientIs(1, 1, 1);
    QuotientIs(1 * WAD, WAD, 1);
    OfferBuys(s, v, 1, "", TRIP_COST, WAD);
    assert s.Bought(TripFill()) == Tripped(decay) by {
      assert [] + [TripFill()] == [TripFill()];
    }
  }

  lemma TrippedBid(s: SeriesState, decay: Decay)
    requires s == Tripped(decay)
    ensures s.Priceable() && s.QuoteAt(1).bidVariance == EIGHTH + 1 && s.QuoteAt(1).bidSlope == 0
  {
    QuotientIs(0 * YEAR, 1, 0);
    QuotientIs(0 * 1 + (WAD / 4 + 2) * 1, 2, EIGHTH + 1);
  }

  lemma TripProceeds()
    ensures ExitIntegral(EIGHTH + 1, 0, WAD) == (EIGHTH + 1) * WAD
    ensures ExitProceeds(EIGHTH + 1, 0, 100 * WAD, WAD) == TRIP_COST + 50
  {
    QuotientIs(0, 2 * WAD, 0);
    QuotientIs(100 * WAD * ((EIGHTH + 1) * WAD), WAD2, TRIP_COST + 50);
  }

  lemma TripSold(s: SeriesState, v: VaultState, decay: Decay)
    requires s == Tripped(decay) && v == TrippedVault() && SeriesInv(s) && Backs(v, s)
    ensures s.Priceable()
    ensures var r := s.Exit(v, 1, "", WAD);
      r.Ok? && r.value.fill == Some(Fill(1, ExitLeg, "", WAD, TRIP_COST + 50, false))
  {
    hide SeriesState.QuoteAt, SeriesInv, DecaySkew, ExitProceeds, ExitIntegral, Floor;
    TrippedBid(s, decay);
    TripProceeds();
    QuotientIs(1, 1, 1);
    assert s.ExitFill(v.balance, 1, "", WAD) == Ok(Some(Fill(1, ExitLeg, "", WAD, TRIP_COST + 50, false)));
    SoldBackAccounted(s, v, Fill(1, ExitLeg, "", WAD, TRIP_COST + 50, false));
  }

  function TightRun(decay: Decay): seq<Op> {
    Opening(1_000 * WAD, TightTerms(decay)) + [Checkpoint(0, 1, Steady(0), 1)]
  }

  lemma TightIs(decay: Decay)
    ensures BookInv(Genesis())
    ensures Run(Genesis(), TightRun(decay)) == Book(TightVault(), [Tight(decay)])
  {
    hide Next, Opening, SeriesState.Checkpoint;
    OpeningIs(1_000 * WAD, TightTerms(decay));
    var opening := Opening(1_000 * WAD, TightTerms(decay));
    RunThen(opening, Checkpoint(0, 1, Steady(0), 1));
    TightStoring(decay);
    OnlySeriesMoves(Run(Genesis(), opening), Checkpoint(0, 1, Steady(0), 1), Trade(Tight(decay), TightVault(), None));
  }

  lemma TightStoring(decay: Decay)
    ensures TightTerms(decay).Valid() && Opened(TightTerms(decay)).Checkpoint(1, Steady(0), 1) == Tight(decay)
  {
    QuotientIs(1, 1, 1);
    assert ReturnSum(Steady(0), 1, 2) == 0;
  }

  /** Without a spread a round trip can gain by the roundings: one unit of a large notional is bought and sold back at
      once for 50 base units more than it cost. */
  lemma TightRoundTripGains(decay: Decay)
    ensures BookInv(Genesis())
    ensures var b := Run(Genesis(), TightRun(decay));
      && |b.series| == 1 && SeriesInv(b.series[0]) && Backs(b.vault, b.series[0]) && b.series[0].Priceable()
      && var bought := b.series[0].Issue(b.vault, 1, "", TRIP_COST);
         && bought.Ok? && bought.value.fill == Some(TripFill()) && bought.value.series.Priceable()
         && var sold := bought.value.series.Exit(bought.value.vault, 1, "", WAD);
            sold.Ok? && sold.value.fill == Some(Fill(1, ExitLeg, "", WAD, TRIP_COST + 50, false))
  {
    hide Next, TightRun, Tight, Tripped, TightVault, TrippedVault, SeriesState.Issue, SeriesState.Exit;
    TightIs(decay);
    var b := Run(Genesis(), TightRun(decay));
    BookBacks(b, 0);
    TripBought(b.series[0], b.vault, decay);
    SpreeStep(b.series[0], b.vault, 1, TRIP_COST, [], b.series[0].Issue(b.vault, 1, "", TRIP_COST).value);
    TripSold(Tripped(decay), TrippedVault(), decay);
  }

  // ---------------------------------------------------------------- two sales on one bid

  /** Everything one sale or two need of a state to sell `2 * units` at a bid that the first sale does not move. */
  predicate BidHolds(s: SeriesState, t: nat, bid: nat, slope: nat, units: nat) {
    && s.Priceable()
    && !s.finalized && t < s.params.expiry && s.IsCurrent(t)
    && s.QuoteAt(t).bidVariance == bid && s.QuoteAt(t).bidSlope == slope
    && BidAt(s, s.SkewAt(t) - LiftOf(s.params, units)) == bid
    && 0 < units && 2 * units <= s.outstandingUnits && 2 * units <= ExitUnitsToZeroBid(bid, slope)
  }

  lemma SellStep(s: SeriesState, v: VaultState, t: nat, size: nat, rest: seq<nat>, trade: Trade)
    requires SeriesInv(s) && Backs(v, s) && s.Priceable() && s.Exit(v, t, "", size) == Ok(trade)
    ensures SeriesInv(trade.series) && Backs(trade.vault, trade.series)
    ensures SellOff(s, v, t, "", [size] + rest) == SellOff(trade.series, trade.vault, t, "", rest)
  {
    hide SeriesState.Exit;
    ExitKeeps(s, v, t, "", size);
    assert ([size] + rest)[1..] == rest;
  }

  /** A sale that no clamp cuts short is paid its price. */
  lemma SaleSells(s: SeriesState, v: VaultState, t: nat, units: nat, price: nat)
    requires SeriesInv(s) && Backs(v, s) && s.Priceable() && s.ExitOpen(t) && s.IsCurrent(t)
    requires 0 < units <= s.outstandingUnits
    requires units <= ExitUnitsToZeroBid(s.QuoteAt(t).bidVariance, s.QuoteAt(t).bidSlope)
    requires ExitIntegral(s.QuoteAt(t).bidVariance, s.QuoteAt(t).bidSlope, units) >= 0
    requires 0 < price == ExitProceeds(s.QuoteAt(t).bidVariance, s.QuoteAt(t).bidSlope, s.params.unitNotional, units)
    ensures s.Exit(v, t, "", units).Ok?
    ensures s.Exit(v, t, "", units).value.series == s.SoldBack(Fill(t, ExitLeg, "", units, price, false))
  {
    hide SeriesState.QuoteAt, SeriesState.ExitFill, SeriesInv, ExitProceeds, ExitIntegral, SeriesState.SoldBack,
         ExitUnitsToZeroBid, Accounted;
    SaleFillIs(s, v, t, "", units);
    ExitKeeps(s, v, t, "", units);
  }

  /** One sale of the whole against two of the halves: the same units, each at its own price. */
  lemma OneSaleAgainstTwo(s: SeriesState, v: VaultState, t: nat, bid: nat, slope: nat, units: nat,
                          whole: nat, half: nat)
    requires BidHolds(s, t, bid, slope, units) && SeriesInv(s) && Backs(v, s)
    requires ExitIntegral(bid, slope, units) >= 0 && ExitIntegral(bid, slope, 2 * units) >= 0
    requires 0 < half == ExitProceeds(bid, slope, s.params.unitNotional, units)
    requires 0 < whole == ExitProceeds(bid, slope, s.params.unitNotional, 2 * units)
    ensures var one, two := SellOff(s, v, t, "", [2 * units]).0, SellOff(s, v, t, "", [units, units]).0;
      && one.outstandingUnits == s.outstandingUnits - 2 * units == two.outstandingUnits
      && one.exitPaid == s.exitPaid + whole && two.exitPaid == s.exitPaid + 2 * half
  {
    hide SeriesState.QuoteAt, SeriesState.Exit, ExitProceeds, ExitIntegral, SeriesInv, BidAt, ExitUnitsToZeroBid,
         SeriesState.SkewAt, SeriesState.Reserve, Floor;
    FewerUnitsFit(bid, slope, units, 2 * units);
    SaleSells(s, v, t, 2 * units, whole);
    SellStep(s, v, t, 2 * units, [], s.Exit(v, t, "", 2 * units).value);
    assert [2 * units] + [] == [2 * units];
    SaleSells(s, v, t, units, half);
    var first := s.Exit(v, t, "", units).value;
    SellStep(s, v, t, units, [units], first);
    assert [units] + [units] == [units, units];
    BidAfter(s, Fill(t, ExitLeg, "", units, half, false));
    SaleSells(first.series, first.vault, t, units, half);
    SellStep(first.series, first.vault, t, units, [], first.series.Exit(first.vault, t, "", units).value);
    assert [units] + [] == [units];
  }

  const CAP_BID: nat := 495_000_000_000_000_000

  /** The run to the cap, and one purchase there that the forward variance does not feel. */
  function BoughtAtTheCap(decay: Decay): seq<Op> {
    HalfwayAtTheCap(decay) + [Issue(0, YEAR, "", 56_560_000)]
  }

  function CapFill(): Fill {
    Fill(YEAR, IssueLeg, "", 2 * HALF_AT_CAP, 56_560_000, false)
  }

  function OverTheCap(decay: Decay): SeriesState {
    AtTheCap(decay).(
      outstandingUnits := 2 * HALF_AT_CAP, unitsAvailable := 10 * WAD - 2 * HALF_AT_CAP, lockedLiability := 80_000_000,
      premiumTaken := 56_560_000, skew := 2 * HALF_AT_CAP, lastSkewTs := YEAR,
      fills := [CapFill()])
  }

  lemma WholeReserve()
    ensures MaxLiability(2 * HALF_AT_CAP, 100_000_000, WAD) == 80_000_000
  {
    CeilIs(2 * HALF_AT_CAP * 100_000_000 * WAD, WAD2, 80_000_000);
    CeilIs(2 * HALF_AT_CAP * 100_000_000 * WAD, WAD2, 79_999_999);
  }

  /** An offer for the whole on a quote that holds fills in full. */
  lemma WholeFills(s: SeriesState, v: VaultState, t: nat, ask: nat, slope: nat, units: nat, whole: nat)
    requires QuoteHolds(s, v, t, ask, slope, units) && v.Free() >= 0
    requires UnitsFor(ask, slope, s.params.unitNotional, whole) == 2 * units
    requires 0 < IssuePremium(ask, slope, s.params.unitNotional, 2 * units)
    ensures s.IssuanceOpen(t) && s.IsCurrent(t) && FillsInFull(s, v.Free(), t, whole, 2 * units)
  {
    hide SeriesState.QuoteAt, UnitsFor, IssuePremium, IssueUnitsToCap, MaxLiability, AskAt;
  }

  function OverTheCapVault(): VaultState {
    VaultState(THOUSAND + 56_560_000, 80_000_000, 0, THOUSAND)
  }

  lemma CapBought(s: SeriesState, v: VaultState, decay: Decay)
    requires s == AtTheCap(decay) && v == NewVault() && SeriesInv(s) && Backs(v, s)
    ensures s.Priceable()
    ensures s.Issue(v, YEAR, "", 56_560_000)
         == Ok(Trade(OverTheCap(decay), OverTheCapVault(), Some(CapFill())))
  {
    hide UnitsFor, IssuePremium, SeriesState.QuoteAt, SeriesInv, SeriesState.Issue, SeriesState.Bought, FillsInFull,
         QuoteHolds, MaxLiability, Floor;
    CapHolds(s, v, decay);
    WholeAtTheCap();
    CapQuote(s, decay);
    WholeFills(s, v, YEAR, CAP_ASK, CAP_ASK, HALF_AT_CAP, 56_560_000);
    CapBoughtIs(s, decay);
    OfferBuys(s, v, YEAR, "", 56_560_000, 2 * HALF_AT_CAP);
  }

  lemma CapBoughtIs(s: SeriesState, decay: Decay)
    requires s == AtTheCap(decay)
    ensures s.Bought(CapFill()) == OverTheCap(decay)
  {
    hide MaxLiability, Floor;
    WholeReserve();
    QuotientIs(WAD * (2 * HALF_AT_CAP), WAD, 2 * HALF_AT_CAP);
    assert [] + [CapFill()] == [CapFill()];
  }

  lemma BidOverTheCap(s: SeriesState, decay: Decay, skew: nat)
    requires s == OverTheCap(decay)
    ensures s.Priceable() && BidAt(s, skew) == CAP_BID && s.QuoteAt(YEAR).bidSlope == CAP_BID
  {
    hide Floor;
    assert s.RealizedSoFar() == 0 by { QuotientIs(0, YEAR, 0); }
    QuotientIs(0 * YEAR + WAD * YEAR, 2 * YEAR, WAD / 2);
    QuotientIs(WAD / 2 * 9_900, BPS, CAP_BID);
    QuotientIs(WAD * YEAR * 9_900, 2 * YEAR * BPS, CAP_BID);
  }

  lemma OverTheCapHolds(s: SeriesState, decay: Decay)
    requires s == OverTheCap(decay)
    ensures BidHolds(s, YEAR, CAP_BID, CAP_BID, HALF_AT_CAP) && s.params.unitNotional == 100_000_000
    ensures s.exitPaid == 0 && s.outstandingUnits == 2 * HALF_AT_CAP
  {
    hide BidAt, Floor, BidVariance;
    BidOverTheCap(s, decay, 2 * HALF_AT_CAP);
    BidOverTheCap(s, decay, HALF_AT_CAP);
    assert s.SkewAt(YEAR) == 2 * HALF_AT_CAP;
    BidIsBidAt(s, YEAR);
    QuotientIs(WAD * HALF_AT_CAP, WAD, HALF_AT_CAP);
    QuotientIs(YEAR, YEAR, 1);
    QuotientIs(CAP_BID * WAD, CAP_BID, WAD);
  }

  lemma BidIsBidAt(s: SeriesState, t: nat)
    requires s.Priceable()
    ensures s.QuoteAt(t).bidVariance == BidAt(s, s.SkewAt(t))
  {
  }

  lemma CapPrices()
    ensures ExitIntegral(CAP_BID, CAP_BID, HALF_AT_CAP) == 158_400_000_000_000_000_000_000_000_000_000_000
    ensures ExitProceeds(CAP_BID, CAP_BID, 100_000_000, HALF_AT_CAP) == 15_840_000
    ensures ExitIntegral(CAP_BID, CAP_BID, 2 * HALF_AT_CAP) == 237_600_000_000_000_000_000_000_000_000_000_000
    ensures ExitProceeds(CAP_BID, CAP_BID, 100_000_000, 2 * HALF_AT_CAP) == 23_760_000
  {
    hide Floor;
    QuotientIs(CAP_BID * HALF_AT_CAP * HALF_AT_CAP, 2 * WAD, 39_600_000_000_000_000_000_000_000_000_000_000);
    QuotientIs(100_000_000 * 158_400_000_000_000_000_000_000_000_000_000_000, WAD2, 15_840_000);
    QuotientIs(CAP_BID * (2 * HALF_AT_CAP) * (2 * HALF_AT_CAP), 2 * WAD,
               158_400_000_000_000_000_000_000_000_000_000_000);
    QuotientIs(100_000_000 * 237_600_000_000_000_000_000_000_000_000_000_000, WAD2, 23_760_000);
  }

  /** There one sale of 0.8 units is paid 23.76, and two sales of 0.4 are paid 31.68. */
  lemma SplittingASaleBeatsOne(decay: Decay)
    ensures BookInv(Genesis())
    ensures var b := Run(Genesis(), BoughtAtTheCap(decay));
      && |b.series| == 1 && SeriesInv(b.series[0]) && Backs(b.vault, b.series[0])
      && var one, two := SellOff(b.series[0], b.vault, YEAR, "", [2 * HALF_AT_CAP]).0,
                         SellOff(b.series[0], b.vault, YEAR, "", [HALF_AT_CAP, HALF_AT_CAP]).0;
         && one.outstandingUnits == two.outstandingUnits == 0
         && one.exitPaid == 23_760_000 && two.exitPaid == 31_680_000
  {
    hide SeriesInv, NewVault, AtTheCap, HalfwayAtTheCap, Run, SellOff, SeriesState.Issue, Next, OverTheCap,
         OverTheCapVault;
    HalfwayIs(decay);
    var b := Run(Genesis(), HalfwayAtTheCap(decay));
    BookBacks(b, 0);
    CapBought(b.series[0], b.vault, decay);
    RunThen(HalfwayAtTheCap(decay), Issue(0, YEAR, "", 56_560_000));
    OnlySeriesMoves(b, Issue(0, YEAR, "", 56_560_000), b.series[0].Issue(b.vault, YEAR, "", 56_560_000).value);
    OneSaleAgainstTwoOverTheCap(OverTheCap(decay), OverTheCapVault(), decay);
  }

  lemma OneSaleAgainstTwoOverTheCap(s: SeriesState, v: VaultState, decay: Decay)
    requires s == OverTheCap(decay) && SeriesInv(s) && Backs(v, s)
    ensures var one, two := SellOff(s, v, YEAR, "", [2 * HALF_AT_CAP]).0,
                            SellOff(s, v, YEAR, "", [HALF_AT_CAP, HALF_AT_CAP]).0;
      && one.outstandingUnits == two.outstandingUnits == 0
      && one.exitPaid == 23_760_000 && two.exitPaid == 31_680_000
  {
    hide SeriesInv, Backs, SellOff, OverTheCap, BidHolds, ExitIntegral, ExitProceeds;
    OverTheCapHolds(s, decay);
    CapPrices();
    OneSaleAgainstTwo(s, v, YEAR, CAP_BID, CAP_BID, HALF_AT_CAP, 23_760_000, 15_840_000);
  }
}
