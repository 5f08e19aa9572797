/** Whether a purchase can ever be cut short by collateral: over whole runs, on a vault that backs any number of
    series, it cannot once every series' full inventory is covered. */
module Funding {
  import opened Arith
  import opened Pricing
  import opened Market
  import opened Solvency
  import opened MarketRuns
  import Derivation

  // ---------------------------------------------------------------- one series

  /** What the series would owe if its whole remaining inventory were sold; after finalization, what it owes. */
  function FullReserve(s: SeriesState): nat {
    if s.finalized then Owed(s) else s.Reserve(s.outstandingUnits + s.unitsAvailable)
  }

  /** The money a series has brought in, less what it may still cost. */
  function Margin(s: SeriesState): int {
    Net(s) - FullReserve(s)
  }

  lemma OwedWithinFullReserve(s: SeriesState)
    ensures Owed(s) <= FullReserve(s)
  {
    MaxLiabilityMono(
      s.outstandingUnits, s.outstandingUnits + s.unitsAvailable, s.params.unitNotional, s.params.capVariance);
  }

  /** The collateral clamp leaves the whole inventory on sale exactly when its full reserve is covered. */
  lemma InventoryOnSaleIff(s: SeriesState, free: nat)
    requires SeriesInv(s) && !s.finalized && s.unitsAvailable > 0
    ensures s.unitsAvailable
        <= IssueUnitsToCollateral(
             s.outstandingUnits, s.lockedLiability, free, s.params.unitNotional, s.params.capVariance)
      <==> FullReserve(s) <= s.lockedLiability + free
  {
    CollateralClampFits(
      s.outstandingUnits, s.lockedLiability, free, s.params.unitNotional, s.params.capVariance, s.unitsAvailable);
  }

  // ---------------------------------------------------------------- no operation eats into the margin

  /** A sale back is paid no more than the cap on its size, rounded down. */
  lemma ExitPaysWithinCap(bid: nat, slope: nat, unitNotional: nat, cap: nat, units: nat)
    requires bid <= cap && ExitIntegral(bid, slope, units) >= 0
    ensures ExitProceeds(bid, slope, unitNotional, units) <= Floor(units * (unitNotional * cap), WAD2)
  {
    var i := ExitIntegral(bid, slope, units);
    MulMono(bid, cap, units);
    MulMono(i, cap * units, unitNotional);
    assert unitNotional * (cap * units) == units * (unitNotional * cap);
    FloorMono(unitNotional * i, units * (unitNotional * cap), WAD2);
  }

  lemma CeilDrop(a: nat, b: nat, d: nat)
    requires d > 0
    ensures Ceil(a, d) + Floor(b, d) <= Ceil(a + b, d)
  {
    var f, c := Floor(b, d), Ceil(a + b, d);
    CeilIs(a + b, d, c);
    assert (c - f) * d == c * d - f * d;
    if c - f >= 0 {
      CeilIs(a, d, c - f);
    } else {
      MulMono(c - f, -1, d);
    }
  }

  /** Taking units out of a position frees at least the cap on them, rounded down. */
  lemma ReserveDrop(held: nat, units: nat, unitNotional: nat, cap: nat)
    ensures MaxLiability(held, unitNotional, cap) + Floor(units * (unitNotional * cap), WAD2)
         <= MaxLiability(held + units, unitNotional, cap)
  {
    hide MaxLiability;
    var k := unitNotional * cap;
    MaxLiabilityIs(held, unitNotional, cap);
    MaxLiabilityIs(held + units, unitNotional, cap);
    assert (held + units) * k == held * k + units * k;
    CeilDrop(held * k, units * k, WAD2);
  }

  predicate PaidWithinCap(params: Params, fill: Fill) {
    fill.quote <= Floor(fill.units * (params.unitNotional * params.capVariance), WAD2)
  }

  lemma ExitQuoteBound(s: SeriesState, v: VaultState, now: nat, actor: string, unitsRequested: nat)
    requires s.Priceable() && Backs(v, s)
    ensures var r := s.ExitFill(v.balance, now, actor, unitsRequested);
      && r.Ok?
      && (r.value.Some? ==>
            var fill := r.value.value;
            fill.units <= s.outstandingUnits && PaidWithinCap(s.params, fill))
  {
    ExitFillFits(s, v, now, actor, unitsRequested);
    var q := s.QuoteAt(now);
    var units := s.ExitSize(q, unitsRequested);
    ZeroBidClampFits(q.bidVariance, q.bidSlope, units);
    ExitPaysWithinCap(q.bidVariance, q.bidSlope, s.params.unitNotional, s.params.capVariance, units);
  }

  lemma SoldBackKeepsMargin(s: SeriesState, fill: Fill)
    requires !s.finalized && fill.units <= s.outstandingUnits && PaidWithinCap(s.params, fill)
    ensures Margin(s.SoldBack(fill)) >= Margin(s)
  {
    ReserveDrop(s.outstandingUnits - fill.units + s.unitsAvailable, fill.units,
                s.params.unitNotional, s.params.capVariance);
  }

  lemma ExitKeepsMargin(s: SeriesState, v: VaultState, now: nat, actor: string, unitsRequested: nat)
    requires SeriesInv(s) && Backs(v, s)
    ensures s.Priceable()
    ensures var r := s.Exit(v, now, actor, unitsRequested);
      r.Ok? ==> Margin(r.value.series) >= Margin(s)
  {
    InvPriceable(s);
    ExitQuoteBound(s, v, now, actor, unitsRequested);
    var filled := s.ExitFill(v.balance, now, actor, unitsRequested);
    if s.ExitOpen(now) && filled.value.Some? {
      SoldBackKeepsMargin(s, filled.value.value);
    }
  }

  lemma IssueKeepsMargin(s: SeriesState, v: VaultState, now: nat, actor: string, amountIn: nat)
    requires SeriesInv(s) && Backs(v, s)
    ensures s.Priceable()
    ensures var r := s.Issue(v, now, actor, amountIn);
      r.Ok? ==> Margin(r.value.series) >= Margin(s)
  {
    InvPriceable(s);
    IssueFillFits(s, v, now, actor, amountIn);
  }

  lemma SettleKeepsMargin(s: SeriesState, v: VaultState, now: nat, actor: string, unitsRequested: nat)
    requires SeriesInv(s) && Backs(v, s)
    ensures var r := s.Settle(v, now, actor, unitsRequested);
      r.Ok? ==> Margin(r.value.series) >= Margin(s)
  {
    if s.finalized {
      RedemptionPaysInFull(s, v, now, actor, unitsRequested);
      SettleFillIs(s, v, now, actor, unitsRequested);
    }
  }

  lemma FinalizeKeepsMargin(s: SeriesState, v: VaultState, now: nat)
    requires SeriesInv(s) && Backs(v, s)
    ensures var r := s.Finalize(v, now);
      r.Ok? ==> Margin(r.value.series) >= Margin(s)
  {
    FinalizeKeeps(s, v, now);
    OwedWithinFullReserve(s);
  }

  lemma RestKeepsMargin(s: SeriesState, v: VaultState, op: Op)
    requires SeriesInv(s) && Backs(v, s)
    requires op.Checkpoint? || op.BurnWorthless? || op.StopIssuance? || op.Close?
    ensures var r := TradeOf(s, v, op);
      r.Ok? ==> Margin(r.value.series) >= Margin(s)
  {
    OwedWithinFullReserve(s);
  }

  /** Whatever is done to a series, its margin never falls. */
  lemma MarginNeverFalls(s: SeriesState, v: VaultState, op: Op)
    requires SeriesInv(s) && Backs(v, s)
    ensures var r := TradeOf(s, v, op);
      r.Ok? ==> Margin(r.value.series) >= Margin(s)
  {
    match op
    case Issue(_, now, actor, amountIn) => IssueKeepsMargin(s, v, now, actor, amountIn);
    case Exit(_, now, actor, units) => ExitKeepsMargin(s, v, now, actor, units);
    case Settle(_, now, actor, units) => SettleKeepsMargin(s, v, now, actor, units);
    case Finalize(_, now) => FinalizeKeepsMargin(s, v, now);
    case Deposit(_) =>
    case WithdrawFree(_) =>
    case Open(_) =>
    case _ => RestKeepsMargin(s, v, op);
  }

  // ---------------------------------------------------------------- the whole vault

  function SumMargin(series: seq<SeriesState>): int {
    if series == [] then 0 else Margin(series[0]) + SumMargin(series[1..])
  }

  /** What is left of the deposits and the margins once every series' full reserve is set aside. */
  function Spare(b: Book): int {
    b.vault.deposited - b.vault.withdrawn + SumMargin(b.series)
  }

  function PaidIn(op: Op): nat {
    if op.Deposit? then op.amount else 0
  }

  /** What an operation takes from the spare: a withdrawal, or the full reserve of a series it opens. */
  function Drawn(op: Op): nat {
    match op
    case WithdrawFree(amount) => amount
    case Open(params) => MaxLiability(params.maxUnits, params.unitNotional, params.capVariance)
    case _ => 0
  }

  function TotalPaidIn(ops: seq<Op>): nat {
    if ops == [] then 0 else PaidIn(ops[0]) + TotalPaidIn(ops[1..])
  }

  function TotalDrawn(ops: seq<Op>): nat {
    if ops == [] then 0 else Drawn(ops[0]) + TotalDrawn(ops[1..])
  }

  lemma {:induction false} SumMarginUpdates(series: seq<SeriesState>, k: nat, s: SeriesState)
    requires k < |series|
    ensures SumMargin(series[k := s]) == SumMargin(series) - Margin(series[k]) + Margin(s)
  {
    if k == 0 {
      assert series[0 := s][1..] == series[1..];
    } else {
      assert series[k := s][1..] == series[1..][k - 1 := s];
      SumMarginUpdates(series[1..], k - 1, s);
    }
  }

  lemma {:induction false} SumMarginAppends(series: seq<SeriesState>, s: SeriesState)
    ensures SumMargin(series + [s]) == SumMargin(series) + Margin(s)
  {
    if series == [] {
      assert [s][1..] == [];
    } else {
      assert (series + [s])[1..] == series[1..] + [s];
      SumMarginAppends(series[1..], s);
    }
  }

  /** One operation leaves the spare at least where it was, plus what it paid in, less what it drew. */
  lemma NextKeepsSpare(b: Book, op: Op)
    requires BookInv(b)
    ensures Spare(Next(b, op)) >= Spare(b) + PaidIn(op) - Drawn(op)
  {
    hide TradeOf;
    if Addressed(b, op) {
      if op.Deposit? || op.WithdrawFree? {
        TransferKeepsSpare(b, op);
      } else if op.Open? {
        OpeningDrawsItsReserve(b, op.params);
      } else {
        TradeKeepsSpare(b, op);
      }
    }
  }

  lemma TransferKeepsSpare(b: Book, op: Op)
    requires BookInv(b) && (op.Deposit? || op.WithdrawFree?)
    ensures Spare(Next(b, op)) >= Spare(b) + PaidIn(op) - Drawn(op)
  {
    hide TradeOf, SumMargin, Margin;
  }

  lemma OpeningDrawsItsReserve(b: Book, params: Params)
    requires BookInv(b) && params.Valid()
    ensures Spare(Next(b, Open(params))) >= Spare(b) - Drawn(Open(params))
  {
    hide TradeOf;
    OpenedInv(params);
    SumMarginAppends(b.series, Opened(params));
  }

  lemma TradeKeepsSpare(b: Book, op: Op)
    requires BookInv(b) && OnOneSeries(op) && op.k < |b.series|
    ensures Spare(Next(b, op)) >= Spare(b)
  {
    hide TradeOf, Margin, SeriesInv;
    var s := b.series[op.k];
    BookBacks(b, op.k);
    TradeKeeps(s, b.vault, op);
    MarginNeverFalls(s, b.vault, op);
    var r := TradeOf(s, b.vault, op);
    if r.Ok? {
      SumMarginUpdates(b.series, op.k, r.value.series);
    }
  }

  lemma {:induction false} RunKeepsSpare(b: Book, ops: seq<Op>)
    requires BookInv(b)
    ensures Spare(Run(b, ops)) >= Spare(b) + TotalPaidIn(ops) - TotalDrawn(ops)
    decreases ops
  {
    if ops != [] {
      NextKeepsSpare(b, ops[0]);
      RunKeepsSpare(Next(b, ops[0]), ops[1..]);
    }
  }

  /** A vault with something to spare covers every series' full reserve, so it covers each one's. */
  lemma {:induction false} EachIsCovered(series: seq<SeriesState>, k: nat)
    requires k < |series|
    requires forall i | 0 <= i < |series| :: SeriesInv(series[i])
    ensures SumNet(series) - SumMargin(series) - SumLocked(series) >= FullReserve(series[k]) - series[k].lockedLiability
    ensures FullReserve(series[k]) >= series[k].lockedLiability
  {
    OwedWithinFullReserve(series[k]);
    OwedWithinFullReserve(series[0]);
    if k > 0 {
      EachIsCovered(series[1..], k - 1);
    } else {
      ReservesCoverLocks(series[1..]);
    }
  }

  lemma {:induction false} ReservesCoverLocks(series: seq<SeriesState>)
    requires forall i | 0 <= i < |series| :: SeriesInv(series[i])
    ensures SumNet(series) - SumMargin(series) - SumLocked(series) >= 0
  {
    if series != [] {
      OwedWithinFullReserve(series[0]);
      ReservesCoverLocks(series[1..]);
    }
  }

  /** With a spare that is not negative, no purchase in any series is cut short by collateral. */
  lemma FundedVaultSellsFreely(b: Book, k: nat, q: Quote, requested: nat)
    requires BookInv(b) && Spare(b) >= 0 && k < |b.series| && !b.series[k].finalized
    ensures var s := b.series[k];
      s.IssueSize(q, b.vault.Free(), requested)
      == Min(Min(requested, s.unitsAvailable), IssueUnitsToCap(q.askVariance, q.askSlope, s.params.capVariance))
  {
    var s := b.series[k];
    EachIsCovered(b.series, k);
    if s.unitsAvailable > 0 {
      InventoryOnSaleIff(s, b.vault.Free());
    }
  }

  /** Over any run from an empty vault: while the deposits made cover what was withdrawn and the full inventory of
      every series opened, whatever is bought, sold back, redeemed or lost in between never leaves a series short of
      collateral to sell with. */
  lemma FundedRunsSellFreely(ops: seq<Op>, k: nat, q: Quote, requested: nat)
    requires TotalDrawn(ops) <= TotalPaidIn(ops)
    ensures BookInv(Genesis())
    ensures var b := Run(Genesis(), ops);
      k < |b.series| && !b.series[k].finalized ==>
        var s := b.series[k];
        s.IssueSize(q, b.vault.Free(), requested)
        == Min(Min(requested, s.unitsAvailable), IssueUnitsToCap(q.askVariance, q.askSlope, s.params.capVariance))
  {
    var b := Run(Genesis(), ops);
    RunKeepsSpare(Genesis(), ops);
    if k < |b.series| && !b.series[k].finalized {
      FundedVaultSellsFreely(b, k, q, requested);
    }
  }

  /** The terms a writer ships open on the collateral they typed: depositing it pays for the whole inventory. */
  lemma ShippedTermsOpenFunded(input: Derivation.Input, decay: Decay)
    requires Derivation.Derive(input).params.Some? && input.overrides.maxUnits.None?
    ensures var d := Derivation.Derive(input);
      && d.collateralTyped.Some? && d.collateralTyped.value >= 0
      && Drawn(Open(d.draft.ToParams(decay))) <= PaidIn(Deposit(d.collateralTyped.value))
  {
    hide Derivation.Derive;
    Derivation.ShippedInventoryFitsTheBudget(input, 0);
  }
}
