/** What every operation on a series keeps, and why no accounting check can fire: the reservation is exactly
    what the outstanding claims could still cost, and the vault always covers every reservation. */
module Solvency {
  import opened Arith
  import opened Outcomes
  import opened Pricing
  import opened Market

  // ---------------------------------------------------------------- the ledger of fills

  function LegQuote(fills: seq<Fill>, leg: Leg): nat {
    if fills == [] then 0
    else LegQuote(fills[..|fills| - 1], leg) + (if fills[|fills| - 1].leg == leg then fills[|fills| - 1].quote else 0)
  }

  function LegUnits(fills: seq<Fill>, leg: Leg): nat {
    if fills == [] then 0
    else LegUnits(fills[..|fills| - 1], leg) + (if fills[|fills| - 1].leg == leg then fills[|fills| - 1].units else 0)
  }

  /** The sum of the maximum liabilities of the sizes sold, each taken on its own. */
  function SoldAtCap(fills: seq<Fill>, params: Params): nat {
    if fills == [] then 0
    else
      var last := fills[|fills| - 1];
      SoldAtCap(fills[..|fills| - 1], params)
      + (if last.leg == IssueLeg then MaxLiability(last.units, params.unitNotional, params.capVariance) else 0)
  }

  lemma LedgerExtends(fills: seq<Fill>, f: Fill, leg: Leg, params: Params)
    ensures LegQuote(fills + [f], leg) == LegQuote(fills, leg) + (if f.leg == leg then f.quote else 0)
    ensures LegUnits(fills + [f], leg) == LegUnits(fills, leg) + (if f.leg == leg then f.units else 0)
    ensures SoldAtCap(fills + [f], params)
         == SoldAtCap(fills, params)
            + (if f.leg == IssueLeg then MaxLiability(f.units, params.unitNotional, params.capVariance) else 0)
  {
    assert (fills + [f])[..|fills|] == fills;
  }

  // ---------------------------------------------------------------- the series invariant

  /** What the outstanding claims can still cost: the cap before finalization, the fixed payout after. */
  function Owed(s: SeriesState): nat {
    if s.finalized then FinalLiability(s.outstandingUnits, s.payoutPerUnit) else s.Reserve(s.outstandingUnits)
  }

  predicate Worthless(s: SeriesState) {
    s.finalized && s.payoutPerUnit == 0
  }

  predicate OracleInv(s: SeriesState) {
    && s.params.Valid()
    && 1 <= s.samplesStored <= s.TotalSamples()
    && s.processedThrough == s.params.SampleTime(s.samplesStored - 1)
    && (s.finalized ==>
          && s.samplesStored == s.TotalSamples()
          && s.finalVariance == Annualize(s.sumSquaredReturns, s.params.expiry - s.params.start)
          && s.payoutPerUnit == PayoutPerUnit(s.finalVariance, s.params.capVariance, s.params.unitNotional))
  }

  predicate LedgerInv(s: SeriesState) {
    && s.premiumTaken == LegQuote(s.fills, IssueLeg)
    && s.exitPaid == LegQuote(s.fills, ExitLeg)
    && s.settlePaid == LegQuote(s.fills, SettleLeg)
    && s.unitsAvailable + LegUnits(s.fills, IssueLeg) <= s.params.maxUnits
    && s.outstandingUnits + LegUnits(s.fills, ExitLeg) + LegUnits(s.fills, SettleLeg) <= LegUnits(s.fills, IssueLeg)
    && (!Worthless(s) ==>
          s.outstandingUnits + LegUnits(s.fills, ExitLeg) + LegUnits(s.fills, SettleLeg) == LegUnits(s.fills, IssueLeg))
  }

  /** The reservation is exact, and what was paid plus what is still reserved never exceeds what was sold at the cap. */
  predicate BackingInv(s: SeriesState) {
    && s.lockedLiability == Owed(s)
    && s.exitPaid + s.settlePaid + s.lockedLiability <= SoldAtCap(s.fills, s.params)
  }

  predicate SeriesInv(s: SeriesState) {
    OracleInv(s) && LedgerInv(s) && BackingInv(s)
  }

  /** The cursor sits inside the window, so the series can be priced. */
  lemma InvPriceable(s: SeriesState)
    requires OracleInv(s)
    ensures s.Priceable()
    ensures s.samplesStored == s.TotalSamples() <==> s.processedThrough == s.params.expiry
  {
    var n, step := s.TotalSamples() - 1, s.params.sampleInterval;
    assert s.params.expiry - s.params.start == n * step;
    MulMono(s.samplesStored - 1, n, step);
    if s.samplesStored - 1 < n { MulMono(s.samplesStored, n, step); }
    assert s.samplesStored * step == (s.samplesStored - 1) * step + step;
  }

  /** No more samples ever come due than the window holds. */
  lemma AvailableWithinTotal(s: SeriesState, now: nat)
    requires s.params.Valid()
    ensures s.AvailableSamples(now) <= s.TotalSamples()
  {
    var capped := Min(now, s.params.expiry);
    if capped >= s.params.start {
      FloorMono(capped - s.params.start, s.params.expiry - s.params.start, s.params.sampleInterval);
    }
  }

  // ---------------------------------------------------------------- what one operation may do

  /** An operation keeps the invariant, moves the vault's lock by exactly the change of its own reservation, and
      its balance by exactly the money recorded; the rest of the vault stays as it was. */
  ghost predicate Accounted(s: SeriesState, v: VaultState, t: Trade) {
    && SeriesInv(t.series)
    && t.series.params == s.params
    && t.vault.locked - v.locked == t.series.lockedLiability as int - s.lockedLiability
    && t.vault.balance - v.balance == Net(t.series) - Net(s)
    && t.vault.deposited == v.deposited
    && t.vault.withdrawn == v.withdrawn
    && t.vault.Free() >= 0
  }

  /** Money the series has brought into its vault so far. */
  function Net(s: SeriesState): int {
    s.premiumTaken - s.exitPaid - s.settlePaid
  }

  /** A vault that can back the series: solvent, with at least this series' reservation locked. */
  predicate Backs(v: VaultState, s: SeriesState) {
    v.Free() >= 0 && s.lockedLiability <= v.locked
  }

  lemma CheckpointKeeps(s: SeriesState, now: nat, squares: SquaredReturns, maxSamples: nat)
    requires SeriesInv(s)
    ensures SeriesInv(s.Checkpoint(now, squares, maxSamples))
    ensures s.finalized ==> s.Checkpoint(now, squares, maxSamples) == s
  {
    AvailableWithinTotal(s, now);
  }

  lemma LedgersExtend(s: SeriesState, f: Fill)
    ensures forall leg :: LegQuote(s.fills + [f], leg) == LegQuote(s.fills, leg) + (if f.leg == leg then f.quote else 0)
    ensures forall leg :: LegUnits(s.fills + [f], leg) == LegUnits(s.fills, leg) + (if f.leg == leg then f.units else 0)
    ensures SoldAtCap(s.fills + [f], s.params)
         == SoldAtCap(s.fills, s.params) + (if f.leg == IssueLeg then s.Reserve(f.units) else 0)
  {
    forall leg: Leg {
      LedgerExtends(s.fills, f, leg, s.params);
    }
    LedgerExtends(s.fills, f, IssueLeg, s.params);
  }

  // ---------------------------------------------------------------- buying

  /** What the clamps guarantee of a purchase: it is in inventory, it costs no more than was offered or than it
      makes the writer reserve, and the aggregate reservation after it fits the free collateral. */
  lemma IssueFillFits(s: SeriesState, v: VaultState, now: nat, actor: string, amountIn: nat)
    requires s.Priceable() && Backs(v, s)
    ensures var filled := s.IssueFill(v.Free(), now, actor, amountIn);
            filled.Some? ==>
              var fill := filled.value;
              && fill.leg == IssueLeg && fill.t == now
              && 0 < fill.units <= s.unitsAvailable
              && 0 < fill.quote <= amountIn
              && fill.quote <= s.Reserve(fill.units)
              && s.Reserve(s.outstandingUnits + fill.units) <= s.lockedLiability + v.Free()
  {
    var q, n := s.QuoteAt(now), s.params.unitNotional;
    var requested := UnitsFor(q.askVariance, q.askSlope, n, amountIn);
    var units := s.IssueSize(q, v.Free(), requested);
    if units > 0 {
      CollateralClampFits(s.outstandingUnits, s.lockedLiability, v.Free(), n, s.params.capVariance, units);
      NeverCostsMoreThanOffered(q.askVariance, q.askSlope, n, amountIn);
      PremiumMono(q.askVariance, q.askSlope, n, units, requested);
      PremiumWithinReservation(q.askVariance, q.askSlope, s.params.capVariance, n, units);
    }
  }

  lemma BoughtAccounted(s: SeriesState, v: VaultState, fill: Fill)
    requires SeriesInv(s) && Backs(v, s) && !s.finalized
    requires fill.leg == IssueLeg && fill.units <= s.unitsAvailable
    requires s.Reserve(s.outstandingUnits + fill.units) <= s.lockedLiability + v.Free()
    ensures var v' := v.(locked := v.locked + s.Bought(fill).lockedLiability - s.lockedLiability,
                         balance := v.balance + fill.quote);
            && Accounted(s, v, Trade(s.Bought(fill), v', Some(fill)))
            && (var reserved :- v.IncreaseLocked(s.Bought(fill).lockedLiability as int - s.lockedLiability);
                reserved.Credit(fill.quote)) == Ok(v')
  {
    MaxLiabilityIsSubadditive(s.outstandingUnits, fill.units, s.params.unitNotional, s.params.capVariance);
    LedgersExtend(s, fill);
  }

  lemma IssueKeeps(s: SeriesState, v: VaultState, now: nat, actor: string, amountIn: nat)
    requires SeriesInv(s) && Backs(v, s)
    ensures s.Priceable()
    ensures var r := s.Issue(v, now, actor, amountIn);
            if r.Ok? then Accounted(s, v, r.value) else r.error == CheckpointsStale
  {
    InvPriceable(s);
    IssueFillFits(s, v, now, actor, amountIn);
    var filled := s.IssueFill(v.Free(), now, actor, amountIn);
    if s.IssuanceOpen(now) && filled.Some? {
      BoughtAccounted(s, v, filled.value);
    }
  }

  // ---------------------------------------------------------------- selling back and redeeming

  /** A sale never raises the zero-bid error, and its clamps keep the payment inside what the burn releases. */
  lemma ExitFillFits(s: SeriesState, v: VaultState, now: nat, actor: string, unitsRequested: nat)
    requires s.Priceable() && Backs(v, s)
    ensures var r := s.ExitFill(v.balance, now, actor, unitsRequested);
            && r.Ok?
            && (r.value.Some? ==>
                  var fill := r.value.value;
                  && fill.leg == ExitLeg && fill.t == now && fill.quote > 0
                  && 0 < fill.units <= s.outstandingUnits && fill.units <= unitsRequested
                  && fill.quote + s.Reserve(s.outstandingUnits - fill.units) <= s.lockedLiability)
  {
    var q := s.QuoteAt(now);
    ZeroBidClampFits(q.bidVariance, q.bidSlope, s.ExitSize(q, unitsRequested));
  }

  lemma SoldBackAccounted(s: SeriesState, v: VaultState, fill: Fill)
    requires SeriesInv(s) && Backs(v, s) && !s.finalized
    requires fill.leg == ExitLeg && fill.units <= s.outstandingUnits
    requires fill.quote + s.Reserve(s.outstandingUnits - fill.units) <= s.lockedLiability
    ensures var released := s.lockedLiability - s.SoldBack(fill).lockedLiability;
            var v' := v.(locked := v.locked - released, balance := v.balance - fill.quote);
            && SeriesState.PayOut(v, released, fill.quote) == Ok(v')
            && Accounted(s, v, Trade(s.SoldBack(fill), v', Some(fill)))
  {
    LedgersExtend(s, fill);
  }

  lemma ExitKeeps(s: SeriesState, v: VaultState, now: nat, actor: string, unitsRequested: nat)
    requires SeriesInv(s) && Backs(v, s)
    ensures s.Priceable()
    ensures var r := s.Exit(v, now, actor, unitsRequested);
            if r.Ok? then Accounted(s, v, r.value) else r.error == CheckpointsStale
  {
    InvPriceable(s);
    ExitFillFits(s, v, now, actor, unitsRequested);
    var filled := s.ExitFill(v.balance, now, actor, unitsRequested);
    if s.ExitOpen(now) && filled.value.Some? {
      SoldBackAccounted(s, v, filled.value.value);
    }
  }

  /** Neither clamp binds on a redemption: it is paid exactly `floor(units·ppu/1e18)`. */
  lemma SettleFillIs(s: SeriesState, v: VaultState, now: nat, actor: string, unitsRequested: nat)
    requires SeriesInv(s) && Backs(v, s) && s.finalized
    ensures var units: nat := Min(unitsRequested, s.outstandingUnits);
            var due := SettleProceeds(units, s.payoutPerUnit);
            && due + FinalLiability(s.outstandingUnits - units, s.payoutPerUnit) <= s.lockedLiability
            && s.SettleFill(v.balance, now, actor, unitsRequested)
               == if due == 0 then None else Some(Fill(now, SettleLeg, actor, units, due, units < unitsRequested))
  {
    var units: nat := Min(unitsRequested, s.outstandingUnits);
    ReleaseCoversPayout(s.outstandingUnits, units, s.payoutPerUnit);
    FloorIs(0, WAD, 1);
  }

  lemma RedeemedAccounted(s: SeriesState, v: VaultState, fill: Fill)
    requires SeriesInv(s) && Backs(v, s) && s.finalized && s.payoutPerUnit > 0
    requires fill.leg == SettleLeg && fill.units <= s.outstandingUnits
    requires fill.quote + FinalLiability(s.outstandingUnits - fill.units, s.payoutPerUnit) <= s.lockedLiability
    ensures var released := s.lockedLiability - s.Redeemed(fill).lockedLiability;
            var v' := v.(locked := v.locked - released, balance := v.balance - fill.quote);
            && SeriesState.PayOut(v, released, fill.quote) == Ok(v')
            && Accounted(s, v, Trade(s.Redeemed(fill), v', Some(fill)))
  {
    LedgersExtend(s, fill);
  }

  /** Every redemption of a finalized position that pays anything pays exactly `floor(units·ppu/1e18)` and releases
      the rest of its reservation, whatever was redeemed before it; one that would pay nothing changes nothing. */
  lemma RedemptionPaysInFull(s: SeriesState, v: VaultState, now: nat, actor: string, unitsRequested: nat)
    requires SeriesInv(s) && Backs(v, s) && s.finalized
    ensures var units: nat := Min(unitsRequested, s.outstandingUnits);
            var due := SettleProceeds(units, s.payoutPerUnit);
            var r := s.Settle(v, now, actor, unitsRequested);
            && r.Ok?
            && (due == 0 ==> r.value == Trade(s, v, None))
            && (due > 0 ==>
                  && r.value.fill == Some(Fill(now, SettleLeg, actor, units, due, units < unitsRequested))
                  && r.value.series.outstandingUnits == s.outstandingUnits - units
                  && r.value.vault.balance == v.balance - due
                  && Accounted(s, v, r.value))
  {
    SettleFillIs(s, v, now, actor, unitsRequested);
    var filled := s.SettleFill(v.balance, now, actor, unitsRequested);
    if s.payoutPerUnit == 0 {
      FloorIs(0, WAD, 1);
    } else if filled.Some? {
      RedeemedAccounted(s, v, filled.value);
    }
  }

  lemma SettleKeeps(s: SeriesState, v: VaultState, now: nat, actor: string, unitsRequested: nat)
    requires SeriesInv(s) && Backs(v, s)
    ensures var r := s.Settle(v, now, actor, unitsRequested);
            if r.Ok? then Accounted(s, v, r.value) else r.error == NotFinalized && !s.finalized
  {
    if s.finalized {
      RedemptionPaysInFull(s, v, now, actor, unitsRequested);
    }
  }

  /** Finalization is refused only for its three stated reasons; it never needs more than was locked. */
  lemma FinalizeKeeps(s: SeriesState, v: VaultState, now: nat)
    requires SeriesInv(s) && Backs(v, s)
    ensures var r := s.Finalize(v, now);
            if r.Ok? then Accounted(s, v, r.value) && r.value.series.lockedLiability <= s.lockedLiability
            else r.error in {NotExpired, IncompleteWindow, AlreadyFinalized}
    ensures s.Finalize(v, now).Ok?
        <==> now >= s.params.expiry && s.samplesStored == s.TotalSamples() && !s.finalized
  {
    var variance := Annualize(s.sumSquaredReturns, s.params.expiry - s.params.start);
    FinalWithinMax(s.outstandingUnits, variance, s.params.capVariance, s.params.unitNotional);
  }

  lemma BurnKeeps(s: SeriesState, v: VaultState, units: nat)
    requires SeriesInv(s) && Backs(v, s)
    ensures var r := s.BurnWorthless(v, units);
            if r.Ok? then Accounted(s, v, r.value) else r.error == PayoutNotZero && !Worthless(s)
  {
  }

  lemma StopKeeps(s: SeriesState)
    requires SeriesInv(s)
    ensures SeriesInv(s.StopIssuance())
  {
  }

  /** A series closes exactly when no claim is outstanding, and then it has nothing left to release. */
  lemma CloseKeeps(s: SeriesState, v: VaultState)
    requires SeriesInv(s) && Backs(v, s)
    ensures s.Close(v) == if s.outstandingUnits > 0 then Err(ClaimsOutstanding)
                          else Ok(Trade(s.(unitsAvailable := 0), v, None))
    ensures s.outstandingUnits == 0 ==> s.lockedLiability == 0 && Accounted(s, v, s.Close(v).value)
  {
  }

  lemma OpenedInv(params: Params)
    requires params.Valid()
    ensures SeriesInv(Opened(params)) && Net(Opened(params)) == 0 && Opened(params).lockedLiability == 0
  {
    FloorIs(params.expiry - params.start, params.sampleInterval, 0);
  }

  // ---------------------------------------------------------------- what a trader is promised

  /** Redeeming everything extinguishes the position exactly when its payout does not floor to zero. */
  lemma RedemptionExtinguishesIff(s: SeriesState, v: VaultState, now: nat, actor: string, unitsRequested: nat)
    requires SeriesInv(s) && Backs(v, s) && s.finalized && unitsRequested >= s.outstandingUnits
    ensures var r := s.Settle(v, now, actor, unitsRequested);
            r.Ok? && (r.value.series.outstandingUnits == 0
                      <==> s.outstandingUnits == 0 || s.outstandingUnits * s.payoutPerUnit >= WAD)
  {
    RedemptionPaysInFull(s, v, now, actor, unitsRequested);
    FloorIs(s.outstandingUnits * s.payoutPerUnit, WAD, 1);
  }
}
