/** The covered market on values: one vault, one series, and every operation as a function from the state
    before to the state after. A thrown error is an `Err`; the checks that throw are the ones the code runs. */
module Market {
  import opened Arith
  import opened Outcomes
  import opened Pricing

  datatype Error =
    | CheckpointsStale
    | NotExpired
    | IncompleteWindow
    | AlreadyFinalized
    | NotFinalized
    | PayoutNotZero
    | ClaimsOutstanding
    | ExceedsFree
    | Undercollateralized
    | ExceedsLocked
    | DebitExceedsBalance
    | ZeroBidExceeded

  /** The errors that would mean the accounting itself is wrong, as opposed to a refused request. */
  predicate AccountingError(e: Error) {
    e.Undercollateralized? || e.ExceedsLocked? || e.DebitExceedsBalance? || e.ZeroBidExceeded?
  }

  datatype Params = Params(
    start: nat, expiry: nat, saleEnd: nat, sampleInterval: nat,
    unitNotional: nat, capVariance: nat, anchorVariance: nat, impactPerUnit: nat,
    halfLife: nat, halfSpreadBps: nat, maxUnits: nat, decay: Decay)
  {
    predicate Valid() {
      && start < expiry
      && sampleInterval > 0
      && (expiry - start) % sampleInterval == 0
      && unitNotional > 0
      && capVariance > 0
      && halfSpreadBps < BPS
    }

    /** When sample `i` of the window is due. */
    function SampleTime(i: nat): nat {
      start + i * sampleInterval
    }
  }

  // ---------------------------------------------------------------- the vault

  datatype VaultState = VaultState(balance: int, locked: int, withdrawn: int, deposited: int) {

    function Free(): int {
      balance - locked
    }

    function AssertSolvent(): Result<VaultState, Error> {
      if balance < locked then Err(Undercollateralized) else Ok(this)
    }

    function Deposit(amount: nat): Result<VaultState, Error> {
      this.(balance := balance + amount, deposited := deposited + amount).AssertSolvent()
    }

    function WithdrawFree(amount: nat): Result<VaultState, Error> {
      if amount > Free() then Err(ExceedsFree)
      else this.(balance := balance - amount, withdrawn := withdrawn + amount).AssertSolvent()
    }

    function Credit(amount: nat): Result<VaultState, Error> {
      this.(balance := balance + amount).AssertSolvent()
    }

    function Debit(amount: nat): Result<VaultState, Error> {
      if amount > balance then Err(DebitExceedsBalance)
      else this.(balance := balance - amount).AssertSolvent()
    }

    function IncreaseLocked(amount: int): Result<VaultState, Error> {
      this.(locked := locked + amount).AssertSolvent()
    }

    function DecreaseLocked(amount: int): Result<VaultState, Error> {
      if amount > locked then Err(ExceedsLocked)
      else this.(locked := locked - amount).AssertSolvent()
    }
  }

  // ---------------------------------------------------------------- the series

  datatype Leg = IssueLeg | ExitLeg | SettleLeg

  datatype Fill = Fill(t: nat, leg: Leg, actor: string, units: nat, quote: nat, partial: bool)

  datatype Quote = Quote(
    marketVariance: nat, projectedVariance: nat, realizedSoFar: nat, bidVariance: nat, askVariance: nat,
    bidPerUnit: nat, askPerUnit: nat, askSlope: nat, bidSlope: nat)

  /** The squared log return of each sample index in WAD, as the price path and the float logarithm give it. */
  type SquaredReturns = nat -> nat

  function ReturnSum(squares: SquaredReturns, lo: nat, hi: nat): nat
    decreases hi
  {
    if hi <= lo then 0 else ReturnSum(squares, lo, hi - 1) + squares(hi - 1)
  }

  /** What a trading leg leaves behind: both states, and the fill if anything traded. */
  datatype Trade = Trade(series: SeriesState, vault: VaultState, fill: Option<Fill>)

  datatype SeriesState = SeriesState(
    params: Params,
    skew: int, lastSkewTs: nat,
    outstandingUnits: nat, unitsAvailable: nat, lockedLiability: nat,
    issuanceStopped: bool, finalized: bool, finalVariance: nat, payoutPerUnit: nat,
    samplesStored: nat, sumSquaredReturns: nat, processedThrough: nat,
    premiumTaken: nat, exitPaid: nat, settlePaid: nat, fills: seq<Fill>)
  {
    /** What the pricing functions need of a state: valid terms and a cursor inside the window. */
    predicate Priceable() {
      params.Valid() && params.start <= processedThrough <= params.expiry
    }

    // -------------------------------------------------------------- the oracle

    function TotalSamples(): nat
      requires params.Valid()
    {
      (params.expiry - params.start) / params.sampleInterval + 1
    }

    function AvailableSamples(now: nat): nat
      requires params.Valid()
    {
      var capped := Min(now, params.expiry);
      if capped < params.start then 0
      else Floor(capped - params.start, params.sampleInterval) + 1
    }

    predicate IsCurrent(now: nat)
      requires params.Valid()
    {
      samplesStored >= AvailableSamples(now)
    }

    /** How many samples one bounded call stores. */
    function Storable(now: nat, maxSamples: nat): nat
      requires params.Valid()
    {
      Max(0, Min(maxSamples, AvailableSamples(now) - samplesStored))
    }

    function Checkpoint(now: nat, squares: SquaredReturns, maxSamples: nat): SeriesState
      requires params.Valid() && samplesStored >= 1
    {
      var next := samplesStored + Storable(now, maxSamples);
      if next == samplesStored then this
      else this.(samplesStored := next,
                 sumSquaredReturns := sumSquaredReturns + ReturnSum(squares, samplesStored, next),
                 processedThrough := params.SampleTime(next - 1))
    }

    function CheckpointCallsNeeded(now: nat, maxSamples: nat): nat
      requires params.Valid() && maxSamples > 0
    {
      Ceil(Max(0, AvailableSamples(now) - samplesStored), maxSamples)
    }

    function RealizedSoFar(): nat
      requires params.start <= processedThrough
    {
      Annualize(sumSquaredReturns, processedThrough - params.start)
    }

    /** Fixes the payout once the whole window is stored, and releases the cap surplus. */
    function Finalize(vault: VaultState, now: nat): Result<Trade, Error>
      requires params.Valid()
    {
      if now < params.expiry then Err(NotExpired)
      else if samplesStored < TotalSamples() then Err(IncompleteWindow)
      else if finalized then Err(AlreadyFinalized)
      else
        var variance := Annualize(sumSquaredReturns, params.expiry - params.start);
        var ppu := PayoutPerUnit(variance, params.capVariance, params.unitNotional);
        var newLiability := FinalLiability(outstandingUnits, ppu);
        var released: int := lockedLiability as int - newLiability;
        var after :- if released > 0 then vault.DecreaseLocked(released) else Ok(vault);
        Ok(Trade(this.(finalized := true, finalVariance := variance, payoutPerUnit := ppu,
                       lockedLiability := newLiability),
                 after, None))
    }

    // -------------------------------------------------------------- the quote

    function SkewAt(now: nat): int {
      DecaySkew(skew, Max(0, now - lastSkewTs), params.halfLife, params.decay)
    }

    function QuoteAt(now: nat): Quote
      requires Priceable()
    {
      var market := ForwardVariance(params.anchorVariance, SkewAt(now), params.capVariance);
      var elapsed, remaining := processedThrough - params.start, params.expiry - processedThrough;
      var realized := RealizedSoFar();
      var projected := ProjectedVariance(realized, elapsed, market, remaining);
      var bid := BidVariance(projected, params.halfSpreadBps, params.capVariance);
      var ask := AskVariance(projected, params.halfSpreadBps, params.capVariance);
      var duration := elapsed + remaining;
      Quote(market, projected, realized, bid, ask,
            PerUnitPrice(params.unitNotional, bid), PerUnitPrice(params.unitNotional, ask),
            AskImpactSlope(params.impactPerUnit, remaining, duration, params.halfSpreadBps),
            BidImpactSlope(params.impactPerUnit, remaining, duration, params.halfSpreadBps))
    }

    // -------------------------------------------------------------- the three legs

    predicate IssuanceOpen(now: nat) {
      !issuanceStopped && !finalized && now <= params.saleEnd && unitsAvailable > 0
    }

    predicate ExitOpen(now: nat) {
      !finalized && now < params.expiry && outstandingUnits > 0
    }

    function Reserve(units: nat): nat {
      MaxLiability(units, params.unitNotional, params.capVariance)
    }

    /** The requested size under the inventory, cap and collateral clamps. */
    function IssueSize(q: Quote, free: nat, requested: nat): nat {
      Min(Min(Min(requested, unitsAvailable), IssueUnitsToCap(q.askVariance, q.askSlope, params.capVariance)),
          IssueUnitsToCollateral(outstandingUnits, lockedLiability, free, params.unitNotional, params.capVariance))
    }

    /** The fill a buyer gets for `amountIn`, if any size at all fills at a positive premium. */
    ghost function IssueFill(free: nat, now: nat, actor: string, amountIn: nat): Option<Fill>
      requires Priceable()
    {
      var q := QuoteAt(now);
      var requested := UnitsFor(q.askVariance, q.askSlope, params.unitNotional, amountIn);
      var units := IssueSize(q, free, requested);
      var premium := IssuePremium(q.askVariance, q.askSlope, params.unitNotional, units);
      if units == 0 || premium == 0 then None
      else Some(Fill(now, IssueLeg, actor, units, premium, units < requested))
    }

    function Bought(fill: Fill): SeriesState
      requires fill.units <= unitsAvailable
    {
      this.(lockedLiability := Reserve(outstandingUnits + fill.units),
            outstandingUnits := outstandingUnits + fill.units,
            unitsAvailable := unitsAvailable - fill.units,
            premiumTaken := premiumTaken + fill.quote,
            skew := SkewAt(fill.t) + Floor(params.impactPerUnit * fill.units, WAD),
            lastSkewTs := fill.t,
            fills := fills + [fill])
    }

    /** Buys for `amountIn`: the aggregate position is reserved at the cap first, then the premium is credited. */
    ghost function Issue(vault: VaultState, now: nat, actor: string, amountIn: nat): Result<Trade, Error>
      requires Priceable() && vault.Free() >= 0
    {
      if !IssuanceOpen(now) then Ok(Trade(this, vault, None))
      else if !IsCurrent(now) then Err(CheckpointsStale)
      else
        var filled := IssueFill(vault.Free(), now, actor, amountIn);
        if filled.None? then Ok(Trade(this, vault, None))
        else
          var after := Bought(filled.value);
          var reserved :- vault.IncreaseLocked(after.lockedLiability as int - lockedLiability);
          var credited :- reserved.Credit(filled.value.quote);
          Ok(Trade(after, credited, filled))
    }

    /** What a burn pays: the priced amount, never more than the reservation it releases or the balance. */
    static function Clamped(amount: int, released: int, balance: int): int {
      Min(Min(amount, released), balance)
    }

    /** The vault's side of a burn: the reservation goes first, then the payment. */
    static function PayOut(vault: VaultState, released: int, amountOut: nat): Result<VaultState, Error> {
      var unlocked :- vault.DecreaseLocked(released);
      unlocked.Debit(amountOut)
    }

    /** The requested size under the outstanding and zero-bid clamps. */
    function ExitSize(q: Quote, unitsRequested: nat): nat {
      Min(Min(unitsRequested, outstandingUnits), ExitUnitsToZeroBid(q.bidVariance, q.bidSlope))
    }

    /** The fill a seller gets for `unitsRequested`, if any size fills at a positive amount. */
    function ExitFill(balance: int, now: nat, actor: string, unitsRequested: nat): Result<Option<Fill>, Error>
      requires Priceable()
    {
      var q := QuoteAt(now);
      var units := ExitSize(q, unitsRequested);
      if units == 0 then Ok(None)
      else if ExitIntegral(q.bidVariance, q.bidSlope, units) < 0 then Err(ZeroBidExceeded)
      else
        var proceeds := ExitProceeds(q.bidVariance, q.bidSlope, params.unitNotional, units);
        var released: int := lockedLiability as int - Reserve(outstandingUnits - units);
        var amountOut := Clamped(proceeds, released, balance);
        if amountOut <= 0 then Ok(None)
        else Ok(Some(Fill(now, ExitLeg, actor, units, amountOut, units < unitsRequested)))
    }

    function SoldBack(fill: Fill): SeriesState
      requires fill.units <= outstandingUnits
    {
      this.(outstandingUnits := outstandingUnits - fill.units,
            lockedLiability := Reserve(outstandingUnits - fill.units),
            exitPaid := exitPaid + fill.quote,
            skew := SkewAt(fill.t) - Floor(params.impactPerUnit * fill.units, WAD),
            lastSkewTs := fill.t,
            fills := fills + [fill])
    }

    function Exit(vault: VaultState, now: nat, actor: string, unitsRequested: nat): Result<Trade, Error>
      requires Priceable()
    {
      if !ExitOpen(now) then Ok(Trade(this, vault, None))
      else if !IsCurrent(now) then Err(CheckpointsStale)
      else
        var filled :- ExitFill(vault.balance, now, actor, unitsRequested);
        if filled.None? then Ok(Trade(this, vault, None))
        else
          var after := SoldBack(filled.value);
          var paid :- PayOut(vault, lockedLiability as int - after.lockedLiability, filled.value.quote);
          Ok(Trade(after, paid, filled))
    }

    /** The fill a redemption gets, if its payout does not floor to zero. */
    function SettleFill(balance: int, now: nat, actor: string, unitsRequested: nat): Option<Fill> {
      var units: nat := Min(unitsRequested, outstandingUnits);
      if units == 0 then None
      else
        var proceeds := SettleProceeds(units, payoutPerUnit);
        var released: int := lockedLiability as int - FinalLiability(outstandingUnits - units, payoutPerUnit);
        var amountOut := Clamped(proceeds, released, balance);
        if amountOut <= 0 then None
        else Some(Fill(now, SettleLeg, actor, units, amountOut, units < unitsRequested))
    }

    function Redeemed(fill: Fill): SeriesState
      requires fill.units <= outstandingUnits
    {
      this.(outstandingUnits := outstandingUnits - fill.units,
            lockedLiability := FinalLiability(outstandingUnits - fill.units, payoutPerUnit),
            settlePaid := settlePaid + fill.quote,
            fills := fills + [fill])
    }

    function Settle(vault: VaultState, now: nat, actor: string, unitsRequested: nat): Result<Trade, Error> {
      if !finalized then Err(NotFinalized)
      else if payoutPerUnit == 0 then Ok(Trade(this, vault, None))
      else
        var filled := SettleFill(vault.balance, now, actor, unitsRequested);
        if filled.None? then Ok(Trade(this, vault, None))
        else
          var after := Redeemed(filled.value);
          var paid :- PayOut(vault, lockedLiability as int - after.lockedLiability, filled.value.quote);
          Ok(Trade(after, paid, filled))
    }

    /** A finalized series that pays nothing burns claims instead of redeeming them. */
    function BurnWorthless(vault: VaultState, units: nat): Result<Trade, Error> {
      if !finalized || payoutPerUnit != 0 then Err(PayoutNotZero)
      else
        var u: nat := Min(units, outstandingUnits);
        if u == 0 then Ok(Trade(this, vault, None))
        else
          var after :- if lockedLiability > 0 then vault.DecreaseLocked(lockedLiability) else Ok(vault);
          Ok(Trade(this.(outstandingUnits := outstandingUnits - u, lockedLiability := 0), after, None))
    }

    function StopIssuance(): SeriesState {
      this.(issuanceStopped := true, unitsAvailable := 0)
    }

    function Close(vault: VaultState): Result<Trade, Error> {
      if outstandingUnits > 0 then Err(ClaimsOutstanding)
      else
        var after :- if lockedLiability > 0 then vault.DecreaseLocked(lockedLiability) else Ok(vault);
        Ok(Trade(this.(unitsAvailable := 0, lockedLiability := 0), after, None))
    }
  }

  /** A series as constructed: nothing sold, the opening sample stored, the cursor at the window's start. */
  function Opened(params: Params): SeriesState {
    SeriesState(params, 0, params.start, 0, params.maxUnits, 0, false, false, 0, 0, 1, 0, params.start, 0, 0, 0, [])
  }
}
