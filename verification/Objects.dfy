/** The vault and the series as the objects they are: fields updated in place, several series sharing one vault.
    Each method is held to the operation on values of the same name, and a run over shared objects to the run on
    values. */
module MarketObjects {
  import opened Arith
  import opened Outcomes
  import opened Pricing
  import opened Market
  import opened Solvency
  import opened MarketRuns

  class Vault {
    var balance: int
    var locked: int
    var withdrawn: int
    var deposited: int

    constructor ()
      ensures View() == Genesis().vault
    {
      balance, locked, withdrawn, deposited := 0, 0, 0, 0;
    }

    function View(): VaultState
      reads this
    {
      VaultState(balance, locked, withdrawn, deposited)
    }

    function Free(): int
      reads this
    {
      balance - locked
    }

    method AssertSolvent() returns (r: Outcome<Error>)
      ensures r == if balance < locked then Fail(Undercollateralized) else Pass
    {
      return if balance < locked then Fail(Undercollateralized) else Pass;
    }

    method Deposit(amount: nat) returns (r: Outcome<Error>)
      modifies this`balance, this`deposited
      ensures balance == old(balance) + amount && deposited == old(deposited) + amount
      ensures r == if balance < locked then Fail(Undercollateralized) else Pass
    {
      balance := balance + amount;
      deposited := deposited + amount;
      r := AssertSolvent();
    }

    method WithdrawFree(amount: nat) returns (r: Outcome<Error>)
      modifies this`balance, this`withdrawn
      ensures match old(View()).WithdrawFree(amount)
              case Ok(v) => r == Pass && View() == v
              case Err(e) => r == Fail(e) && (e == ExceedsFree ==> View() == old(View()))
    {
      if amount > Free() {
        return Fail(ExceedsFree);
      }
      balance := balance - amount;
      withdrawn := withdrawn + amount;
      r := AssertSolvent();
    }

    method Credit(amount: nat) returns (r: Outcome<Error>)
      modifies this`balance
      ensures balance == old(balance) + amount
      ensures r == if balance < locked then Fail(Undercollateralized) else Pass
    {
      balance := balance + amount;
      r := AssertSolvent();
    }

    method Debit(amount: nat) returns (r: Outcome<Error>)
      modifies this`balance
      ensures match old(View()).Debit(amount)
              case Ok(v) => r == Pass && View() == v
              case Err(e) => r == Fail(e) && (e == DebitExceedsBalance ==> View() == old(View()))
    {
      if amount > balance {
        return Fail(DebitExceedsBalance);
      }
      balance := balance - amount;
      r := AssertSolvent();
    }

    method IncreaseLocked(amount: int) returns (r: Outcome<Error>)
      modifies this`locked
      ensures locked == old(locked) + amount
      ensures r == if balance < locked then Fail(Undercollateralized) else Pass
    {
      locked := locked + amount;
      r := AssertSolvent();
    }

    method DecreaseLocked(amount: int) returns (r: Outcome<Error>)
      modifies this`locked
      ensures match old(View()).DecreaseLocked(amount)
              case Ok(v) => r == Pass && View() == v
              case Err(e) => r == Fail(e) && (e == ExceedsLocked ==> View() == old(View()))
    {
      if amount > locked {
        return Fail(ExceedsLocked);
      }
      locked := locked - amount;
      r := AssertSolvent();
    }
  }

  /** The outcome of a method is the outcome of the operation on values: both states and the fill when it
      succeeds, the error and nothing changed when it throws. */
  ghost predicate Follows(spec: Result<Trade, Error>, r: Result<Option<Fill>, Error>,
                          s0: SeriesState, v0: VaultState, s1: SeriesState, v1: VaultState) {
    match spec
    case Ok(t) => r == Ok(t.fill) && s1 == t.series && v1 == t.vault
    case Err(e) => r == Err(e) && s1 == s0 && v1 == v0
  }

  class Series {
    const params: Params
    const vault: Vault

    var skew: int
    var lastSkewTs: nat
    var outstandingUnits: nat
    var unitsAvailable: nat
    var lockedLiability: nat
    var issuanceStopped: bool
    var finalized: bool
    var finalVariance: nat
    var payoutPerUnit: nat
    var samplesStored: nat
    var sumSquaredReturns: nat
    var processedThrough: nat
    var premiumTaken: nat
    var exitPaid: nat
    var settlePaid: nat
    var fills: seq<Fill>

    function View(): SeriesState
      reads this
    {
      SeriesState(params, skew, lastSkewTs, outstandingUnits, unitsAvailable, lockedLiability, issuanceStopped,
                  finalized, finalVariance, payoutPerUnit, samplesStored, sumSquaredReturns, processedThrough,
                  premiumTaken, exitPaid, settlePaid, fills)
    }

    /** What a method needs of the objects it touches: the series' own invariant, on a vault that backs it. */
    ghost predicate Sound()
      reads this, vault
    {
      SeriesInv(View()) && Backs(vault.View(), View())
    }

    constructor (params: Params, vault: Vault)
      requires params.Valid()
      modifies vault`locked
      ensures this.vault == vault && View() == Opened(params) && vault.View() == old(vault.View())
    {
      this.params, this.vault := params, vault;
      skew, lastSkewTs := 0, params.start;
      outstandingUnits, unitsAvailable, lockedLiability := 0, params.maxUnits, 0;
      issuanceStopped, finalized, finalVariance, payoutPerUnit := false, false, 0, 0;
      samplesStored, sumSquaredReturns, processedThrough := 1, 0, params.start;
      premiumTaken, exitPaid, settlePaid, fills := 0, 0, 0, [];
      new;
      var solvent := vault.IncreaseLocked(0);
    }

    /** Stores up to `maxSamples` due samples. */
    method Checkpoint(now: nat, squares: SquaredReturns, maxSamples: nat) returns (stored: nat)
      requires params.Valid() && samplesStored >= 1
      modifies this`samplesStored, this`sumSquaredReturns, this`processedThrough
      ensures View() == old(View()).Checkpoint(now, squares, maxSamples)
      ensures stored == old(View()).Storable(now, maxSamples)
    {
      var available := View().AvailableSamples(now);
      stored := StoreSamples(available, squares, maxSamples);
    }

    /** Adds the samples below `available` one at a time, each with its squared return, within the budget. */
    method StoreSamples(available: nat, squares: SquaredReturns, maxSamples: nat) returns (stored: nat)
      requires samplesStored >= 1
      modifies this`samplesStored, this`sumSquaredReturns, this`processedThrough
      ensures stored == Max(0, Min(maxSamples, available - old(samplesStored)))
      ensures samplesStored == old(samplesStored) + stored
      ensures sumSquaredReturns == old(sumSquaredReturns) + ReturnSum(squares, old(samplesStored), samplesStored)
      ensures processedThrough == if stored == 0 then old(processedThrough) else params.SampleTime(samplesStored - 1)
    {
      stored := 0;
      while samplesStored < available && stored < maxSamples
        invariant samplesStored == old(samplesStored) + stored
        invariant stored <= maxSamples && (stored > 0 ==> samplesStored <= available)
        invariant sumSquaredReturns == old(sumSquaredReturns) + ReturnSum(squares, old(samplesStored), samplesStored)
        invariant processedThrough
          == if stored == 0 then old(processedThrough) else params.SampleTime(samplesStored - 1)
        decreases maxSamples - stored
      {
        var i := samplesStored;
        sumSquaredReturns := sumSquaredReturns + squares(i);
        samplesStored := samplesStored + 1;
        processedThrough := params.SampleTime(i);
        stored := stored + 1;
      }
    }

    method Finalize(now: nat) returns (r: Result<Option<Fill>, Error>)
      requires Sound()
      modifies this, vault`locked
      ensures Follows(old(View()).Finalize(old(vault.View()), now), r,
                      old(View()), old(vault.View()), View(), vault.View())
    {
      hide Annualize, MaxLiability, PayoutPerUnit, FinalLiability;
      if now < params.expiry { return Err(NotExpired); }
      if samplesStored < View().TotalSamples() { return Err(IncompleteWindow); }
      if finalized { return Err(AlreadyFinalized); }
      var variance := Annualize(sumSquaredReturns, params.expiry - params.start);
      FinalWithinMax(outstandingUnits, variance, params.capVariance, params.unitNotional);
      finalized := true;
      finalVariance := variance;
      payoutPerUnit := PayoutPerUnit(finalVariance, params.capVariance, params.unitNotional);
      var newLiability := FinalLiability(outstandingUnits, payoutPerUnit);
      var released: int := lockedLiability as int - newLiability;
      lockedLiability := newLiability;
      if released > 0 {
        var unlocked := vault.DecreaseLocked(released);
        assert unlocked == Pass;
      }
      return Ok(None);
    }

    /** Prices a purchase: the inverse of the premium, then every clamp in order, then the size that fills. */
    method PriceIssue(now: nat, actor: string, amountIn: nat) returns (filled: Option<Fill>)
      requires View().Priceable() && vault.Free() >= 0
      ensures filled == View().IssueFill(vault.Free(), now, actor, amountIn)
    {
      var q := View().QuoteAt(now);
      var units := IssueUnitsFor(q.askVariance, q.askSlope, params.unitNotional, amountIn);
      var requested := units;
      units := Min(units, unitsAvailable);
      units := Min(units, IssueUnitsToCap(q.askVariance, q.askSlope, params.capVariance));
      units := Min(units, IssueUnitsToCollateral(outstandingUnits, lockedLiability, vault.Free(),
                                                 params.unitNotional, params.capVariance));
      if units == 0 { return None; }
      var premium := IssuePremium(q.askVariance, q.askSlope, params.unitNotional, units);
      if premium == 0 { return None; }
      return Some(Fill(now, IssueLeg, actor, units, premium, units < requested));
    }

    /** Buys for `amountIn`: the reservation first, from the aggregate position, then the premium. */
    method Issue(now: nat, actor: string, amountIn: nat) returns (r: Result<Option<Fill>, Error>)
      requires Sound()
      modifies this, vault`locked, vault`balance
      ensures old(View()).Priceable()
      ensures Follows(old(View()).Issue(old(vault.View()), now, actor, amountIn), r,
                      old(View()), old(vault.View()), View(), vault.View())
    {
      hide SeriesState.IssueFill, SeriesState.Reserve, SeriesState.SkewAt, SeriesState.IsCurrent, Floor;
      InvPriceable(View());
      if !View().IssuanceOpen(now) { return Ok(None); }
      if !View().IsCurrent(now) { return Err(CheckpointsStale); }
      var filled := PriceIssue(now, actor, amountIn);
      if filled.None? { return Ok(None); }
      var fill := filled.value;
      IssueFillFits(View(), vault.View(), now, actor, amountIn);

      var newLiability := View().Reserve(outstandingUnits + fill.units);
      var reserved := vault.IncreaseLocked(newLiability - lockedLiability as int);
      assert reserved == Pass;
      RecordIssue(fill);
      var credited := vault.Credit(fill.quote);
      assert credited == Pass;
      return Ok(filled);
    }

    /** Decays the skew to `t` and adds a fill's impact to it. */
    method MoveSkew(t: nat, impact: int)
      modifies this`skew, this`lastSkewTs
      ensures View() == old(View()).(skew := old(View()).SkewAt(t) + impact, lastSkewTs := t)
    {
      skew, lastSkewTs := View().SkewAt(t) + impact, t;
    }

    method RecordIssue(fill: Fill)
      requires fill.units <= unitsAvailable
      modifies this
      ensures View() == old(View()).Bought(fill)
    {
      hide SeriesState.Reserve, SeriesState.SkewAt, Floor;
      var newLiability := View().Reserve(outstandingUnits + fill.units);
      MoveSkew(fill.t, Floor(params.impactPerUnit * fill.units, WAD));
      lockedLiability := newLiability;
      outstandingUnits := outstandingUnits + fill.units;
      unitsAvailable := unitsAvailable - fill.units;
      premiumTaken := premiumTaken + fill.quote;
      fills := fills + [fill];
    }

    /** Prices a sale at the bid, clamped by the reservation it releases and by the balance. */
    method PriceExit(now: nat, actor: string, unitsRequested: nat) returns (filled: Option<Fill>)
      requires View().Priceable()
      ensures View().ExitFill(vault.balance, now, actor, unitsRequested) == Ok(filled)
    {
      var q := View().QuoteAt(now);
      var units: nat := Min(unitsRequested, outstandingUnits);
      units := Min(units, ExitUnitsToZeroBid(q.bidVariance, q.bidSlope));
      if units == 0 { return None; }
      ZeroBidClampFits(q.bidVariance, q.bidSlope, units);
      var amountOut: int := ExitProceeds(q.bidVariance, q.bidSlope, params.unitNotional, units);
      var released: int := lockedLiability as int - View().Reserve(outstandingUnits - units);
      if amountOut > released { amountOut := released; }
      if amountOut > vault.balance { amountOut := vault.balance; }
      if amountOut <= 0 { return None; }
      return Some(Fill(now, ExitLeg, actor, units, amountOut, units < unitsRequested));
    }

    /** Sells `unitsRequested` back at the bid, paid out of the reservation the burn releases. */
    method Exit(now: nat, actor: string, unitsRequested: nat) returns (r: Result<Option<Fill>, Error>)
      requires Sound()
      modifies this, vault`locked, vault`balance
      ensures old(View()).Priceable()
      ensures Follows(old(View()).Exit(old(vault.View()), now, actor, unitsRequested), r,
                      old(View()), old(vault.View()), View(), vault.View())
    {
      InvPriceable(View());
      if !View().ExitOpen(now) { return Ok(None); }
      if !View().IsCurrent(now) { return Err(CheckpointsStale); }
      var filled := PriceExit(now, actor, unitsRequested);
      if filled.None? { return Ok(None); }
      var fill := filled.value;
      ExitFillFits(View(), vault.View(), now, actor, unitsRequested);

      var released: int := lockedLiability as int - View().Reserve(outstandingUnits - fill.units);
      RecordExit(fill);
      var unlocked := vault.DecreaseLocked(released);
      assert unlocked == Pass;
      var debited := vault.Debit(fill.quote);
      assert debited == Pass;
      return Ok(filled);
    }

    method RecordExit(fill: Fill)
      requires fill.units <= outstandingUnits
      modifies this
      ensures View() == old(View()).SoldBack(fill)
    {
      hide SeriesState.Reserve, SeriesState.SkewAt, Floor;
      var newLiability := View().Reserve(outstandingUnits - fill.units);
      MoveSkew(fill.t, -(Floor(params.impactPerUnit * fill.units, WAD) as int));
      lockedLiability := newLiability;
      outstandingUnits := outstandingUnits - fill.units;
      exitPaid := exitPaid + fill.quote;
      fills := fills + [fill];
    }

    /** Prices a redemption at the fixed payout, under the same two clamps. */
    method PriceSettle(now: nat, actor: string, unitsRequested: nat) returns (filled: Option<Fill>)
      ensures filled == View().SettleFill(vault.balance, now, actor, unitsRequested)
    {
      var units: nat := Min(unitsRequested, outstandingUnits);
      if units == 0 { return None; }
      var amountOut: int := SettleProceeds(units, payoutPerUnit);
      var released: int := lockedLiability as int - FinalLiability(outstandingUnits - units, payoutPerUnit);
      if amountOut > released { amountOut := released; }
      if amountOut > vault.balance { amountOut := vault.balance; }
      if amountOut <= 0 { return None; }
      return Some(Fill(now, SettleLeg, actor, units, amountOut, units < unitsRequested));
    }

    /** Redeems at the fixed payout. */
    method Settle(now: nat, actor: string, unitsRequested: nat) returns (r: Result<Option<Fill>, Error>)
      requires Sound()
      modifies this, vault`locked, vault`balance
      ensures Follows(old(View()).Settle(old(vault.View()), now, actor, unitsRequested), r,
                      old(View()), old(vault.View()), View(), vault.View())
    {
      hide SeriesState.SettleFill, FinalLiability, SettleProceeds, SeriesInv;
      if !finalized { return Err(NotFinalized); }
      if payoutPerUnit == 0 { return Ok(None); }
      var filled := PriceSettle(now, actor, unitsRequested);
      if filled.None? { return Ok(None); }
      var fill := filled.value;
      SettleFillIs(View(), vault.View(), now, actor, unitsRequested);

      var released: int := lockedLiability as int - FinalLiability(outstandingUnits - fill.units, payoutPerUnit);
      RecordSettle(fill);
      var unlocked := vault.DecreaseLocked(released);
      assert unlocked == Pass;
      var debited := vault.Debit(fill.quote);
      assert debited == Pass;
      return Ok(filled);
    }

    method RecordSettle(fill: Fill)
      requires fill.units <= outstandingUnits
      modifies this
      ensures View() == old(View()).Redeemed(fill)
    {
      outstandingUnits := outstandingUnits - fill.units;
      lockedLiability := FinalLiability(outstandingUnits, payoutPerUnit);
      settlePaid := settlePaid + fill.quote;
      fills := fills + [fill];
    }

    method BurnWorthless(units: nat) returns (r: Result<Option<Fill>, Error>)
      requires Sound()
      modifies this, vault`locked
      ensures Follows(old(View()).BurnWorthless(old(vault.View()), units), r,
                      old(View()), old(vault.View()), View(), vault.View())
    {
      InvPriceable(View());
      BurnKeeps(View(), vault.View(), units);
      if !finalized || payoutPerUnit != 0 { return Err(PayoutNotZero); }
      var u: nat := Min(units, outstandingUnits);
      if u == 0 { return Ok(None); }
      outstandingUnits := outstandingUnits - u;
      // The vault call for a positive remainder is never reached: a worthless series has nothing reserved.
      assert lockedLiability == 0;
      return Ok(None);
    }

    method StopIssuance()
      requires Sound()
      modifies this`issuanceStopped, this`unitsAvailable
      ensures View() == old(View()).StopIssuance()
    {
      InvPriceable(View());
      StopKeeps(View());
      issuanceStopped, unitsAvailable := true, 0;
    }

    method Close() returns (r: Result<Option<Fill>, Error>)
      requires Sound()
      modifies this, vault`locked
      ensures Follows(old(View()).Close(old(vault.View())), r, old(View()), old(vault.View()), View(), vault.View())
    {
      InvPriceable(View());
      CloseKeeps(View(), vault.View());
      if outstandingUnits > 0 { return Err(ClaimsOutstanding); }
      unitsAvailable := 0;
      // The vault call for a positive remainder is never reached: with no claims nothing is reserved.
      assert lockedLiability == 0;
      return Ok(None);
    }
  }

  // ---------------------------------------------------------------- many series on one vault

  ghost function Views(book: seq<Series>): (views: seq<SeriesState>)
    reads book
    ensures |views| == |book| && forall i | 0 <= i < |book| :: views[i] == book[i].View()
  {
    if book == [] then [] else [book[0].View()] + Views(book[1..])
  }

  ghost function Ledger(vault: Vault, book: seq<Series>): Book
    reads vault, book
  {
    Book(vault.View(), Views(book))
  }

  /** The series are distinct objects sharing the vault, and together they keep the book's invariant. */
  ghost predicate Valid(vault: Vault, book: seq<Series>)
    reads vault, book
  {
    Sharing(vault, book) && BookInv(Ledger(vault, book))
  }

  ghost predicate Sharing(vault: Vault, book: seq<Series>) {
    && (forall i | 0 <= i < |book| :: book[i].vault == vault)
    && (forall i, j | 0 <= i < j < |book| :: book[i] != book[j])
  }

  /** One operation on one series object. */
  method TradeOn(s: Series, op: Op) returns (r: Result<Option<Fill>, Error>)
    requires s.Sound() && OnOneSeries(op)
    modifies s, s.vault
    ensures SeriesInv(old(s.View())) && old(s.vault.View()).Free() >= 0
    ensures Follows(TradeOf(old(s.View()), old(s.vault.View()), op), r,
                    old(s.View()), old(s.vault.View()), s.View(), s.vault.View())
  {
    match op
    case Checkpoint(_, now, squares, maxSamples) =>
      var stored := s.Checkpoint(now, squares, maxSamples);
      r := Ok(None);
    case Finalize(_, now) => r := s.Finalize(now);
    case Issue(_, now, actor, amountIn) => r := s.Issue(now, actor, amountIn);
    case Exit(_, now, actor, units) => r := s.Exit(now, actor, units);
    case Settle(_, now, actor, units) => r := s.Settle(now, actor, units);
    case BurnWorthless(_, units) => r := s.BurnWorthless(units);
    case StopIssuance(_) =>
      s.StopIssuance();
      r := Ok(None);
    case Close(_) => r := s.Close();
  }

  /** One operation on a vault and the series sharing it: the book of the objects moves as the book of values does,
      and nothing but a stated refusal is ever raised. */
  method Perform(vault: Vault, book: seq<Series>, op: Op) returns (after: seq<Series>, r: Outcome<Error>)
    requires Valid(vault, book)
    modifies vault, book
    ensures Valid(vault, after)
    ensures Ledger(vault, after) == Next(old(Ledger(vault, book)), op)
    ensures r.Fail? ==> !AccountingError(r.error)
    ensures book <= after && forall i | |book| <= i < |after| :: fresh(after[i])
  {
    ghost var b := Ledger(vault, book);
    if OnOneSeries(op) {
      after, r := book, Pass;
      if op.k < |book| {
        var filled := PerformOnSeries(vault, book, book[op.k], op.k, op, b);
        r := if filled.Ok? then Pass else Fail(filled.error);
      }
    } else {
      after, r := PerformOnVault(vault, book, op, b);
    }
  }

  method PerformOnVault(vault: Vault, book: seq<Series>, op: Op, ghost b: Book)
    returns (after: seq<Series>, r: Outcome<Error>)
    requires Sharing(vault, book) && b == Ledger(vault, book) && BookInv(b) && !OnOneSeries(op)
    modifies vault
    ensures Sharing(vault, after) && Ledger(vault, after) == Next(b, op)
    ensures r.Fail? ==> !AccountingError(r.error)
    ensures book <= after && forall i | |book| <= i < |after| :: fresh(after[i])
  {
    NextOnVault(b, op);
    if op.Open? {
      r := Pass;
      after := PerformOpen(vault, book, op.params);
    } else {
      after := book;
      r := PerformTransfer(vault, book, op);
    }
  }

  method PerformTransfer(vault: Vault, book: seq<Series>, op: Op) returns (r: Outcome<Error>)
    requires Sharing(vault, book) && vault.View().Free() >= 0 && (op.Deposit? || op.WithdrawFree?)
    modifies vault
    ensures r.Fail? ==> r.error == ExceedsFree
    ensures Ledger(vault, book)
         == old(Ledger(vault, book)).(
              vault := if r.Fail? then old(vault.View())
                       else if op.Deposit? then
                         old(vault.View()).(
                           balance := old(vault.balance) + op.amount, deposited := old(vault.deposited) + op.amount)
                       else
                         old(vault.View()).(
                           balance := old(vault.balance) - op.amount, withdrawn := old(vault.withdrawn) + op.amount))
    ensures r.Fail? <==> op.WithdrawFree? && op.amount > old(vault.Free())
  {
    if op.Deposit? {
      r := vault.Deposit(op.amount);
    } else {
      r := vault.WithdrawFree(op.amount);
    }
    ViewsStay(book);
  }

  method PerformOpen(vault: Vault, book: seq<Series>, params: Params) returns (after: seq<Series>)
    requires Sharing(vault, book)
    modifies vault
    ensures Sharing(vault, after)
    ensures var b := old(Ledger(vault, book));
            Ledger(vault, after) == if params.Valid() then b.(series := b.series + [Opened(params)]) else b
    ensures book <= after && forall i | |book| <= i < |after| :: fresh(after[i])
  {
    after := book;
    if params.Valid() {
      var s := new Series(params, vault);
      after := book + [s];
      ViewsStay(book);
      ViewsAppend(book, s);
    }
  }

  lemma ViewsAppend(book: seq<Series>, s: Series)
    ensures Views(book + [s]) == Views(book) + [s.View()]
  {
  }

  twostate lemma ViewsStay(book: seq<Series>)
    requires forall i | 0 <= i < |book| :: book[i].View() == old(book[i].View())
    ensures Views(book) == old(Views(book))
  {
  }

  lemma NextOnVault(b: Book, op: Op)
    requires BookInv(b) && !OnOneSeries(op)
    ensures Next(b, op)
         == match op
            case Deposit(amount) =>
              b.(vault := b.vault.(balance := b.vault.balance + amount, deposited := b.vault.deposited + amount))
            case WithdrawFree(amount) =>
              if amount > b.vault.Free() then b
              else b.(vault := b.vault.(balance := b.vault.balance - amount, withdrawn := b.vault.withdrawn + amount))
            case Open(params) => if params.Valid() then b.(series := b.series + [Opened(params)]) else b
            case _ => b
  {
  }

  /** The book after an operation on one series whose outcome is known. */
  lemma NextFrom(b: Book, op: Op, r: Result<Option<Fill>, Error>, s1: SeriesState, v1: VaultState)
    requires BookInv(b) && OnOneSeries(op) && op.k < |b.series|
    requires Follows(TradeOf(b.series[op.k], b.vault, op), r, b.series[op.k], b.vault, s1, v1)
    ensures Next(b, op) == Book(v1, b.series[op.k := s1])
    ensures r.Err? ==> !AccountingError(r.error)
  {
    StepKeeps(b, op);
  }

  /** One operation on one series object, seen as a step of the book it belongs to. */
  method TradeOnBook(s: Series, op: Op, ghost b: Book) returns (r: Result<Option<Fill>, Error>)
    requires BookInv(b) && OnOneSeries(op) && op.k < |b.series|
    requires s.View() == b.series[op.k] && s.vault.View() == b.vault
    modifies s, s.vault
    ensures Next(b, op) == Book(s.vault.View(), b.series[op.k := s.View()])
    ensures r.Err? ==> !AccountingError(r.error)
  {
    BookBacks(b, op.k);
    r := TradeOn(s, op);
    NextFrom(b, op, r, s.View(), s.vault.View());
  }

  method PerformOnSeries(vault: Vault, book: seq<Series>, s: Series, k: nat, op: Op, ghost b: Book)
    returns (r: Result<Option<Fill>, Error>)
    requires Sharing(vault, book) && b == Ledger(vault, book) && BookInv(b)
    requires OnOneSeries(op) && k < |book| && op.k == k && book[k] == s
    modifies vault, s
    ensures Ledger(vault, book) == Next(b, op)
    ensures r.Err? ==> !AccountingError(r.error)
  {
    r := TradeOnBook(s, op, b);
  }

  /** A whole run over objects: its book ends where the run of the same operations on values does. */
  method PerformAll(vault: Vault, book: seq<Series>, ops: seq<Op>, ghost b: Book) returns (after: seq<Series>)
    requires Sharing(vault, book) && b == Ledger(vault, book) && BookInv(b)
    modifies vault, book
    ensures Sharing(vault, after) && Ledger(vault, after) == Run(b, ops)
    ensures book <= after && forall i | |book| <= i < |after| :: fresh(after[i])
    decreases |ops|
  {
    hide Ledger, BookInv, Next;
    if ops == [] {
      after := book;
    } else {
      var mid, outcome := Perform(vault, book, ops[0]);
      after := PerformAll(vault, mid, ops[1..], Next(b, ops[0]));
    }
  }
}
