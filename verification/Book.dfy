/** Runs of a whole market: any number of series on one vault, any interleaving of operations, with deposits
    and free withdrawals between them. */
module MarketRuns {
  import opened Outcomes
  import opened Market
  import opened Solvency

  datatype Book = Book(vault: VaultState, series: seq<SeriesState>)

  datatype Op =
    | Deposit(amount: nat)
    | WithdrawFree(amount: nat)
    | Open(params: Params)
    | Checkpoint(k: nat, now: nat, squares: SquaredReturns, maxSamples: nat)
    | Finalize(k: nat, now: nat)
    | Issue(k: nat, now: nat, actor: string, amountIn: nat)
    | Exit(k: nat, now: nat, actor: string, units: nat)
    | Settle(k: nat, now: nat, actor: string, units: nat)
    | BurnWorthless(k: nat, units: nat)
    | StopIssuance(k: nat)
    | Close(k: nat)

  function Genesis(): Book {
    Book(VaultState(0, 0, 0, 0), [])
  }

  // ---------------------------------------------------------------- sums over the series of one vault

  function SumLocked(series: seq<SeriesState>): nat {
    if series == [] then 0 else series[0].lockedLiability + SumLocked(series[1..])
  }

  function SumNet(series: seq<SeriesState>): int {
    if series == [] then 0 else Net(series[0]) + SumNet(series[1..])
  }

  function SumSoldAtCap(series: seq<SeriesState>): nat {
    if series == [] then 0 else SoldAtCap(series[0].fills, series[0].params) + SumSoldAtCap(series[1..])
  }

  function SumPremium(series: seq<SeriesState>): nat {
    if series == [] then 0 else series[0].premiumTaken + SumPremium(series[1..])
  }

  lemma {:induction false} SumsUpdate(series: seq<SeriesState>, k: nat, s: SeriesState)
    requires k < |series|
    ensures SumLocked(series[k := s]) == SumLocked(series) - series[k].lockedLiability + s.lockedLiability
    ensures SumNet(series[k := s]) == SumNet(series) - Net(series[k]) + Net(s)
    ensures series[k].lockedLiability <= SumLocked(series)
  {
    if k == 0 {
      assert series[0 := s][1..] == series[1..];
    } else {
      assert series[k := s][1..] == series[1..][k - 1 := s];
      SumsUpdate(series[1..], k - 1, s);
    }
  }

  lemma {:induction false} SumsAppend(series: seq<SeriesState>, s: SeriesState)
    ensures SumLocked(series + [s]) == SumLocked(series) + s.lockedLiability
    ensures SumNet(series + [s]) == SumNet(series) + Net(s)
  {
    if series == [] {
      assert [s][1..] == [];
    } else {
      assert (series + [s])[1..] == series[1..] + [s];
      SumsAppend(series[1..], s);
    }
  }

  // ---------------------------------------------------------------- the invariant of a book

  /** The lock is the sum of the reservations, the balance covers it, and every unit of money is accounted for. */
  predicate BookInv(b: Book) {
    && (forall k | 0 <= k < |b.series| :: SeriesInv(b.series[k]))
    && b.vault.locked == SumLocked(b.series)
    && b.vault.locked <= b.vault.balance
    && b.vault.balance == b.vault.deposited - b.vault.withdrawn + SumNet(b.series)
  }

  function OnSeries(b: Book, k: nat, r: Result<Trade, Error>): Result<Book, Error>
    requires k < |b.series|
  {
    var t :- r;
    Ok(Book(t.vault, b.series[k := t.series]))
  }

  function OnVault(b: Book, r: Result<VaultState, Error>): Result<Book, Error> {
    var v :- r;
    Ok(b.(vault := v))
  }

  /** Whether the operation names a series that is there, or terms a series can be opened on. */
  predicate Addressed(b: Book, op: Op) {
    match op
    case Deposit(_) => true
    case WithdrawFree(_) => true
    case Open(params) => params.Valid()
    case _ => op.k < |b.series|
  }

  /** One operation on one series. */
  ghost function TradeOf(s: SeriesState, v: VaultState, op: Op): Result<Trade, Error>
    requires SeriesInv(s) && v.Free() >= 0
  {
    InvPriceable(s);
    match op
    case Checkpoint(_, now, squares, maxSamples) => Ok(Trade(s.Checkpoint(now, squares, maxSamples), v, None))
    case Finalize(_, now) => s.Finalize(v, now)
    case Issue(_, now, actor, amountIn) => s.Issue(v, now, actor, amountIn)
    case Exit(_, now, actor, units) => s.Exit(v, now, actor, units)
    case Settle(_, now, actor, units) => s.Settle(v, now, actor, units)
    case BurnWorthless(_, units) => s.BurnWorthless(v, units)
    case StopIssuance(_) => Ok(Trade(s.StopIssuance(), v, None))
    case Close(_) => s.Close(v)
    case _ => Ok(Trade(s, v, None))
  }

  ghost function Step(b: Book, op: Op): Result<Book, Error>
    requires BookInv(b) && Addressed(b, op)
  {
    match op
    case Deposit(amount) => OnVault(b, b.vault.Deposit(amount))
    case WithdrawFree(amount) => OnVault(b, b.vault.WithdrawFree(amount))
    case Open(params) =>
      var v :- b.vault.IncreaseLocked(0);
      Ok(Book(v, b.series + [Opened(params)]))
    case _ => OnSeries(b, op.k, TradeOf(b.series[op.k], b.vault, op))
  }

  lemma TradeKeeps(s: SeriesState, v: VaultState, op: Op)
    requires SeriesInv(s) && Backs(v, s)
    ensures var r := TradeOf(s, v, op);
            if r.Ok? then Accounted(s, v, r.value) else !AccountingError(r.error)
  {
    hide SeriesInv, SeriesState.Issue, SeriesState.Exit, SeriesState.Settle, SeriesState.Finalize,
         SeriesState.BurnWorthless, SeriesState.Close;
    if op.Issue? || op.Exit? || op.Settle? {
      LegKeeps(s, v, op);
    } else {
      match op
      case Checkpoint(_, now, squares, maxSamples) => CheckpointKeeps(s, now, squares, maxSamples);
      case Finalize(_, now) => FinalizeKeeps(s, v, now);
      case BurnWorthless(_, units) => BurnKeeps(s, v, units);
      case StopIssuance(_) => StopKeeps(s);
      case Close(_) => CloseKeeps(s, v);
      case _ =>
    }
  }

  lemma LegKeeps(s: SeriesState, v: VaultState, op: Op)
    requires SeriesInv(s) && Backs(v, s) && (op.Issue? || op.Exit? || op.Settle?)
    ensures var r := TradeOf(s, v, op);
            if r.Ok? then Accounted(s, v, r.value) else !AccountingError(r.error)
  {
    match op
    case Issue(_, now, actor, amountIn) => IssueKeeps(s, v, now, actor, amountIn);
    case Exit(_, now, actor, units) => ExitKeeps(s, v, now, actor, units);
    case Settle(_, now, actor, units) => SettleKeeps(s, v, now, actor, units);
  }

  /** An accounted operation on one series keeps the whole book. */
  lemma AccountedKeepsBook(b: Book, k: nat, t: Trade)
    requires BookInv(b) && k < |b.series| && Accounted(b.series[k], b.vault, t)
    ensures BookInv(Book(t.vault, b.series[k := t.series]))
  {
    SumsUpdate(b.series, k, t.series);
  }

  lemma OnSeriesKeeps(b: Book, k: nat, r: Result<Trade, Error>)
    requires BookInv(b) && k < |b.series|
    requires if r.Ok? then Accounted(b.series[k], b.vault, r.value) else !AccountingError(r.error)
    ensures var after := OnSeries(b, k, r);
            if after.Ok? then BookInv(after.value) else !AccountingError(after.error)
  {
    if r.Ok? { AccountedKeepsBook(b, k, r.value); }
  }

  lemma BookBacks(b: Book, k: nat)
    requires BookInv(b) && k < |b.series|
    ensures Backs(b.vault, b.series[k])
  {
    SumsUpdate(b.series, k, b.series[k]);
  }

  /** Every operation either is refused for a stated reason, leaving the book as it was, or keeps the invariant:
      no accounting check ever fires. */
  lemma StepKeeps(b: Book, op: Op)
    requires BookInv(b) && Addressed(b, op)
    ensures Step(b, op).Err? ==> !AccountingError(Step(b, op).error)
    ensures Step(b, op).Ok? ==> BookInv(Step(b, op).value)
  {
    hide SeriesInv, Accounted;
    match op
    case Deposit(amount) =>
    case WithdrawFree(amount) =>
    case Open(params) =>
      OpenedInv(params);
      SumsAppend(b.series, Opened(params));
    case _ =>
      BookBacks(b, op.k);
      TradeKeeps(b.series[op.k], b.vault, op);
      OnSeriesKeeps(b, op.k, TradeOf(b.series[op.k], b.vault, op));
  }

  // ---------------------------------------------------------------- runs

  /** The book after an operation: a refused or misaddressed one leaves it as it was. */
  ghost function Next(b: Book, op: Op): (after: Book)
    requires BookInv(b)
    ensures BookInv(after)
  {
    if !Addressed(b, op) then b
    else
      StepKeeps(b, op);
      var r := Step(b, op);
      if r.Ok? then r.value else b
  }

  ghost function Run(b: Book, ops: seq<Op>): (after: Book)
    requires BookInv(b)
    ensures BookInv(after)
    decreases ops
  {
    if ops == [] then b else Run(Next(b, ops[0]), ops[1..])
  }

  predicate OnOneSeries(op: Op) {
    !op.Deposit? && !op.WithdrawFree? && !op.Open?
  }

  predicate OnSeriesOp(op: Op, k: nat) {
    OnOneSeries(op) && op.k == k
  }

  /** An operation changes one series at most: the one it names, and only if it is not refused. */
  lemma NextOnSeries(b: Book, op: Op, k: nat)
    requires BookInv(b) && k < |b.series|
    ensures Backs(b.vault, b.series[k])
    ensures |b.series| <= |Next(b, op).series|
    ensures Next(b, op).series[k]
         == if OnSeriesOp(op, k) && TradeOf(b.series[k], b.vault, op).Ok?
            then TradeOf(b.series[k], b.vault, op).value.series
            else b.series[k]
  {
    hide SeriesInv, TradeOf;
    BookBacks(b, k);
  }

  /** A series that an operation adds is a freshly opened one. */
  lemma NextOpens(b: Book, op: Op, k: nat)
    requires BookInv(b) && |b.series| <= k < |Next(b, op).series|
    ensures op.Open? && Next(b, op).series[k] == Opened(op.params)
  {
  }

  /** In every run from an empty vault, no operation ever raises an accounting error. */
  lemma EveryRunIsSolvent(before: seq<Op>, op: Op)
    ensures BookInv(Genesis())
    ensures var b := Run(Genesis(), before);
            && b.vault.locked <= b.vault.balance
            && (Addressed(b, op) && Step(b, op).Err? ==> !AccountingError(Step(b, op).error))
  {
    var b := Run(Genesis(), before);
    if Addressed(b, op) { StepKeeps(b, op); }
  }

  lemma {:induction false} RunSplits(b: Book, before: seq<Op>, after: seq<Op>)
    requires BookInv(b)
    ensures Run(b, before + after) == Run(Run(b, before), after)
    decreases before
  {
    if before == [] {
      assert [] + after == after;
    } else {
      assert (before + after)[1..] == before[1..] + after;
      RunSplits(Next(b, before[0]), before[1..], after);
    }
  }

  /** Money is conserved over every run, and payouts are bounded by the cap liabilities of the sizes sold: the
      writer can lose at most what the claims they sold were reserved at. */
  lemma EveryRunConservesMoney(ops: seq<Op>)
    ensures BookInv(Genesis())
    ensures var b := Run(Genesis(), ops);
            && b.vault.balance == b.vault.deposited - b.vault.withdrawn + SumNet(b.series)
            && b.vault.balance - b.vault.locked + SumSoldAtCap(b.series)
               >= b.vault.deposited - b.vault.withdrawn + SumPremium(b.series)
  {
    LossIsBounded(Run(Genesis(), ops).series);
  }

  lemma {:induction false} LossIsBounded(series: seq<SeriesState>)
    requires forall k | 0 <= k < |series| :: SeriesInv(series[k])
    ensures SumNet(series) - SumLocked(series) + SumSoldAtCap(series) >= SumPremium(series)
  {
    if series == [] {
    } else {
      LossIsBounded(series[1..]);
    }
  }

  /** Once no claim is outstanding anywhere, the whole balance is free. */
  lemma {:induction false} AllExtinguishedFreesEverything(series: seq<SeriesState>)
    requires forall k | 0 <= k < |series| :: SeriesInv(series[k]) && series[k].outstandingUnits == 0
    ensures SumLocked(series) == 0
  {
    if series == [] {
    } else {
      AllExtinguishedFreesEverything(series[1..]);
    }
  }
}
