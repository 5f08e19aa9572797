/** The accumulator under any batching: what a schedule of bounded checkpoint calls stores, how many calls a
    window needs, and why the final variance does not depend on who called when. */
module CheckpointBatching {
  import opened Arith
  import opened Pricing
  import opened Market
  import opened Solvency
  import opened MarketRuns

  // ---------------------------------------------------------------- one schedule on one series

  datatype Call = Call(now: nat, maxSamples: nat)

  function Calls(s: SeriesState, squares: SquaredReturns, schedule: seq<Call>): SeriesState
    requires s.params.Valid() && s.samplesStored >= 1
    decreases schedule
  {
    if schedule == [] then s
    else Calls(s.Checkpoint(schedule[0].now, squares, schedule[0].maxSamples), squares, schedule[1..])
  }

  /** The sum covers exactly the stored samples, and the cursor sits on the last of them. */
  predicate Accumulates(s: SeriesState, squares: SquaredReturns) {
    && s.params.Valid()
    && s.samplesStored >= 1
    && s.sumSquaredReturns == ReturnSum(squares, 1, s.samplesStored)
    && s.processedThrough == s.params.SampleTime(s.samplesStored - 1)
  }

  lemma {:induction false} ReturnSumSplits(squares: SquaredReturns, lo: nat, mid: nat, hi: nat)
    requires lo <= mid <= hi
    ensures ReturnSum(squares, lo, hi) == ReturnSum(squares, lo, mid) + ReturnSum(squares, mid, hi)
    decreases hi
  {
    if mid < hi {
      ReturnSumSplits(squares, lo, mid, hi - 1);
    }
  }

  lemma CheckpointAccumulates(s: SeriesState, now: nat, squares: SquaredReturns, maxSamples: nat)
    requires Accumulates(s, squares)
    ensures Accumulates(s.Checkpoint(now, squares, maxSamples), squares)
  {
    ReturnSumSplits(squares, 1, s.samplesStored, s.samplesStored + s.Storable(now, maxSamples));
  }

  /** Whatever the times and budgets of the calls, the sum is over exactly the samples stored. */
  lemma {:induction false} AnyScheduleAccumulates(s: SeriesState, squares: SquaredReturns, schedule: seq<Call>)
    requires Accumulates(s, squares)
    ensures Accumulates(Calls(s, squares, schedule), squares)
    decreases schedule
  {
    if schedule == [] {
    } else {
      CheckpointAccumulates(s, schedule[0].now, squares, schedule[0].maxSamples);
      AnyScheduleAccumulates(s.Checkpoint(schedule[0].now, squares, schedule[0].maxSamples), squares, schedule[1..]);
    }
  }

  // ---------------------------------------------------------------- how many calls

  function Repeated(now: nat, maxSamples: nat, n: nat): seq<Call> {
    seq(n, _ => Call(now, maxSamples))
  }

  lemma OneCallFewer(due: nat, maxSamples: nat)
    requires maxSamples > 0 && due > 0
    ensures Ceil(Max(0, due - maxSamples), maxSamples) == Ceil(due, maxSamples) - 1
  {
    var c := Ceil(due, maxSamples);
    CeilIs(due, maxSamples, 0);
    CeilIs(Max(0, due - maxSamples), maxSamples, c - 1);
    CeilIs(Max(0, due - maxSamples), maxSamples, c - 2);
    CeilIs(due, maxSamples, c - 1);
    assert (c - 1) * maxSamples == c * maxSamples - maxSamples;
    assert (c - 2) * maxSamples == c * maxSamples - 2 * maxSamples;
  }

  /** At a fixed time, `n` calls bring the window current exactly when `n` is at least the number the series asks
      for. */
  lemma {:induction false} CallsNeededIsExact(
    s: SeriesState, squares: SquaredReturns, now: nat, maxSamples: nat, n: nat)
    requires s.params.Valid() && s.samplesStored >= 1 && maxSamples > 0
    ensures Calls(s, squares, Repeated(now, maxSamples, n)).params == s.params
    ensures Calls(s, squares, Repeated(now, maxSamples, n)).IsCurrent(now)
        <==> n >= s.CheckpointCallsNeeded(now, maxSamples)
    decreases n
  {
    hide Floor, Ceil, ReturnSum;
    var due: nat := Max(0, s.AvailableSamples(now) - s.samplesStored);
    if n == 0 {
      CeilIs(due, maxSamples, 0);
    } else {
      var next := s.Checkpoint(now, squares, maxSamples);
      assert Repeated(now, maxSamples, n)[1..] == Repeated(now, maxSamples, n - 1);
      CallsNeededIsExact(next, squares, now, maxSamples, n - 1);
      assert next.CheckpointCallsNeeded(now, maxSamples) == Ceil(Max(0, due - maxSamples), maxSamples);
      if due > 0 { OneCallFewer(due, maxSamples); } else { CeilIs(0, maxSamples, 0); }
    }
  }

  // ---------------------------------------------------------------- inside a run of the market

  /** Every checkpoint of series `k` in the run reads the same price path. */
  ghost predicate OnePath(ops: seq<Op>, k: nat, squares: SquaredReturns) {
    forall i | 0 <= i < |ops| :: FollowsPath(ops[i], k, squares)
  }

  ghost predicate FollowsPath(op: Op, k: nat, squares: SquaredReturns) {
    op.Checkpoint? && op.k == k ==> op.squares == squares
  }

  lemma OnlyCheckpointsMoveTheOracle(s: SeriesState, v: VaultState, op: Op)
    requires SeriesInv(s) && v.Free() >= 0 && !op.Checkpoint? && TradeOf(s, v, op).Ok?
    ensures var after := TradeOf(s, v, op).value.series;
            && after.params == s.params
            && after.samplesStored == s.samplesStored
            && after.sumSquaredReturns == s.sumSquaredReturns
            && after.processedThrough == s.processedThrough
  {
  }

  lemma NextAccumulates(b: Book, op: Op, k: nat, squares: SquaredReturns)
    requires BookInv(b) && FollowsPath(op, k, squares)
    requires k < |b.series| ==> Accumulates(b.series[k], squares)
    ensures k < |Next(b, op).series| ==> Accumulates(Next(b, op).series[k], squares)
  {
    if k < |b.series| {
      NextOnSeries(b, op, k);
      if OnSeriesOp(op, k) { SeriesAccumulates(b.series[k], b.vault, op, squares); }
    } else if k < |Next(b, op).series| {
      NextOpens(b, op, k);
    }
  }

  lemma SeriesAccumulates(s: SeriesState, v: VaultState, op: Op, squares: SquaredReturns)
    requires SeriesInv(s) && v.Free() >= 0 && Accumulates(s, squares)
    requires op.Checkpoint? ==> op.squares == squares
    ensures TradeOf(s, v, op).Ok? ==> Accumulates(TradeOf(s, v, op).value.series, squares)
  {
    if op.Checkpoint? {
      CheckpointAccumulates(s, op.now, squares, op.maxSamples);
    } else if TradeOf(s, v, op).Ok? {
      OnlyCheckpointsMoveTheOracle(s, v, op);
    }
  }

  lemma {:induction false} RunAccumulates(b: Book, ops: seq<Op>, k: nat, squares: SquaredReturns)
    requires BookInv(b) && OnePath(ops, k, squares)
    requires k < |b.series| ==> Accumulates(b.series[k], squares)
    ensures k < |Run(b, ops).series| ==> Accumulates(Run(b, ops).series[k], squares)
    decreases ops
  {
    if ops == [] {
    } else {
      assert FollowsPath(ops[0], k, squares);
      NextAccumulates(b, ops[0], k, squares);
      RunAccumulates(Next(b, ops[0]), ops[1..], k, squares);
    }
  }

  /** In any run, whatever the checkpoint schedule and the trading around it, a finalized series has the one
      variance its price path and terms give. */
  lemma FinalVarianceIsScheduleFree(ops: seq<Op>, k: nat, squares: SquaredReturns)
    requires OnePath(ops, k, squares)
    ensures BookInv(Genesis())
    ensures var b := Run(Genesis(), ops);
            k < |b.series| && b.series[k].finalized ==>
              var s := b.series[k];
              && s.params.Valid()
              && s.finalVariance == Annualize(ReturnSum(squares, 1, s.TotalSamples()), s.params.expiry - s.params.start)
              && s.payoutPerUnit == PayoutPerUnit(s.finalVariance, s.params.capVariance, s.params.unitNotional)
  {
    hide Annualize, PayoutPerUnit, ReturnSum, LedgerInv, BackingInv, Run;
    RunAccumulates(Genesis(), ops, k, squares);
  }
}
