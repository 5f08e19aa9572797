/** The indexer's replay: the market at any past moment, reconstructed from logged flows and checkpoints, and
    why it is the quote the live series gave at that moment. */
module Replay {
  import opened Arith
  import opened Pricing
  import opened Market
  import opened Solvency
  import opened MarketRuns

  /** Units sold (positive) or bought back (negative) at a moment. */
  datatype Flow = Flow(t: nat, unitsDelta: int)

  datatype CheckpointEvent = CheckpointEvent(t: nat, processedThrough: nat, sumSquaredReturns: nat)

  datatype MarketPoint = MarketPoint(
    t: nat, processedThrough: nat, realizedVariance: nat, marketVariance: nat, projectedVariance: nat,
    bidVariance: nat, askVariance: nat, bidPerUnit: nat, askPerUnit: nat, checkpointsFresh: bool)

  function SaturatingSub(a: nat, b: nat): nat {
    if a < b then 0 else a - b
  }

  // ---------------------------------------------------------------- the replay, as functions of the log

  /** The running skew and its timestamp after the flows at or before `t`, in log order. */
  function ReplayFlows(p: Params, flows: seq<Flow>, t: nat): (int, nat) {
    if flows == [] then (0, p.start)
    else
      var f, before := flows[|flows| - 1], ReplayFlows(p, flows[..|flows| - 1], t);
      if f.t > t then before
      else
        var decayed := DecaySkew(before.0, SaturatingSub(f.t, before.1), p.halfLife, p.decay);
        var magnitude := Floor(Abs(f.unitsDelta) * p.impactPerUnit, WAD);
        (if f.unitsDelta >= 0 then decayed + magnitude else decayed - magnitude, f.t)
  }

  function SkewReplayed(p: Params, flows: seq<Flow>, t: nat): int {
    var replayed := ReplayFlows(p, flows, t);
    DecaySkew(replayed.0, SaturatingSub(t, replayed.1), p.halfLife, p.decay)
  }

  /** The window covered and the sum accumulated by the last checkpoint at or before `t`. */
  function CheckpointReplayed(p: Params, checkpoints: seq<CheckpointEvent>, t: nat): (nat, nat) {
    if checkpoints == [] then (p.start, 0)
    else
      var c := checkpoints[|checkpoints| - 1];
      if c.t <= t then (c.processedThrough, c.sumSquaredReturns)
      else CheckpointReplayed(p, checkpoints[..|checkpoints| - 1], t)
  }

  function ForwardReplayed(p: Params, decayedSkew: int): nat {
    var v := p.anchorVariance + decayedSkew;
    if v < 0 then 0 else Min(v, p.capVariance)
  }

  function DueReplayed(p: Params, t: nat): nat
    requires p.Valid()
  {
    if t < p.start then p.start
    else p.start + ((Min(t, p.expiry) - p.start) / p.sampleInterval) * p.sampleInterval
  }

  function MarketReplayed(p: Params, flows: seq<Flow>, checkpoints: seq<CheckpointEvent>, t: nat): MarketPoint
    requires p.Valid()
  {
    var (through, sum) := CheckpointReplayed(p, checkpoints, t);
    var elapsed, remaining := SaturatingSub(through, p.start), SaturatingSub(p.expiry, through);
    var realized := Annualize(sum, elapsed);
    var forward := ForwardReplayed(p, SkewReplayed(p, flows, t));
    var projected := ProjectedVariance(realized, elapsed, forward, remaining);
    var bid := BidVariance(projected, p.halfSpreadBps, p.capVariance);
    var ask := AskVariance(projected, p.halfSpreadBps, p.capVariance);
    MarketPoint(t, through, realized, forward, projected, bid, ask,
                PerUnitPrice(p.unitNotional, bid), PerUnitPrice(p.unitNotional, ask), through >= DueReplayed(p, t))
  }

  // ---------------------------------------------------------------- the replay, as the indexer runs it

  method SkewAt(p: Params, flows: seq<Flow>, t: nat) returns (skew: int)
    ensures skew == SkewReplayed(p, flows, t)
  {
    skew := 0;
    var last := p.start;
    for i := 0 to |flows|
      invariant (skew, last) == ReplayFlows(p, flows[..i], t)
    {
      assert flows[..i + 1][..i] == flows[..i];
      var f := flows[i];
      if f.t <= t {
        skew := DecaySkew(skew, SaturatingSub(f.t, last), p.halfLife, p.decay);
        var magnitude := Floor(Abs(f.unitsDelta) * p.impactPerUnit, WAD);
        skew := if f.unitsDelta >= 0 then skew + magnitude else skew - magnitude;
        last := f.t;
      }
    }
    assert flows[..|flows|] == flows;
    skew := DecaySkew(skew, SaturatingSub(t, last), p.halfLife, p.decay);
  }

  method CheckpointAt(p: Params, checkpoints: seq<CheckpointEvent>, t: nat) returns (through: nat, sum: nat)
    ensures (through, sum) == CheckpointReplayed(p, checkpoints, t)
  {
    through, sum := p.start, 0;
    for i := 0 to |checkpoints|
      invariant (through, sum) == CheckpointReplayed(p, checkpoints[..i], t)
    {
      assert checkpoints[..i + 1][..i] == checkpoints[..i];
      if checkpoints[i].t <= t {
        through, sum := checkpoints[i].processedThrough, checkpoints[i].sumSquaredReturns;
      }
    }
    assert checkpoints[..|checkpoints|] == checkpoints;
  }

  method MarketAt(p: Params, flows: seq<Flow>, checkpoints: seq<CheckpointEvent>, t: nat) returns (m: MarketPoint)
    requires p.Valid()
    ensures m == MarketReplayed(p, flows, checkpoints, t)
    ensures forall s: SeriesState | s.params == p && s.Priceable() && SeriesInv(s) && FlowsOf(s.fills) == flows
                                    && Mirrors(s, checkpoints, t) ::
              SamePoint(m, s.QuoteAt(t), s, t)
  {
    forall s: SeriesState | s.params == p && s.Priceable() && SeriesInv(s) && FlowsOf(s.fills) == flows
                            && Mirrors(s, checkpoints, t)
      ensures SamePoint(MarketReplayed(p, flows, checkpoints, t), s.QuoteAt(t), s, t)
    {
      hide SamePoint, MarketReplayed, SeriesInv, SeriesState.QuoteAt;
      MirroredPoint(s, flows, checkpoints, t);
    }
    var through, sum := CheckpointAt(p, checkpoints, t);
    var elapsed, remaining := SaturatingSub(through, p.start), SaturatingSub(p.expiry, through);
    var realized := Annualize(sum, elapsed);
    var skew := SkewAt(p, flows, t);
    var forward := ForwardReplayed(p, skew);
    var projected := ProjectedVariance(realized, elapsed, forward, remaining);
    var bid := BidVariance(projected, p.halfSpreadBps, p.capVariance);
    var ask := AskVariance(projected, p.halfSpreadBps, p.capVariance);
    m := MarketPoint(t, through, realized, forward, projected, bid, ask,
                     PerUnitPrice(p.unitNotional, bid), PerUnitPrice(p.unitNotional, ask),
                     through >= DueReplayed(p, t));
  }

  // ---------------------------------------------------------------- the log of a run

  /** Issue fills push the skew up, exit fills pull it back; redemptions do not move the market. */
  function FlowsOf(fills: seq<Fill>): seq<Flow> {
    if fills == [] then []
    else
      var f := fills[|fills| - 1];
      FlowsOf(fills[..|fills| - 1])
      + match f.leg
        case IssueLeg => [Flow(f.t, f.units)]
        case ExitLeg => [Flow(f.t, -(f.units as int))]
        case SettleLeg => []
  }

  lemma FlowsExtend(fills: seq<Fill>, f: Fill)
    ensures FlowsOf(fills + [f])
         == FlowsOf(fills) + match f.leg
                             case IssueLeg => [Flow(f.t, f.units)]
                             case ExitLeg => [Flow(f.t, -(f.units as int))]
                             case SettleLeg => []
  {
    assert (fills + [f])[..|fills|] == fills;
  }

  /** The states of series `k` along a run: before the first operation, and after each. */
  ghost function History(b: Book, ops: seq<Op>, k: nat): (h: seq<SeriesState>)
    requires BookInv(b) && k < |b.series|
    ensures |h| == |ops| + 1 && h[0] == b.series[k]
    decreases ops
  {
    if ops == [] then [b.series[k]]
    else
      NextOnSeries(b, ops[0], k);
      [b.series[k]] + History(Next(b, ops[0]), ops[1..], k)
  }

  /** The checkpoint events logged by the first `n` operations: one per call that stored anything. */
  function LogOf(h: seq<SeriesState>, ops: seq<Op>, k: nat, n: nat): seq<CheckpointEvent>
    requires |h| == |ops| + 1 && n <= |ops|
  {
    if n == 0 then [] else LogOf(h, ops, k, n - 1) + EventOf(h[n - 1], h[n], ops[n - 1], k)
  }

  function EventOf(s: SeriesState, after: SeriesState, op: Op, k: nat): seq<CheckpointEvent> {
    if op.Checkpoint? && op.k == k && after.samplesStored > s.samplesStored
    then [CheckpointEvent(op.now, after.processedThrough, after.sumSquaredReturns)]
    else []
  }

  // ---------------------------------------------------------------- what one operation does to the market

  predicate MovesMarket(op: Op, k: nat) {
    (op.Checkpoint? || op.Issue? || op.Exit?) && op.k == k
  }

  /** Every operation that moves series `k`'s market happens at or before `t`. */
  predicate AllBy(ops: seq<Op>, k: nat, t: nat) {
    forall i | 0 <= i < |ops| :: MovesMarket(ops[i], k) ==> ops[i].now <= t
  }

  predicate AllAfter(ops: seq<Op>, k: nat, t: nat) {
    forall i | 0 <= i < |ops| :: MovesMarket(ops[i], k) ==> ops[i].now > t
  }

  /** The fills and the skew move together: not at all, by a purchase, by a sale, or by a redemption that leaves
      the skew alone. */
  predicate SkewMoves(s: SeriesState, op: Op, k: nat, after: SeriesState) {
    || (after.fills == s.fills && after.skew == s.skew && after.lastSkewTs == s.lastSkewTs)
    || (|after.fills| == |s.fills| + 1 && after.fills[..|s.fills|] == s.fills
        && var f := after.fills[|s.fills|];
           match f.leg
           case IssueLeg =>
             && MovesMarket(op, k) && f.t == op.now && after.lastSkewTs == f.t
             && after.skew == s.SkewAt(f.t) + Floor(s.params.impactPerUnit * f.units, WAD)
           case ExitLeg =>
             && MovesMarket(op, k) && f.t == op.now && after.lastSkewTs == f.t && f.units > 0
             && after.skew == s.SkewAt(f.t) - Floor(s.params.impactPerUnit * f.units, WAD)
           case SettleLeg => after.skew == s.skew && after.lastSkewTs == s.lastSkewTs)
  }

  /** The accumulator moves only by a checkpoint that stores something. */
  predicate OracleMoves(s: SeriesState, op: Op, k: nat, after: SeriesState) {
    || (after.samplesStored == s.samplesStored && after.processedThrough == s.processedThrough
        && after.sumSquaredReturns == s.sumSquaredReturns)
    || (op.Checkpoint? && op.k == k && after.samplesStored > s.samplesStored)
  }

  ghost predicate Moves(s: SeriesState, op: Op, k: nat, after: SeriesState) {
    after.params == s.params && SkewMoves(s, op, k, after) && OracleMoves(s, op, k, after)
  }

  /** Step `i` of a history is one of those moves. */
  ghost predicate MovesAt(h: seq<SeriesState>, ops: seq<Op>, k: nat, i: nat)
    requires |h| == |ops| + 1 && i < |ops|
  {
    Moves(h[i], ops[i], k, h[i + 1])
  }

  lemma IssueMoves(s: SeriesState, v: VaultState, k: nat, now: nat, actor: string, amountIn: nat)
    requires SeriesInv(s) && Backs(v, s)
    ensures s.Priceable()
    ensures var r := s.Issue(v, now, actor, amountIn);
      r.Ok? ==> Moves(s, Issue(k, now, actor, amountIn), k, r.value.series)
  {
    hide SeriesState.IssueFill, SeriesState.Reserve, Floor, DecaySkew;
    InvPriceable(s);
    IssueFillFits(s, v, now, actor, amountIn);
  }

  lemma ExitMoves(s: SeriesState, v: VaultState, k: nat, now: nat, actor: string, units: nat)
    requires SeriesInv(s) && Backs(v, s)
    ensures s.Priceable()
    ensures var r := s.Exit(v, now, actor, units);
      r.Ok? ==> Moves(s, Exit(k, now, actor, units), k, r.value.series)
  {
    hide SeriesState.ExitFill, SeriesState.Reserve, Floor, DecaySkew;
    InvPriceable(s);
    ExitFillFits(s, v, now, actor, units);
  }

  lemma SettleMoves(s: SeriesState, v: VaultState, k: nat, now: nat, actor: string, units: nat)
    requires SeriesInv(s) && Backs(v, s)
    ensures var r := s.Settle(v, now, actor, units);
      r.Ok? ==> Moves(s, Settle(k, now, actor, units), k, r.value.series)
  {
    hide SeriesState.SettleFill, FinalLiability, Floor, DecaySkew;
    if s.finalized {
      SettleFillIs(s, v, now, actor, units);
    }
  }

  lemma TradeMoves(s: SeriesState, v: VaultState, op: Op, k: nat)
    requires SeriesInv(s) && Backs(v, s) && OnSeriesOp(op, k) && TradeOf(s, v, op).Ok?
    ensures Moves(s, op, k, TradeOf(s, v, op).value.series)
  {
    hide Moves, SeriesState.Issue, SeriesState.Exit, SeriesState.Settle;
    match op
    case Issue(_, now, actor, amountIn) => IssueMoves(s, v, k, now, actor, amountIn);
    case Exit(_, now, actor, units) => ExitMoves(s, v, k, now, actor, units);
    case Settle(_, now, actor, units) => SettleMoves(s, v, k, now, actor, units);
    case _ => OtherTradesMove(s, v, op, k);
  }

  lemma OtherTradesMove(s: SeriesState, v: VaultState, op: Op, k: nat)
    requires SeriesInv(s) && Backs(v, s) && OnSeriesOp(op, k) && TradeOf(s, v, op).Ok?
    requires op.Checkpoint? || op.Finalize? || op.BurnWorthless? || op.StopIssuance? || op.Close?
    ensures Moves(s, op, k, TradeOf(s, v, op).value.series)
  {
    hide Floor, DecaySkew, ReturnSum, PayoutPerUnit, FinalLiability, Annualize;
  }

  lemma NextMoves(b: Book, op: Op, k: nat)
    requires BookInv(b) && k < |b.series|
    ensures k < |Next(b, op).series| && Moves(b.series[k], op, k, Next(b, op).series[k])
  {
    NextOnSeries(b, op, k);
    if OnSeriesOp(op, k) && TradeOf(b.series[k], b.vault, op).Ok? {
      TradeMoves(b.series[k], b.vault, op, k);
    }
  }

  /** Every step of a history is one of those moves, and the history ends where the run does. */
  lemma {:induction false} HistoryMoves(b: Book, ops: seq<Op>, k: nat)
    requires BookInv(b) && k < |b.series|
    ensures var h := History(b, ops, k);
            && (forall i | 0 <= i < |ops| :: MovesAt(h, ops, k, i))
            && k < |Run(b, ops).series| && Run(b, ops).series[k] == h[|ops|]
    decreases ops
  {
    if ops == [] {
    } else {
      var h, rest := History(b, ops, k), History(Next(b, ops[0]), ops[1..], k);
      NextMoves(b, ops[0], k);
      HistoryMoves(Next(b, ops[0]), ops[1..], k);
      forall i | 0 <= i < |ops|
        ensures MovesAt(h, ops, k, i)
      {
        if i > 0 {
          assert MovesAt(rest, ops[1..], k, i - 1);
        }
      }
    }
  }

  // ---------------------------------------------------------------- the log mirrors the state

  /** The replay of a log at `t` holds the same skew and accumulator as the live series. */
  ghost predicate Mirrors(s: SeriesState, log: seq<CheckpointEvent>, t: nat) {
    && ReplayFlows(s.params, FlowsOf(s.fills), t) == (s.skew, s.lastSkewTs)
    && CheckpointReplayed(s.params, log, t) == (s.processedThrough, s.sumSquaredReturns)
  }

  lemma ReplayOneMore(p: Params, flows: seq<Flow>, f: Flow, t: nat)
    ensures f.t > t ==> ReplayFlows(p, flows + [f], t) == ReplayFlows(p, flows, t)
    ensures f.t <= t ==>
              var before := ReplayFlows(p, flows, t);
              var decayed := DecaySkew(before.0, SaturatingSub(f.t, before.1), p.halfLife, p.decay);
              var magnitude := Floor(Abs(f.unitsDelta) * p.impactPerUnit, WAD);
              ReplayFlows(p, flows + [f], t)
              == (if f.unitsDelta >= 0 then decayed + magnitude else decayed - magnitude, f.t)
  {
    assert (flows + [f])[..|flows|] == flows;
  }

  lemma FlowsFollow(s: SeriesState, op: Op, k: nat, after: SeriesState, t: nat)
    requires SkewMoves(s, op, k, after) && (MovesMarket(op, k) ==> op.now <= t)
    requires ReplayFlows(s.params, FlowsOf(s.fills), t) == (s.skew, s.lastSkewTs)
    ensures ReplayFlows(s.params, FlowsOf(after.fills), t) == (after.skew, after.lastSkewTs)
  {
    hide ReplayFlows, FlowsOf, Floor, DecaySkew;
    if after.fills != s.fills {
      var f := after.fills[|s.fills|];
      assert after.fills == s.fills + [f];
      FlowsExtend(s.fills, f);
      MagnitudeCommutes(f.units, s.params.impactPerUnit);
      assert s.SkewAt(f.t) == DecaySkew(s.skew, SaturatingSub(f.t, s.lastSkewTs), s.params.halfLife, s.params.decay);
      match f.leg
      case IssueLeg => ReplayOneMore(s.params, FlowsOf(s.fills), Flow(f.t, f.units), t);
      case ExitLeg => ReplayOneMore(s.params, FlowsOf(s.fills), Flow(f.t, -(f.units as int)), t);
      case SettleLeg => assert FlowsOf(s.fills) + [] == FlowsOf(s.fills);
    }
  }

  lemma MagnitudeCommutes(units: nat, impact: nat)
    ensures Floor(units * impact, WAD) == Floor(impact * units, WAD)
  {
    assert units * impact == impact * units;
  }

  lemma FlowsStay(s: SeriesState, op: Op, k: nat, after: SeriesState, t: nat)
    requires SkewMoves(s, op, k, after) && (MovesMarket(op, k) ==> op.now > t)
    ensures ReplayFlows(s.params, FlowsOf(after.fills), t) == ReplayFlows(s.params, FlowsOf(s.fills), t)
  {
    if after.fills != s.fills {
      var f := after.fills[|s.fills|];
      assert after.fills == s.fills + [f];
      FlowsExtend(s.fills, f);
      match f.leg
      case IssueLeg => ReplayOneMore(s.params, FlowsOf(s.fills), Flow(f.t, f.units), t);
      case ExitLeg => ReplayOneMore(s.params, FlowsOf(s.fills), Flow(f.t, -(f.units as int)), t);
      case SettleLeg => assert FlowsOf(s.fills) + [] == FlowsOf(s.fills);
    }
  }

  lemma LogOneMore(p: Params, log: seq<CheckpointEvent>, more: seq<CheckpointEvent>, t: nat)
    requires |more| <= 1
    ensures CheckpointReplayed(p, log + more, t)
         == if |more| == 1 && more[0].t <= t then (more[0].processedThrough, more[0].sumSquaredReturns)
            else CheckpointReplayed(p, log, t)
  {
    if more == [] {
      assert log + more == log;
    } else {
      assert (log + more)[..|log|] == log;
    }
  }

  lemma MoveMirrors(s: SeriesState, op: Op, k: nat, after: SeriesState, log: seq<CheckpointEvent>, t: nat)
    requires Moves(s, op, k, after) && (MovesMarket(op, k) ==> op.now <= t) && Mirrors(s, log, t)
    ensures Mirrors(after, log + EventOf(s, after, op, k), t)
  {
    FlowsFollow(s, op, k, after, t);
    LogOneMore(s.params, log, EventOf(s, after, op, k), t);
  }

  /** What a log replays to at `t`: the skew with its timestamp, and the accumulator. */
  ghost function Replayed(p: Params, fills: seq<Fill>, log: seq<CheckpointEvent>, t: nat): ((int, nat), (nat, nat)) {
    (ReplayFlows(p, FlowsOf(fills), t), CheckpointReplayed(p, log, t))
  }

  lemma LateMoveStays(s: SeriesState, op: Op, k: nat, after: SeriesState, log: seq<CheckpointEvent>, t: nat)
    requires Moves(s, op, k, after) && (MovesMarket(op, k) ==> op.now > t)
    ensures Replayed(s.params, after.fills, log + EventOf(s, after, op, k), t) == Replayed(s.params, s.fills, log, t)
  {
    FlowsStay(s, op, k, after, t);
    LogOneMore(s.params, log, EventOf(s, after, op, k), t);
  }

  ghost predicate MirroredAt(h: seq<SeriesState>, ops: seq<Op>, k: nat, t: nat, n: nat)
    requires |h| == |ops| + 1 && n <= |ops|
  {
    Mirrors(h[n], LogOf(h, ops, k, n), t)
  }

  lemma MirroredNext(h: seq<SeriesState>, ops: seq<Op>, k: nat, t: nat, n: nat)
    requires |h| == |ops| + 1 && n < |ops| && MovesAt(h, ops, k, n)
    requires MovesMarket(ops[n], k) ==> ops[n].now <= t
    requires MirroredAt(h, ops, k, t, n)
    ensures MirroredAt(h, ops, k, t, n + 1)
  {
    MoveMirrors(h[n], ops[n], k, h[n + 1], LogOf(h, ops, k, n), t);
  }

  /** While the market moves at or before `t`, the log mirrors the state at `t`. */
  lemma {:induction false} HistoryMirrors(h: seq<SeriesState>, ops: seq<Op>, k: nat, t: nat, n: nat)
    requires |h| == |ops| + 1 && n <= |ops|
    requires forall i | 0 <= i < |ops| :: MovesAt(h, ops, k, i)
    requires forall i | 0 <= i < n :: MovesMarket(ops[i], k) ==> ops[i].now <= t
    requires MirroredAt(h, ops, k, t, 0)
    ensures MirroredAt(h, ops, k, t, n)
  {
    if n == 0 {
    } else {
      HistoryMirrors(h, ops, k, t, n - 1);
      MirroredNext(h, ops, k, t, n - 1);
    }
  }

  /** Moves after `t` leave what the log replays at `t` as it was after the first `m`. */
  lemma {:induction false} LateHistoryStays(h: seq<SeriesState>, ops: seq<Op>, k: nat, t: nat, m: nat, n: nat)
    requires |h| == |ops| + 1 && m <= n <= |ops|
    requires forall i | 0 <= i < |ops| :: MovesAt(h, ops, k, i)
    requires forall i | m <= i < n :: MovesMarket(ops[i], k) ==> ops[i].now > t
    ensures h[n].params == h[m].params
    ensures Replayed(h[m].params, h[n].fills, LogOf(h, ops, k, n), t)
         == Replayed(h[m].params, h[m].fills, LogOf(h, ops, k, m), t)
  {
    if n == m {
    } else {
      LateHistoryStays(h, ops, k, t, m, n - 1);
      assert MovesAt(h, ops, k, n - 1);
      LateMoveStays(h[n - 1], ops[n - 1], k, h[n], LogOf(h, ops, k, n - 1), t);
    }
  }

  // ---------------------------------------------------------------- the theorem

  /** The replayed point is the live quote, field by field, and its freshness flag is the live check. */
  predicate SamePoint(m: MarketPoint, q: Quote, s: SeriesState, t: nat)
    requires s.params.Valid()
  {
    && m.t == t
    && m.processedThrough == s.processedThrough
    && m.realizedVariance == q.realizedSoFar
    && m.marketVariance == q.marketVariance
    && m.projectedVariance == q.projectedVariance
    && m.bidVariance == q.bidVariance
    && m.askVariance == q.askVariance
    && m.bidPerUnit == q.bidPerUnit
    && m.askPerUnit == q.askPerUnit
    && (m.checkpointsFresh <==> s.IsCurrent(t))
  }

  lemma FreshIffCurrent(s: SeriesState, t: nat)
    requires OracleInv(s)
    ensures s.processedThrough >= DueReplayed(s.params, t) <==> s.IsCurrent(t)
  {
    var p := s.params;
    if t >= p.start {
      var due := Floor(Min(t, p.expiry) - p.start, p.sampleInterval);
      assert DueReplayed(p, t) == p.start + due * p.sampleInterval;
      hide Floor;
      if s.samplesStored - 1 >= due {
        MulMono(due, s.samplesStored - 1, p.sampleInterval);
      } else {
        MulMono(s.samplesStored, due, p.sampleInterval);
      }
    }
  }

  lemma MirroredPoint(s: SeriesState, flows: seq<Flow>, log: seq<CheckpointEvent>, t: nat)
    requires SeriesInv(s) && s.Priceable()
    requires ReplayFlows(s.params, flows, t) == (s.skew, s.lastSkewTs)
    requires CheckpointReplayed(s.params, log, t) == (s.processedThrough, s.sumSquaredReturns)
    ensures SamePoint(MarketReplayed(s.params, flows, log, t), s.QuoteAt(t), s, t)
  {
    FreshIffCurrent(s, t);
  }

  /** For every run of a series from its opening, split at a time `t` (its market moves at or before `t`, then
      those after it), replaying the whole log at `t` gives exactly the quote the live series gave at `t`. */
  lemma ReplayIsTheLiveQuote(b: Book, k: nat, p: Params, before: seq<Op>, after: seq<Op>, t: nat)
    requires BookInv(b) && k < |b.series| && b.series[k] == Opened(p)
    requires AllBy(before, k, t) && AllAfter(after, k, t)
    ensures k < |Run(b, before).series| && k < |Run(b, before + after).series|
    ensures var live := Run(b, before).series[k];
            var ops := before + after;
            var flows := FlowsOf(Run(b, ops).series[k].fills);
            var log := LogOf(History(b, ops, k), ops, k, |ops|);
            live.Priceable() && SamePoint(MarketReplayed(live.params, flows, log, t), live.QuoteAt(t), live, t)
  {
    var ops, m := before + after, |before|;
    var h := History(b, ops, k);
    HistoryMoves(b, ops, k);
    HistoryReaches(b, before, after, k);
    HistoryMirrors(h, ops, k, t, m);
    LateHistoryStays(h, ops, k, t, m, |ops|);
    InvPriceable(h[m]);
    MirroredPoint(h[m], FlowsOf(h[|ops|].fills), LogOf(h, ops, k, |ops|), t);
  }

  /** The history passes through the state the first part of the run ends in. */
  lemma {:induction false} HistoryReaches(b: Book, before: seq<Op>, after: seq<Op>, k: nat)
    requires BookInv(b) && k < |b.series|
    ensures k < |Run(b, before).series|
    ensures History(b, before + after, k)[|before|] == Run(b, before).series[k]
    decreases before
  {
    hide Next, BookInv;
    if before == [] {
    } else {
      assert (before + after)[1..] == before[1..] + after;
      NextOnSeries(b, before[0], k);
      HistoryReaches(Next(b, before[0]), before[1..], after, k);
    }
  }
}
