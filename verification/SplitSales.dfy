/** Splitting a sale on the live market: the same question as for a purchase, on the leg that pays out. */
module LiveSales {
  import opened Arith
  import opened Outcomes
  import opened Pricing
  import opened Market
  import opened Solvency
  import opened LiveSplitting
  import opened LiveTrading
  import Funding

  // ---------------------------------------------------------------- slices of a sale

  /** Twice the unrounded bid integral of the first `units`, in 1e-18ths. */
  function SaleArea(bid: nat, slope: nat, units: nat): int {
    2 * WAD * (bid * units) - slope * units * units
  }

  /** One fill of a split sale: the bid it starts at, its size and what it was paid. */
  datatype Sale = Sale(bid: nat, units: nat, quote: nat)

  function TotalSold(sales: seq<Sale>): nat {
    if sales == [] then 0 else sales[0].units + TotalSold(sales[1..])
  }

  function TotalPaid(sales: seq<Sale>): nat {
    if sales == [] then 0 else sales[0].quote + TotalPaid(sales[1..])
  }

  /** No sale is paid more than its price. */
  predicate Priced(sales: seq<Sale>, slope: nat, unitNotional: nat) {
    forall i | 0 <= i < |sales| ::
      && ExitIntegral(sales[i].bid, slope, sales[i].units) >= 0
      && sales[i].quote <= ExitProceeds(sales[i].bid, slope, unitNotional, sales[i].units)
  }

  /** Every sale starts at most `gap` 1e-18ths above the marginal bid that the units sold before it have reached. */
  predicate WithinBid(bid: nat, slope: nat, sold: nat, sales: seq<Sale>, gap: nat)
    decreases sales
  {
    sales == []
    || (sales[0].bid * WAD <= bid * WAD - slope * sold + gap
        && WithinBid(bid, slope, sold + sales[0].units, sales[1..], gap))
  }

  lemma SaleAreaSplits(bid: nat, slope: nat, sold: nat, start: nat, units: nat)
    ensures SaleArea(bid, slope, sold + units)
         == SaleArea(bid, slope, sold) + SaleArea(start, slope, units)
            - 2 * ((start * WAD + slope * sold - bid * WAD) * units)
  {
    assert slope * (sold + units) * (sold + units)
        == slope * sold * sold + slope * units * units + 2 * ((slope * sold) * units);
    assert bid * (sold + units) == bid * sold + bid * units;
    assert (start * WAD + slope * sold - bid * WAD) * units
        == WAD * (start * units) + (slope * sold) * units - WAD * (bid * units);
  }

  /** A further sale at `start` is covered by the area under the curve exactly when it starts at or below the margin. */
  lemma SaleCoveredIffAtMargin(bid: nat, slope: nat, sold: nat, start: nat, units: nat)
    requires units > 0
    ensures SaleArea(bid, slope, sold) + SaleArea(start, slope, units) <= SaleArea(bid, slope, sold + units)
        <==> start * WAD + slope * sold - bid * WAD <= 0
  {
    hide SaleArea;
    SaleAreaSplits(bid, slope, sold, start, units);
    var over := start * WAD + slope * sold - bid * WAD;
    if over <= 0 { MulMono(over, 0, units); } else { MulMono(1, over, units); }
  }

  lemma {:induction false} SalesWithinArea(bid: nat, slope: nat, n: nat, sold: nat, sales: seq<Sale>, gap: nat)
    requires WithinBid(bid, slope, sold, sales, gap) && Priced(sales, slope, n)
    ensures var t := TotalSold(sales);
      2 * WAD * WAD2 * TotalPaid(sales)
      <= n * (SaleArea(bid, slope, sold + t) - SaleArea(bid, slope, sold) + 2 * (gap * t) + 2 * WAD * |sales|)
    decreases sales
  {
    hide SaleArea, ExitIntegral, ExitProceeds;
    if sales != [] {
      var head, rest := sales[0], sales[1..];
      SalesWithinArea(bid, slope, n, sold + head.units, rest, gap);
      HeadWithinArea(bid, slope, n, sold, head, gap);
      AreasAdd(n, SaleArea(bid, slope, sold + head.units + TotalSold(rest)), SaleArea(bid, slope, sold + head.units),
               SaleArea(bid, slope, sold), gap, head.units, TotalSold(rest), |rest|);
    }
  }

  lemma HeadWithinArea(bid: nat, slope: nat, n: nat, sold: nat, head: Sale, gap: nat)
    requires head.bid * WAD <= bid * WAD - slope * sold + gap
    requires ExitIntegral(head.bid, slope, head.units) >= 0
    requires head.quote <= ExitProceeds(head.bid, slope, n, head.units)
    ensures 2 * WAD * WAD2 * head.quote
         <= n * (SaleArea(bid, slope, sold + head.units) - SaleArea(bid, slope, sold)
                 + 2 * (gap * head.units) + 2 * WAD)
  {
    hide ExitIntegral, ExitProceeds;
    PaidBelow(head.bid, slope, n, head.units, head.quote);
    assert 2 * WAD * (head.bid * head.units) - slope * head.units * head.units == SaleArea(head.bid, slope, head.units);
    hide SaleArea;
    SaleAreaSplits(bid, slope, sold, head.bid, head.units);
    MulMono(head.bid * WAD + slope * sold - bid * WAD, gap, head.units);
    MulMono(SaleArea(head.bid, slope, head.units) + 2 * WAD,
            SaleArea(bid, slope, sold + head.units) - SaleArea(bid, slope, sold) + 2 * (gap * head.units) + 2 * WAD, n);
  }

  lemma AreasAdd(n: int, all: int, head: int, none: int, gap: int, u: int, t: int, m: int)
    ensures n * (all - head + 2 * (gap * t) + 2 * WAD * m) + n * (head - none + 2 * (gap * u) + 2 * WAD)
         == n * (all - none + 2 * (gap * (u + t)) + 2 * WAD * (m + 1))
  {
    assert gap * (u + t) == gap * u + gap * t;
    assert (all - head + 2 * (gap * t) + 2 * WAD * m) + (head - none + 2 * (gap * u) + 2 * WAD)
        == all - none + 2 * (gap * (u + t)) + 2 * WAD * (m + 1);
  }

  /** The price of one sale is worth at least its area, but for its rounding down. */
  lemma PriceAboveArea(bid: nat, slope: nat, n: nat, units: nat)
    requires ExitIntegral(bid, slope, units) >= 0
    ensures n * SaleArea(bid, slope, units) < 2 * WAD * WAD2 * (ExitProceeds(bid, slope, n, units) + 1)
  {
    hide Floor;
    var gain := ExitIntegral(bid, slope, units);
    assert SaleArea(bid, slope, units) <= 2 * WAD * gain;
    MulMono(SaleArea(bid, slope, units), 2 * WAD * gain, n);
    MulMono(0, n, gain);
    assert n * (2 * WAD * gain) == 2 * WAD * (n * gain);
    if units == 0 {
      assert gain <= 0;
    }
  }

  /** What `sales` sales of `units` in all can gain at most over one, each starting at most `gap` above the margin. */
  function SplitWorth(unitNotional: nat, units: nat, gap: nat, sales: nat): nat {
    Ceil(unitNotional * (gap * units + WAD * sales), WAD * WAD2)
  }

  /** However many sales a position is sold in, they are paid at most what their distance above the margin and their
      roundings are worth over the price of one sale. */
  lemma SplittingSalesGainsAtMost(bid: nat, slope: nat, unitNotional: nat, sales: seq<Sale>, gap: nat)
    requires WithinBid(bid, slope, 0, sales, gap) && Priced(sales, slope, unitNotional)
    requires ExitIntegral(bid, slope, TotalSold(sales)) >= 0
    ensures TotalPaid(sales)
         <= ExitProceeds(bid, slope, unitNotional, TotalSold(sales))
            + SplitWorth(unitNotional, TotalSold(sales), gap, |sales|)
  {
    hide SaleArea, ExitProceeds, ExitIntegral, Ceil;
    var t, n := TotalSold(sales), unitNotional;
    SalesWithinArea(bid, slope, n, 0, sales, gap);
    PriceAboveArea(bid, slope, n, t);
    NothingSoldNoArea(bid, slope);
    MulMono(0, gap, t);
    MulMono(0, n, gap * t + WAD * |sales|);
    var extra, gain := n * (gap * t + WAD * |sales|), TotalPaid(sales) - ExitProceeds(bid, slope, n, t);
    assert n * (SaleArea(bid, slope, t) + 2 * (gap * t) + 2 * WAD * |sales|)
        == n * SaleArea(bid, slope, t) + 2 * extra;
    GainIsBounded(gain, extra);
  }

  lemma NothingSoldNoArea(bid: nat, slope: nat)
    ensures SaleArea(bid, slope, 0) == 0
  {
  }

  lemma GainIsBounded(gain: int, extra: nat)
    requires WAD * WAD2 * (gain - 1) < extra
    ensures gain <= Ceil(extra, WAD * WAD2)
  {
    hide Ceil;
    CeilIs(extra, WAD * WAD2, gain - 1);
  }

  // ---------------------------------------------------------------- what a sale will do, told before it

  /** The bid the series would quote at a given skew, with its clock and checkpoints as they are. */
  function BidAt(s: SeriesState, skew: int): nat
    requires s.Priceable()
  {
    var p := s.params;
    var forward := ForwardVariance(p.anchorVariance, skew, p.capVariance);
    var projected := ProjectedVariance(
                       s.RealizedSoFar(), s.processedThrough - p.start, forward, p.expiry - s.processedThrough);
    BidVariance(projected, p.halfSpreadBps, p.capVariance)
  }

  /** How far above the marginal bid a second sale would start after `units` sold at `t`, in 1e-18ths. */
  function Surplus(s: SeriesState, t: nat, units: nat): int
    requires s.Priceable()
  {
    var q := s.QuoteAt(t);
    BidAt(s, s.SkewAt(t) - LiftOf(s.params, units)) * WAD + q.bidSlope * units - q.bidVariance * WAD
  }

  /** The forward variance starts at or below the cap, and the whole drop fits above zero. */
  predicate DropHasRoom(s: SeriesState, t: nat, units: nat) {
    var forward := s.params.anchorVariance + s.SkewAt(t);
    forward <= s.params.capVariance && 0 <= forward - LiftOf(s.params, units)
  }

  /** The part of the drop that the two clamps on the forward variance swallow. */
  function LostDrop(s: SeriesState, t: nat, units: nat): int {
    var p, skew, lift := s.params, s.SkewAt(t), LiftOf(s.params, units);
    lift - (ForwardVariance(p.anchorVariance, skew, p.capVariance)
            - ForwardVariance(p.anchorVariance, skew - lift, p.capVariance))
  }

  lemma NoDropLostIffRoom(s: SeriesState, t: nat, units: nat)
    ensures 0 <= LostDrop(s, t, units) <= LiftOf(s.params, units)
    ensures LostDrop(s, t, units) == 0 <==> LiftOf(s.params, units) == 0 || DropHasRoom(s, t, units)
  {
    hide Floor, DecaySkew;
  }

  /** A sale moves the quote exactly as told: the bid to the lowered skew's, the slope not at all. */
  lemma BidAfter(s: SeriesState, fill: Fill)
    requires s.Priceable() && fill.units <= s.outstandingUnits
    ensures s.SoldBack(fill).Priceable()
    ensures s.SoldBack(fill).SkewAt(fill.t) == s.SkewAt(fill.t) - LiftOf(s.params, fill.units)
    ensures var r := s.SoldBack(fill).QuoteAt(fill.t);
      && r.bidVariance == BidAt(s, s.SkewAt(fill.t) - LiftOf(s.params, fill.units))
      && r.bidSlope == s.QuoteAt(fill.t).bidSlope
  {
    hide Floor, BidVariance, BidImpactSlope, ForwardVariance, ProjectedVariance;
  }

  // ---------------------------------------------------------------- the surplus, to within the roundings

  lemma DropSlopeAbove(k: int, d: int, i: int, c: int, r: int, u: nat, lift: int, n: int, w: int)
    requires k * d <= i * r * c && i * u <= lift * w + n * w && 0 <= r * c
    ensures (k * d) * u <= (lift * w + n * w) * (r * c)
  {
    MulMono(k * d, i * r * c, u);
    assert (i * r * c) * u == (i * u) * (r * c);
    MulMono(i * u, lift * w + n * w, r * c);
  }

  lemma DropSlopeBelow(k: int, d: int, i: int, c: int, r: int, u: nat, lift: int, w: int)
    requires i * r * c <= k * d + d && lift * w <= i * u && 0 <= r * c
    ensures (lift * w) * (r * c) <= (k * d) * u + d * u
  {
    MulMono(i * r * c, k * d + d, u);
    assert (i * r * c) * u == (i * u) * (r * c);
    assert (k * d + d) * u == (k * d) * u + d * u;
    MulMono(lift * w, i * u, r * c);
  }

  /** The surplus is what the clamps swallowed, spread over the window, plus at most the roundings. */
  lemma SurplusAbove(x: nat, d: nat, r: nat, c: nat, i: nat, u: nat, n: nat, lift: int, lost: int,
                     p: nat, p1: nat, b: nat, b1: nat, k: nat)
    requires x <= p * d + d && p1 * d <= x - (lift - lost) * r
    requires p * c <= b * BPS + BPS && b1 * BPS <= p1 * c
    requires k * (d * BPS) <= i * r * c && i * u <= lift * WAD + n * WAD
    ensures (d * BPS) * (b1 * WAD + k * u - b * WAD)
      <= (lost * r) * (c * WAD) + (d * BPS) * WAD + (n * r + d) * (c * WAD)
  {
    Collected(d, BPS, b1, k, u, b, WAD);
    DropSlopeAbove(k, d * BPS, i, c, r, u, lift, n, WAD);
    BidAbove(b1, p1, c, d, x - (lift - lost) * r);
    BidBelow(b, p, c, d, x);
    MoveOut(x, -lift, -lost, r, c, WAD);
    Signs(x, lift, lost, r, c);
    Regroup(lift, n, r, c, d, WAD);
  }

  lemma Signs(x: int, lift: int, lost: int, r: int, c: int)
    ensures x + (-lift - -lost) * r == x - (lift - lost) * r
    ensures (-lift * WAD) * (r * c) == -((lift * WAD) * (r * c))
    ensures (-lost * r) * (c * WAD) == -((lost * r) * (c * WAD))
  {
  }

  lemma BidAbove(b: int, p: int, c: int, d: int, x: int)
    requires b * BPS <= p * c && p * d <= x && 0 <= d && 0 <= c
    ensures (b * BPS) * (d * WAD) <= x * (c * WAD)
  {
    MulMono(b * BPS, p * c, d * WAD);
    assert (p * c) * (d * WAD) == (p * d) * (c * WAD);
    MulMono(p * d, x, c * WAD);
  }

  lemma BidBelow(b: int, p: int, c: int, d: int, x: int)
    requires p * c <= b * BPS + BPS && x <= p * d + d && 0 <= d && 0 <= c
    ensures x * (c * WAD) <= (b * BPS) * (d * WAD) + (d * BPS) * WAD + d * (c * WAD)
  {
    MulMono(x, p * d + d, c * WAD);
    assert (p * d + d) * (c * WAD) == (p * c) * (d * WAD) + d * (c * WAD);
    MulMono(p * c, b * BPS + BPS, d * WAD);
    assert (b * BPS + BPS) * (d * WAD) == (b * BPS) * (d * WAD) + (d * BPS) * WAD;
  }

  /** The surplus is no less than what the clamps swallowed, but for as many roundings. */
  lemma SurplusBelow(x: nat, d: nat, r: nat, c: nat, i: nat, u: nat, lift: int, lost: int,
                     p: nat, p1: nat, b: nat, b1: nat, k: nat)
    requires p * d <= x && x - (lift - lost) * r <= p1 * d + d
    requires b * BPS <= p * c && p1 * c <= b1 * BPS + BPS
    requires i * r * c <= k * (d * BPS) + d * BPS && lift * WAD <= i * u
    ensures (d * BPS) * (b1 * WAD + k * u - b * WAD)
      >= (lost * r) * (c * WAD) - d * (c * WAD) - (d * BPS) * WAD - (d * BPS) * u
  {
    Collected(d, BPS, b1, k, u, b, WAD);
    DropSlopeBelow(k, d * BPS, i, c, r, u, lift, WAD);
    BidAbove(b, p, c, d, x);
    BidBelow(b1, p1, c, d, x - (lift - lost) * r);
    MoveOut(x, -lift, -lost, r, c, WAD);
    Signs(x, lift, lost, r, c);
  }

  lemma BidRounds(p: nat, sp: nat, cap: nat)
    requires sp < BPS
    ensures var b := BidVariance(p, sp, cap);
      b * BPS <= p * (BPS - sp) && (b < cap ==> p * (BPS - sp) <= b * BPS + BPS)
  {
    BidBelowProjection(p, sp, cap);
  }

  lemma BidSlopeRounds(i: nat, r: nat, d: nat, sp: nat)
    requires d > 0 && sp < BPS
    ensures var k := BidImpactSlope(i, r, d, sp);
      k * (d * BPS) <= i * r * (BPS - sp) <= k * (d * BPS) + d * BPS
  {
    hide BidImpactSlope;
    SlopesAround(i, r, d, sp);
    BidSlopeBelow(i, r, d, sp);
  }

  lemma BidSlopeBelow(i: nat, r: nat, d: nat, sp: nat)
    requires d > 0 && sp < BPS
    ensures BidImpactSlope(i, r, d, sp) * (d * BPS) <= i * r * (BPS - sp)
  {
    MulMono(0, i, r);
    MulMono(0, i * r, BPS - sp);
  }

  /** A lower projection never has a higher bid. */
  lemma BidMono(p1: nat, p: nat, sp: nat, cap: nat)
    requires p1 <= p && sp < BPS
    ensures BidVariance(p1, sp, cap) <= BidVariance(p, sp, cap) <= cap
  {
    hide Floor;
    MulMono(p1, p, BPS - sp);
    MulMono(0, p1, BPS - sp);
    FloorMono(p1 * (BPS - sp), p * (BPS - sp), BPS);
  }

  /** The bounds on the quoted values: for a bid inside the cap, lowered `lift` in at most `n` roundings. */
  lemma QuotedSurplus(z: nat, f: nat, f1: nat, r: nat, d: nat, sp: nat, cap: nat, i: nat, u: nat, n: nat, lift: nat,
                      lost: nat, b: nat, b1: nat, k: nat)
    requires 0 < d && r <= d && sp < BPS && lift - lost == f - f1 && f1 <= f
    requires b == BidVariance(Floor(z + f * r, d), sp, cap) && b1 == BidVariance(Floor(z + f1 * r, d), sp, cap)
    requires k == BidImpactSlope(i, r, d, sp) && b < cap
    requires lift * WAD <= i * u <= lift * WAD + n * WAD
    ensures (d * BPS) * (b1 * WAD + k * u - b * WAD)
      <= (lost * r) * ((BPS - sp) * WAD) + (d * BPS) * WAD + (n * r + d) * ((BPS - sp) * WAD)
    ensures (d * BPS) * (b1 * WAD + k * u - b * WAD)
      >= (lost * r) * ((BPS - sp) * WAD) - d * ((BPS - sp) * WAD) - (d * BPS) * WAD - (d * BPS) * u
  {
    hide BidVariance, BidImpactSlope, Floor;
    var x, p, p1, c := z + f * r, Floor(z + f * r, d), Floor(z + f1 * r, d), BPS - sp;
    Moved(z, f, f1, r, -(lift - lost));
    MulMono(f1, f, r);
    FloorMono(z + f1 * r, z + f * r, d);
    BidMono(p1, p, sp, cap);
    BidRounds(p, sp, cap);
    BidRounds(p1, sp, cap);
    BidSlopeRounds(i, r, d, sp);
    assert -(lift - lost) * r == -((lift - lost) * r);
    SurplusAbove(x, d, r, c, i, u, n, lift, lost, p, p1, b, b1, k);
    SurplusBelow(x, d, r, c, i, u, lift, lost, p, p1, b, b1, k);
  }

  /** Before the sale, and to within the roundings, a second sale starts above the margin by the drop the clamps
      swallow, spread over the window. */
  lemma SurplusBracket(s: SeriesState, t: nat, units: nat)
    requires s.Priceable() && s.QuoteAt(t).bidVariance < s.params.capVariance
    ensures var p := s.params;
      var d, r, c := p.expiry - p.start, p.expiry - s.processedThrough, (BPS - p.halfSpreadBps) * WAD;
      var lost := LostDrop(s, t, units) * r * c;
      && (d * BPS) * Surplus(s, t, units) <= lost + (d * BPS) * WAD + (r + d) * c
      && (d * BPS) * Surplus(s, t, units) >= lost - d * c - (d * BPS) * WAD - (d * BPS) * units
  {
    hide BidVariance, BidImpactSlope, ForwardVariance, Floor, DecaySkew;
    NoDropLostIffRoom(s, t, units);
    var p, lift := s.params, LiftOf(s.params, units);
    MulMono(0, s.RealizedSoFar(), s.processedThrough - p.start);
    ForwardMono(p.anchorVariance, s.SkewAt(t), lift, p.capVariance);
    QuotedSurplus(
      s.RealizedSoFar() * (s.processedThrough - p.start),
      ForwardVariance(p.anchorVariance, s.SkewAt(t), p.capVariance),
      ForwardVariance(p.anchorVariance, s.SkewAt(t) - lift, p.capVariance),
      p.expiry - s.processedThrough, p.expiry - p.start, p.halfSpreadBps, p.capVariance, p.impactPerUnit, units, 1,
      lift, LostDrop(s, t, units), s.QuoteAt(t).bidVariance, BidAt(s, s.SkewAt(t) - lift), s.QuoteAt(t).bidSlope);
  }

  lemma ForwardMono(anchor: nat, skew: int, lift: nat, cap: nat)
    ensures ForwardVariance(anchor, skew - lift, cap) <= ForwardVariance(anchor, skew, cap)
  {
  }

  // ---------------------------------------------------------------- two sales

  /** Two sales get no more of the area than one exactly when there is no surplus before the first. */
  lemma SplitSalesCoveredIffNoSurplus(s: SeriesState, fill: Fill, more: nat)
    requires s.Priceable() && fill.units <= s.outstandingUnits && more > 0
    ensures s.SoldBack(fill).Priceable()
    ensures var q, r := s.QuoteAt(fill.t), s.SoldBack(fill).QuoteAt(fill.t);
      SaleArea(q.bidVariance, q.bidSlope, fill.units) + SaleArea(r.bidVariance, r.bidSlope, more)
      <= SaleArea(q.bidVariance, q.bidSlope, fill.units + more)
      <==> Surplus(s, fill.t, fill.units) <= 0
  {
    hide SaleArea, BidAt, SeriesState.QuoteAt, SeriesState.SoldBack;
    BidAfter(s, fill);
    var q, r := s.QuoteAt(fill.t), s.SoldBack(fill).QuoteAt(fill.t);
    SaleCoveredIffAtMargin(q.bidVariance, q.bidSlope, fill.units, r.bidVariance, more);
  }

  /** Where there is a surplus, two sales of sizes inside the zero-bid point are paid strictly more than one, once the
      surplus on the second is worth more than the roundings of the prices. */
  lemma SurplusPaysMore(s: SeriesState, fill: Fill, more: nat)
    requires s.Priceable() && fill.units <= s.outstandingUnits && Surplus(s, fill.t, fill.units) >= 0
    ensures s.SoldBack(fill).Priceable()
    ensures var q, r, n := s.QuoteAt(fill.t), s.SoldBack(fill).QuoteAt(fill.t), s.params.unitNotional;
      var surplus: nat := Surplus(s, fill.t, fill.units);
      && SaleArea(q.bidVariance, q.bidSlope, fill.units) + SaleArea(r.bidVariance, r.bidSlope, more)
         == SaleArea(q.bidVariance, q.bidSlope, fill.units + more) + 2 * (surplus * more)
      && (ExitIntegral(q.bidVariance, q.bidSlope, fill.units) >= 0 && ExitIntegral(r.bidVariance, r.bidSlope, more) >= 0
          && ExitIntegral(q.bidVariance, q.bidSlope, fill.units + more) >= 0
          && n * (surplus * more) >= WAD * (n + 2 * WAD2) ==>
            ExitProceeds(q.bidVariance, q.bidSlope, n, fill.units) + ExitProceeds(r.bidVariance, r.bidSlope, n, more)
            > ExitProceeds(q.bidVariance, q.bidSlope, n, fill.units + more))
  {
    hide SaleArea, BidAt, SeriesState.QuoteAt, SeriesState.SoldBack, ExitIntegral, ExitProceeds;
    BidAfter(s, fill);
    var q, r, n := s.QuoteAt(fill.t), s.SoldBack(fill).QuoteAt(fill.t), s.params.unitNotional;
    SaleAreaSplits(q.bidVariance, q.bidSlope, fill.units, r.bidVariance, more);
    if ExitIntegral(q.bidVariance, q.bidSlope, fill.units) >= 0 && ExitIntegral(r.bidVariance, r.bidSlope, more) >= 0
       && ExitIntegral(q.bidVariance, q.bidSlope, fill.units + more) >= 0 {
      PriceAboveArea(q.bidVariance, q.bidSlope, n, fill.units);
      PriceAboveArea(r.bidVariance, r.bidSlope, n, more);
      PriceBelowArea(q.bidVariance, q.bidSlope, n, fill.units + more);
      StrictlyMore(n, Surplus(s, fill.t, fill.units) * more, SaleArea(q.bidVariance, q.bidSlope, fill.units),
                   SaleArea(r.bidVariance, r.bidSlope, more), ExitProceeds(q.bidVariance, q.bidSlope, n, fill.units),
                   ExitProceeds(r.bidVariance, r.bidSlope, n, more),
                   ExitProceeds(q.bidVariance, q.bidSlope, n, fill.units + more));
    }
  }

  lemma PriceBelowArea(bid: nat, slope: nat, n: nat, units: nat)
    requires ExitIntegral(bid, slope, units) >= 0
    ensures 2 * WAD * WAD2 * ExitProceeds(bid, slope, n, units) <= n * (SaleArea(bid, slope, units) + 2 * WAD)
  {
    hide ExitIntegral, ExitProceeds;
    ProceedsBelow(bid, slope, n, units);
  }

  lemma StrictlyMore(n: nat, gained: nat, a1: int, a2: int, p1: nat, p2: nat, p: nat)
    requires n * a1 < 2 * WAD * WAD2 * (p1 + 1) && n * a2 < 2 * WAD * WAD2 * (p2 + 1)
    requires 2 * WAD * WAD2 * p <= n * (a1 + a2 - 2 * gained + 2 * WAD)
    ensures n * gained >= WAD * (n + 2 * WAD2) ==> p1 + p2 > p
  {
    assert n * (a1 + a2 - 2 * gained + 2 * WAD) == n * a1 + n * a2 - 2 * (n * gained) + 2 * WAD * n;
  }

  /** Held at either clamp, the forward variance does not fall at all, and everything the slope took off the first sale
      is a surplus for the second. */
  lemma HeldForwardHasSurplus(s: SeriesState, t: nat, units: nat)
    requires s.Priceable()
    requires s.params.anchorVariance + s.SkewAt(t) - LiftOf(s.params, units) >= s.params.capVariance
          || s.params.anchorVariance + s.SkewAt(t) <= 0
    ensures Surplus(s, t, units) == s.QuoteAt(t).bidSlope * units
    ensures LostDrop(s, t, units) == LiftOf(s.params, units)
  {
    hide Floor, DecaySkew, BidVariance, ProjectedVariance, BidImpactSlope;
  }

  /** So under a slope, two sales there always get strictly more of the area than one. */
  lemma HeldForwardPaysMore(s: SeriesState, fill: Fill, more: nat)
    requires s.Priceable() && fill.units <= s.outstandingUnits
    requires s.params.anchorVariance + s.SkewAt(fill.t) - LiftOf(s.params, fill.units) >= s.params.capVariance
          || s.params.anchorVariance + s.SkewAt(fill.t) <= 0
    requires s.QuoteAt(fill.t).bidSlope > 0 && fill.units > 0 && more > 0
    ensures s.SoldBack(fill).Priceable()
    ensures var q, r := s.QuoteAt(fill.t), s.SoldBack(fill).QuoteAt(fill.t);
      SaleArea(q.bidVariance, q.bidSlope, fill.units) + SaleArea(r.bidVariance, r.bidSlope, more)
      > SaleArea(q.bidVariance, q.bidSlope, fill.units + more)
  {
    hide SaleArea, BidAt, Surplus;
    HeldForwardHasSurplus(s, fill.t, fill.units);
    MulMono(1, s.QuoteAt(fill.t).bidSlope, fill.units);
    SplitSalesCoveredIffNoSurplus(s, fill, more);
  }

  /** Where there is no surplus, two sales are paid at most what their own roundings are worth over the price of one. */
  lemma NoSurplusGainsOnlyRoundings(s: SeriesState, fill: Fill, more: nat)
    requires s.Priceable() && fill.units <= s.outstandingUnits && Surplus(s, fill.t, fill.units) <= 0
    requires fill.units + more <= ExitUnitsToZeroBid(s.QuoteAt(fill.t).bidVariance, s.QuoteAt(fill.t).bidSlope)
    requires s.SoldBack(fill).Priceable()
    requires ExitIntegral(s.SoldBack(fill).QuoteAt(fill.t).bidVariance, s.QuoteAt(fill.t).bidSlope, more) >= 0
    ensures ExitIntegral(s.QuoteAt(fill.t).bidVariance, s.QuoteAt(fill.t).bidSlope, fill.units) >= 0
    ensures ExitIntegral(s.QuoteAt(fill.t).bidVariance, s.QuoteAt(fill.t).bidSlope, fill.units + more) >= 0
    ensures var q, r, n := s.QuoteAt(fill.t), s.SoldBack(fill).QuoteAt(fill.t), s.params.unitNotional;
      ExitProceeds(q.bidVariance, q.bidSlope, n, fill.units) + ExitProceeds(r.bidVariance, q.bidSlope, n, more)
      <= ExitProceeds(q.bidVariance, q.bidSlope, n, fill.units + more) + SplitWorth(n, fill.units + more, 0, 2)
  {
    hide BidAt, SeriesState.QuoteAt, SeriesState.SoldBack, ExitIntegral, ExitProceeds, ExitUnitsToZeroBid, SplitWorth;
    BidAfter(s, fill);
    var q, r, n := s.QuoteAt(fill.t), s.SoldBack(fill).QuoteAt(fill.t), s.params.unitNotional;
    FewerUnitsFit(q.bidVariance, q.bidSlope, fill.units, fill.units + more);
    ZeroBidClampFits(q.bidVariance, q.bidSlope, fill.units);
    ZeroBidClampFits(q.bidVariance, q.bidSlope, fill.units + more);
    var first := Sale(q.bidVariance, fill.units, ExitProceeds(q.bidVariance, q.bidSlope, n, fill.units));
    var second := Sale(r.bidVariance, more, ExitProceeds(r.bidVariance, q.bidSlope, n, more));
    var rest, sales := [second], [first, second];
    assert sales[1..] == rest && rest[1..] == [];
    assert TotalSold(rest) == more;
    assert TotalPaid(rest[1..]) == 0 && TotalPaid(rest) == rest[0].quote + TotalPaid(rest[1..]);
    assert WithinBid(q.bidVariance, q.bidSlope, fill.units, rest, 0);
    assert WithinBid(q.bidVariance, q.bidSlope, 0, sales, 0);
    SplittingSalesGainsAtMost(q.bidVariance, q.bidSlope, n, sales, 0);
  }

  lemma FewerUnitsFit(bid: nat, slope: nat, units: nat, more: nat)
    requires units <= more <= ExitUnitsToZeroBid(bid, slope)
    ensures units <= ExitUnitsToZeroBid(bid, slope)
  {
  }

  // ---------------------------------------------------------------- any number of sales

  /** One sale after another at the same time, each filled as far as it goes. */
  ghost function SellOff(s: SeriesState, v: VaultState, t: nat, actor: string, sizes: seq<nat>)
    : (SeriesState, VaultState)
    requires SeriesInv(s) && Backs(v, s)
    decreases sizes
  {
    if sizes == [] then (s, v)
    else
      ExitKeeps(s, v, t, actor, sizes[0]);
      var r := s.Exit(v, t, actor, sizes[0]);
      if r.Err? then SellOff(s, v, t, actor, sizes[1..])
      else SellOff(r.value.series, r.value.vault, t, actor, sizes[1..])
  }

  /** The fills of a sell-off, each with the bid it was priced at. */
  ghost function SellOffSales(s: SeriesState, v: VaultState, t: nat, actor: string, sizes: seq<nat>): seq<Sale>
    requires SeriesInv(s) && Backs(v, s)
    decreases sizes
  {
    if sizes == [] then []
    else
      ExitKeeps(s, v, t, actor, sizes[0]);
      var r := s.Exit(v, t, actor, sizes[0]);
      if r.Err? then SellOffSales(s, v, t, actor, sizes[1..])
      else
        var rest := SellOffSales(r.value.series, r.value.vault, t, actor, sizes[1..]);
        if r.value.fill.None? then rest
        else [Sale(s.QuoteAt(t).bidVariance, r.value.fill.value.units, r.value.fill.value.quote)] + rest
  }

  /** The same clock and checkpoints as another state, with the skew at `t` lowered by `lift`. */
  ghost predicate SoldDown(s0: SeriesState, s: SeriesState, t: nat, lift: nat) {
    && s.params == s0.params
    && s.processedThrough == s0.processedThrough
    && s.sumSquaredReturns == s0.sumSquaredReturns
    && s.SkewAt(t) == s0.SkewAt(t) - lift
  }

  lemma SoldDownQuotes(s0: SeriesState, s: SeriesState, t: nat, lift: nat)
    requires s0.Priceable() && s.Priceable() && SoldDown(s0, s, t, lift)
    ensures s.QuoteAt(t).bidVariance == BidAt(s0, s0.SkewAt(t) - lift)
    ensures s.QuoteAt(t).bidSlope == s0.QuoteAt(t).bidSlope
  {
    hide BidVariance, BidImpactSlope, ForwardVariance, DecaySkew;
  }

  /** What the roundings of the lifts, the projections and the bids can add up to, in 1e-18ths, at the last of `sales`
      sales. */
  function SaleGap(p: Params, sales: nat): nat
    requires p.halfSpreadBps < BPS
  {
    WAD + Floor((BPS - p.halfSpreadBps) * WAD * sales, BPS)
  }

  lemma SaleGapMono(p: Params, n: nat, m: nat)
    requires p.halfSpreadBps < BPS && n <= m
    ensures SaleGap(p, n) <= SaleGap(p, m)
  {
    hide Floor;
    var c := (BPS - p.halfSpreadBps) * WAD;
    MulMono(n, m, c);
    FloorMono(c * n, c * m, BPS);
  }

  /** Room for `total` units sold from `s` at `t`: for the drop of the forward variance, and before the zero-bid point,
      with a bid the cap does not hold. */
  predicate RoomToSell(s: SeriesState, t: nat, total: nat)
    requires s.Priceable()
  {
    && s.QuoteAt(t).bidVariance < s.params.capVariance
    && total <= ExitUnitsToZeroBid(s.QuoteAt(t).bidVariance, s.QuoteAt(t).bidSlope)
    && DropHasRoom(s, t, total)
  }

  lemma DropUnclamped(anchor: nat, skew: int, lift: nat, cap: nat)
    requires anchor + skew <= cap && 0 <= anchor + skew - lift
    ensures ForwardVariance(anchor, skew, cap) == anchor + skew
    ensures ForwardVariance(anchor, skew - lift, cap) == anchor + skew - lift
  {
  }

  /** With room, after `sold` units in `n` sales the bid is within the rounding gap of the margin. */
  lemma BidWithRoom(s: SeriesState, t: nat, sold: nat, lift: nat, n: nat)
    requires s.Priceable() && s.QuoteAt(t).bidVariance < s.params.capVariance
    requires s.params.anchorVariance + s.SkewAt(t) <= s.params.capVariance
    requires 0 <= s.params.anchorVariance + s.SkewAt(t) - lift
    requires lift * WAD <= s.params.impactPerUnit * sold <= lift * WAD + n * WAD
    ensures BidAt(s, s.SkewAt(t) - lift) * WAD
         <= s.QuoteAt(t).bidVariance * WAD - s.QuoteAt(t).bidSlope * sold + SaleGap(s.params, n + 1)
  {
    hide BidVariance, BidImpactSlope, ForwardVariance, Floor, DecaySkew, SaleGap;
    var p, f := s.params, s.params.anchorVariance + s.SkewAt(t);
    DropUnclamped(p.anchorVariance, s.SkewAt(t), lift, p.capVariance);
    var b, b1, k := s.QuoteAt(t).bidVariance, BidAt(s, s.SkewAt(t) - lift), s.QuoteAt(t).bidSlope;
    var d, r := p.expiry - p.start, p.expiry - s.processedThrough;
    MulMono(0, s.RealizedSoFar(), s.processedThrough - p.start);
    QuotedSurplus(s.RealizedSoFar() * (s.processedThrough - p.start), f, f - lift, r, d, p.halfSpreadBps,
                  p.capVariance, p.impactPerUnit, sold, n, lift, 0, b, b1, k);
    SaleGapCovers(b1 * WAD + k * sold - b * WAD, p, n, d, r);
  }

  lemma SaleGapCovers(g: int, p: Params, n: nat, d: nat, r: nat)
    requires 0 < d && r <= d && p.halfSpreadBps < BPS
    requires (d * BPS) * g
      <= (0 * r) * ((BPS - p.halfSpreadBps) * WAD) + (d * BPS) * WAD + (n * r + d) * ((BPS - p.halfSpreadBps) * WAD)
    ensures g <= SaleGap(p, n + 1)
  {
    hide Floor;
    var c := (BPS - p.halfSpreadBps) * WAD;
    MulMono(r, d, n);
    MulMono(n * r + d, n * d + d, c);
    GapPerDay(g, 0, n, d, c);
    FloorIs(c * (n + 1), BPS, g - WAD);
  }

  lemma SaleWithinBid(s: SeriesState, t: nat, sold: nat, lift: nat, n: nat, total: nat, m: nat)
    requires s.Priceable() && RoomToSell(s, t, total) && sold <= total && n + 1 <= m
    requires lift * WAD <= s.params.impactPerUnit * sold <= lift * WAD + n * WAD
    ensures BidAt(s, s.SkewAt(t) - lift) * WAD
         <= s.QuoteAt(t).bidVariance * WAD - s.QuoteAt(t).bidSlope * sold + SaleGap(s.params, m)
  {
    hide BidAt, SaleGap, Floor, DecaySkew, ExitUnitsToZeroBid, SeriesState.QuoteAt;
    MulMono(sold, total, s.params.impactPerUnit);
    FloorIs(s.params.impactPerUnit * total, WAD, lift);
    BidWithRoom(s, t, sold, lift, n);
    SaleGapMono(s.params, n + 1, m);
  }

  lemma {:induction false} SellOffWithinBid(
    s0: SeriesState, s: SeriesState, v: VaultState, t: nat, actor: string, sizes: seq<nat>,
    sold: nat, lift: nat, n: nat, total: nat, m: nat)
    requires s0.Priceable() && SeriesInv(s) && Backs(v, s) && RoomToSell(s0, t, total)
    requires s.Priceable() && SoldDown(s0, s, t, lift)
    requires lift * WAD <= s0.params.impactPerUnit * sold <= lift * WAD + n * WAD
    requires sold + TotalSold(SellOffSales(s, v, t, actor, sizes)) <= total && n + |sizes| <= m
    ensures WithinBid(s0.QuoteAt(t).bidVariance, s0.QuoteAt(t).bidSlope, sold,
                      SellOffSales(s, v, t, actor, sizes), SaleGap(s0.params, m))
    decreases sizes
  {
    hide SeriesState.QuoteAt, SeriesState.Exit, SeriesState.SkewAt, BidAt, SaleGap, Floor, RoomToSell, SeriesInv,
         ExitProceeds, ExitIntegral;
    if sizes != [] {
      ExitKeeps(s, v, t, actor, sizes[0]);
      SellIs(s, v, t, actor, sizes[0]);
      var r, rest := s.Exit(v, t, actor, sizes[0]), sizes[1..];
      if r.Err? {
        SellOffWithinBid(s0, s, v, t, actor, rest, sold, lift, n, total, m);
      } else if r.value.fill.None? {
        SellOffWithinBid(s0, s, v, t, actor, rest, sold, lift, n, total, m);
      } else {
        var fill := r.value.fill.value;
        BidAfter(s, fill);
        SoldDownQuotes(s0, s, t, lift);
        SaleWithinBid(s0, t, sold, lift, n, total, m);
        LiftsAdd(s0.params.impactPerUnit, sold, fill.units, lift, n);
        SellOffWithinBid(s0, r.value.series, r.value.vault, t, actor, rest, sold + fill.units,
                         lift + LiftOf(s0.params, fill.units), n + 1, total, m);
      }
    }
  }

  lemma {:induction false} SellOffSums(s: SeriesState, v: VaultState, t: nat, actor: string, sizes: seq<nat>)
    requires SeriesInv(s) && Backs(v, s)
    ensures var after, sales := SellOff(s, v, t, actor, sizes).0, SellOffSales(s, v, t, actor, sizes);
      && TotalSold(sales) == s.outstandingUnits - after.outstandingUnits
      && TotalPaid(sales) == after.exitPaid - s.exitPaid
      && |sales| <= |sizes|
    decreases sizes
  {
    hide SeriesState.QuoteAt, SeriesState.Exit, ExitProceeds, ExitIntegral, SeriesInv;
    if sizes != [] {
      ExitKeeps(s, v, t, actor, sizes[0]);
      SellIs(s, v, t, actor, sizes[0]);
      var r := s.Exit(v, t, actor, sizes[0]);
      if r.Err? {
        SellOffSums(s, v, t, actor, sizes[1..]);
      } else {
        SellOffSums(r.value.series, r.value.vault, t, actor, sizes[1..]);
      }
    }
  }

  lemma {:induction false} SellOffPriced(s: SeriesState, v: VaultState, t: nat, actor: string, sizes: seq<nat>)
    requires SeriesInv(s) && Backs(v, s)
    ensures s.Priceable()
    ensures Priced(SellOffSales(s, v, t, actor, sizes), s.QuoteAt(t).bidSlope, s.params.unitNotional)
    decreases sizes
  {
    InvPriceable(s);
    hide SeriesState.QuoteAt, SeriesState.Exit, SeriesState.SkewAt, ExitProceeds, ExitIntegral, SeriesInv, BidAt;
    if sizes != [] {
      ExitKeeps(s, v, t, actor, sizes[0]);
      SellIs(s, v, t, actor, sizes[0]);
      var r := s.Exit(v, t, actor, sizes[0]);
      if r.Err? {
        SellOffPriced(s, v, t, actor, sizes[1..]);
      } else {
        SellOffPriced(r.value.series, r.value.vault, t, actor, sizes[1..]);
        if r.value.fill.Some? {
          BidAfter(s, r.value.fill.value);
        }
      }
    }
  }

  /** A sale that fills finds the series open and its checkpoints current. */
  lemma FillsWhenOpen(s: SeriesState, v: VaultState, t: nat, actor: string, units: nat)
    requires SeriesInv(s) && Backs(v, s)
    ensures s.Priceable()
    ensures var r := s.Exit(v, t, actor, units); r.Ok? && r.value.fill.Some? ==> s.ExitOpen(t) && s.IsCurrent(t)
  {
    InvPriceable(s);
    hide SeriesInv, SeriesState.ExitFill, SeriesState.AvailableSamples;
  }

  lemma {:induction false} SellsWhenOpen(s: SeriesState, v: VaultState, t: nat, actor: string, sizes: seq<nat>)
    requires SeriesInv(s) && Backs(v, s)
    ensures s.Priceable()
    ensures SellOffSales(s, v, t, actor, sizes) != [] ==> s.ExitOpen(t) && s.IsCurrent(t)
    decreases sizes
  {
    InvPriceable(s);
    hide SeriesState.QuoteAt, SeriesState.Exit, ExitProceeds, ExitIntegral, SeriesInv;
    if sizes != [] {
      ExitKeeps(s, v, t, actor, sizes[0]);
      SellIs(s, v, t, actor, sizes[0]);
      FillsWhenOpen(s, v, t, actor, sizes[0]);
      SellsWhenOpen(s, v, t, actor, sizes[1..]);
    }
  }

  /** The price of a sale is inside the reservation it releases. */
  lemma ReleaseCoversPrice(s: SeriesState, t: nat, units: nat)
    requires s.Priceable() && units <= s.outstandingUnits
    requires ExitIntegral(s.QuoteAt(t).bidVariance, s.QuoteAt(t).bidSlope, units) >= 0
    ensures ExitProceeds(s.QuoteAt(t).bidVariance, s.QuoteAt(t).bidSlope, s.params.unitNotional, units)
            + s.Reserve(s.outstandingUnits - units) <= s.Reserve(s.outstandingUnits)
  {
    hide ExitProceeds, ExitIntegral, Floor, BidVariance, MaxLiability;
    var p, q := s.params, s.QuoteAt(t);
    BidMono(q.projectedVariance, q.projectedVariance, p.halfSpreadBps, p.capVariance);
    Funding.ExitPaysWithinCap(q.bidVariance, q.bidSlope, p.unitNotional, p.capVariance, units);
    Funding.ReserveDrop(s.outstandingUnits - units, units, p.unitNotional, p.capVariance);
  }

  /** Neither the reservation it releases nor the balance ever cuts a sale. */
  lemma SaleFillIs(s: SeriesState, v: VaultState, t: nat, actor: string, units: nat)
    requires SeriesInv(s) && Backs(v, s) && s.Priceable() && !s.finalized && 0 < units <= s.outstandingUnits
    requires units <= ExitUnitsToZeroBid(s.QuoteAt(t).bidVariance, s.QuoteAt(t).bidSlope)
    ensures ExitIntegral(s.QuoteAt(t).bidVariance, s.QuoteAt(t).bidSlope, units) >= 0
    ensures var q := s.QuoteAt(t);
      var price := ExitProceeds(q.bidVariance, q.bidSlope, s.params.unitNotional, units);
      s.ExitFill(v.balance, t, actor, units)
      == Ok(if price == 0 then None else Some(Fill(t, ExitLeg, actor, units, price, false)))
  {
    var q := s.QuoteAt(t);
    ZeroBidClampFits(q.bidVariance, q.bidSlope, units);
    ReleaseCoversPrice(s, t, units);
    assert s.lockedLiability == s.Reserve(s.outstandingUnits);
    hide SeriesState.QuoteAt, ExitProceeds, ExitIntegral, ExitUnitsToZeroBid, MaxLiability, SeriesInv;
  }

  /** One sale of a size inside the position and before the zero-bid point is paid exactly its price. */
  lemma OneSalePays(s: SeriesState, v: VaultState, t: nat, actor: string, units: nat)
    requires SeriesInv(s) && Backs(v, s) && s.Priceable() && s.ExitOpen(t) && s.IsCurrent(t)
    requires 0 < units <= s.outstandingUnits
    requires units <= ExitUnitsToZeroBid(s.QuoteAt(t).bidVariance, s.QuoteAt(t).bidSlope)
    ensures ExitIntegral(s.QuoteAt(t).bidVariance, s.QuoteAt(t).bidSlope, units) >= 0
    ensures var r, q := s.Exit(v, t, actor, units), s.QuoteAt(t);
      && r.Ok?
      && r.value.series.exitPaid
         == s.exitPaid + ExitProceeds(q.bidVariance, q.bidSlope, s.params.unitNotional, units)
  {
    SaleFillIs(s, v, t, actor, units);
    ExitKeeps(s, v, t, actor, units);
    hide SeriesState.QuoteAt, ExitProceeds, ExitIntegral, ExitUnitsToZeroBid, SeriesState.SkewAt, SeriesState.ExitFill,
         SeriesState.Reserve, SeriesInv, Accounted;
  }

  /** Any number of live sales at one time: where the forward variance has room for the whole drop, the bid is inside
      the cap and one sale of it all stays before the zero-bid point, they are paid at most the roundings' worth more
      than that one live sale. */
  lemma SellOffGainsOnlyRoundings(s: SeriesState, v: VaultState, t: nat, actor: string, sizes: seq<nat>)
    requires SeriesInv(s) && Backs(v, s)
    ensures s.Priceable()
    ensures var after, total := SellOff(s, v, t, actor, sizes).0, TotalSold(SellOffSales(s, v, t, actor, sizes));
      && after.outstandingUnits == s.outstandingUnits - total
      && (total > 0 && RoomToSell(s, t, total) ==>
            var one := s.Exit(v, t, actor, total);
            && one.Ok?
            && after.exitPaid
               <= one.value.series.exitPaid
                  + SplitWorth(s.params.unitNotional, total, SaleGap(s.params, |sizes|), |sizes|))
  {
    InvPriceable(s);
    SellOffSums(s, v, t, actor, sizes);
    SellOffPriced(s, v, t, actor, sizes);
    SellsWhenOpen(s, v, t, actor, sizes);
    var sales := SellOffSales(s, v, t, actor, sizes);
    hide SeriesInv, SeriesState.QuoteAt, SeriesState.Exit, SellOff, SellOffSales, ExitProceeds, ExitIntegral, Priced,
         WithinBid, SplitWorth, SaleGap, DropHasRoom, DecaySkew, ExitUnitsToZeroBid, TotalPaid;
    var total, n := TotalSold(sales), s.params.unitNotional;
    if total > 0 && RoomToSell(s, t, total) {
      OneSalePays(s, v, t, actor, total);
      SellOffWithinBid(s, s, v, t, actor, sizes, 0, 0, 0, total, |sizes|);
      SplittingSalesGainsAtMost(s.QuoteAt(t).bidVariance, s.QuoteAt(t).bidSlope, n, sales, SaleGap(s.params, |sizes|));
      SplitWorthMono(n, total, SaleGap(s.params, |sizes|), |sales|, |sizes|);
    }
  }

  lemma SplitWorthMono(unitNotional: nat, units: nat, gap: nat, m: nat, k: nat)
    requires m <= k
    ensures SplitWorth(unitNotional, units, gap, m) <= SplitWorth(unitNotional, units, gap, k)
  {
    hide Ceil;
    MulMono(0, gap, units);
    MulMono(gap * units + WAD * m, gap * units + WAD * k, unitNotional);
    MulMono(0, unitNotional, gap * units + WAD * m);
    CeilMono(unitNotional * (gap * units + WAD * m), unitNotional * (gap * units + WAD * k), WAD * WAD2);
  }
}
