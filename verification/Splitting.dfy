/** Splitting a purchase on the live market, where every fill is priced on the quote the last one left. */
module LiveSplitting {
  import opened Arith
  import opened Pricing
  import opened Market
  import opened Solvency

  // ---------------------------------------------------------------- what a purchase will do, told before it

  /** How far a purchase lifts the skew. */
  function LiftOf(p: Params, units: nat): nat {
    Floor(p.impactPerUnit * units, WAD)
  }

  /** The ask the series would quote at a given skew, with its clock and checkpoints as they are. */
  function AskAt(s: SeriesState, skew: int): nat
    requires s.Priceable()
  {
    var p := s.params;
    var forward := ForwardVariance(p.anchorVariance, skew, p.capVariance);
    var projected := ProjectedVariance(
                       s.RealizedSoFar(), s.processedThrough - p.start, forward, p.expiry - s.processedThrough);
    AskVariance(projected, p.halfSpreadBps, p.capVariance)
  }

  /** How far below the marginal ask a second fill would start after `units` bought at `t`, in 1e-18ths. */
  function Shortfall(s: SeriesState, t: nat, units: nat): int
    requires s.Priceable()
  {
    var q := s.QuoteAt(t);
    q.askVariance * WAD + q.askSlope * units - AskAt(s, s.SkewAt(t) + LiftOf(s.params, units)) * WAD
  }

  /** The forward variance starts at or above zero, and the whole lift fits under the cap. */
  predicate ForwardHasRoom(s: SeriesState, t: nat, units: nat) {
    var forward := s.params.anchorVariance + s.SkewAt(t);
    0 <= forward && forward + LiftOf(s.params, units) <= s.params.capVariance
  }

  /** The part of the lift that the two clamps on the forward variance swallow. */
  function LostLift(s: SeriesState, t: nat, units: nat): int {
    var p, skew, lift := s.params, s.SkewAt(t), LiftOf(s.params, units);
    lift - (ForwardVariance(p.anchorVariance, skew + lift, p.capVariance)
            - ForwardVariance(p.anchorVariance, skew, p.capVariance))
  }

  /** Nothing is swallowed exactly when the forward variance has room. */
  lemma NothingLostIffRoom(s: SeriesState, t: nat, units: nat)
    ensures 0 <= LostLift(s, t, units) <= LiftOf(s.params, units)
    ensures LostLift(s, t, units) == 0 <==> LiftOf(s.params, units) == 0 || ForwardHasRoom(s, t, units)
  {
    hide Floor, DecaySkew;
  }

  /** A purchase moves the quote exactly as told: the ask to the lifted skew's, the slope not at all. */
  lemma QuoteAfter(s: SeriesState, fill: Fill)
    requires s.Priceable() && fill.units <= s.unitsAvailable
    ensures s.Bought(fill).Priceable()
    ensures s.Bought(fill).SkewAt(fill.t) == s.SkewAt(fill.t) + LiftOf(s.params, fill.units)
    ensures var r := s.Bought(fill).QuoteAt(fill.t);
      && r.askVariance == AskAt(s, s.SkewAt(fill.t) + LiftOf(s.params, fill.units))
      && r.askSlope == s.QuoteAt(fill.t).askSlope
  {
    hide Floor, AskVariance, AskImpactSlope, ForwardVariance, ProjectedVariance;
  }

  // ---------------------------------------------------------------- the shortfall, to within the roundings

  /** What the roundings of the lifts, the projections, the asks and the slope can add up to, in 1e-18ths, at the last
      of `fills` fills when those before it bought at most `units`. */
  function RoundingGap(p: Params, units: nat, fills: nat): nat {
    units + WAD + Floor((BPS + p.halfSpreadBps) * WAD * fills, BPS)
  }

  /** What a shortfall of `gap` on `units` is worth at most, in quote units rounded up. */
  function Worth(p: Params, units: nat, gap: nat): nat {
    Ceil(p.unitNotional * Ceil(units * gap, WAD), WAD2)
  }

  /** Two fills at a half-spread of at most 50%: the units bought first and four last places. */
  lemma TwoFillsFourPlaces(p: Params, units: nat)
    requires p.halfSpreadBps <= 5_000
    ensures RoundingGap(p, units, 2) <= units + 4 * WAD
  {
  }

  lemma SlopeAbove(k: int, d: int, i: int, c: int, r: int, u: nat, lift: int, n: int, w: int)
    requires k * d <= i * r * c + d && i * u <= lift * w + n * w && 0 <= r * c
    ensures (k * d) * u <= (lift * w + n * w) * (r * c) + d * u
  {
    MulMono(k * d, i * r * c + d, u);
    assert (i * r * c + d) * u == (i * u) * (r * c) + d * u;
    MulMono(i * u, lift * w + n * w, r * c);
  }

  lemma SlopeBelow(k: int, d: int, i: int, c: int, r: int, u: nat, lift: int, w: int)
    requires k * d >= i * r * c && i * u >= lift * w && 0 <= r * c
    ensures (k * d) * u >= (lift * w) * (r * c)
  {
    MulMono(i * r * c, k * d, u);
    assert (i * r * c) * u == (i * u) * (r * c);
    MulMono(lift * w, i * u, r * c);
  }

  /** An ask rounded up from a projection rounded down sits within one of each rounding above it. */
  lemma AskAbove(a: int, b: int, p: int, c: int, d: int, x: int, w: int)
    requires a * b <= p * c + b && p * d <= x && 0 <= d * w && 0 <= c * w
    ensures (a * b) * (d * w) <= x * (c * w) + b * (d * w)
  {
    MulMono(a * b, p * c + b, d * w);
    assert (p * c + b) * (d * w) == (p * d) * (c * w) + b * (d * w);
    MulMono(p * d, x, c * w);
  }

  lemma AskBelow(a: int, b: int, p: int, c: int, d: int, x: int, w: int)
    requires p * c <= a * b && x <= p * d + d && 0 <= d * w && 0 <= c * w
    ensures x * (c * w) <= (a * b) * (d * w) + d * (c * w)
  {
    MulMono(x, p * d + d, c * w);
    assert (p * d + d) * (c * w) == (p * c) * (d * w) + d * (c * w);
    MulMono(p * c, a * b, d * w);
  }

  lemma Collected(d: int, b: int, a: int, k: int, u: int, a1: int, w: int)
    ensures (d * b) * (a * w + k * u - a1 * w) == (a * b) * (d * w) + (k * (d * b)) * u - (a1 * b) * (d * w)
  {
  }

  lemma MoveOut(x: int, lift: int, lost: int, r: int, c: int, w: int)
    ensures (x + (lift - lost) * r) * (c * w) == x * (c * w) + (lift * w) * (r * c) - (lost * r) * (c * w)
  {
  }

  /** The shortfall is what the clamps swallowed, spread over the window, plus at most the roundings. */
  lemma ShortfallAbove(x: nat, d: nat, r: nat, c: nat, i: nat, u: nat, n: nat, lift: int, lost: int,
                       p: nat, p1: nat, a: nat, a1: nat, k: nat)
    requires p * d <= x && x + (lift - lost) * r <= p1 * d + d
    requires a * BPS <= p * c + BPS && p1 * c <= a1 * BPS
    requires k * (d * BPS) <= i * r * c + d * BPS && i * u <= lift * WAD + n * WAD
    ensures (d * BPS) * (a * WAD + k * u - a1 * WAD)
      <= (lost * r) * (c * WAD) + (d * BPS) * u + (d * BPS) * WAD + (n * r + d) * (c * WAD)
  {
    Collected(d, BPS, a, k, u, a1, WAD);
    SlopeAbove(k, d * BPS, i, c, r, u, lift, n, WAD);
    AskAbove(a, BPS, p, c, d, x, WAD);
    AskBelow(a1, BPS, p1, c, d, x + (lift - lost) * r, WAD);
    MoveOut(x, lift, lost, r, c, WAD);
    Regroup(lift, n, r, c, d, WAD);
  }

  lemma Regroup(lift: int, n: int, r: int, c: int, d: int, w: int)
    ensures (lift * w + n * w) * (r * c) == (lift * w) * (r * c) + (n * r) * (c * w)
    ensures (n * r + d) * (c * w) == (n * r) * (c * w) + d * (c * w)
    ensures BPS * (d * w) == (d * BPS) * w
  {
  }

  /** The shortfall is no less than what the clamps swallowed, but for one rounding of the projection and the ask. */
  lemma ShortfallBelow(x: nat, d: nat, r: nat, c: nat, i: nat, u: nat, lift: int, lost: int,
                       p: nat, p1: nat, a: nat, a1: nat, k: nat)
    requires x <= p * d + d && p1 * d <= x + (lift - lost) * r
    requires p * c <= a * BPS && a1 * BPS <= p1 * c + BPS
    requires i * r * c <= k * (d * BPS) && lift * WAD <= i * u
    ensures (d * BPS) * (a * WAD + k * u - a1 * WAD)
      >= (lost * r) * (c * WAD) - d * (c * WAD) - (d * BPS) * WAD
  {
    Collected(d, BPS, a, k, u, a1, WAD);
    SlopeBelow(k, d * BPS, i, c, r, u, lift, WAD);
    AskBelow(a, BPS, p, c, d, x, WAD);
    AskAbove(a1, BPS, p1, c, d, x + (lift - lost) * r, WAD);
    MoveOut(x, lift, lost, r, c, WAD);
    Regroup(lift, 0, r, c, d, WAD);
  }

  lemma AskRounds(p: nat, sp: nat, cap: nat)
    ensures var a := AskVariance(p, sp, cap);
      a * BPS <= p * (BPS + sp) + BPS && (a < cap ==> p * (BPS + sp) <= a * BPS)
  {
    hide Ceil;
    var a := MulDivUp(p, BPS + sp, BPS);
    CeilIs(p * (BPS + sp), BPS, a);
    CeilIs(p * (BPS + sp), BPS, a as int - 1);
  }

  lemma SlopeRounds(i: nat, r: nat, d: nat, sp: nat)
    requires d > 0
    ensures var k := AskImpactSlope(i, r, d, sp);
      i * r * (BPS + sp) <= k * (d * BPS) <= i * r * (BPS + sp) + d * BPS
  {
    hide Ceil;
    var k := Ceil(i * r * (BPS + sp), d * BPS);
    CeilIs(i * r * (BPS + sp), d * BPS, k);
    CeilIs(i * r * (BPS + sp), d * BPS, k as int - 1);
    CeilIs(0, d * BPS, 0);
  }

  lemma RoomToCap(a: nat, k: nat, cap: nat, u: nat)
    requires a < cap && u <= IssueUnitsToCap(a, k, cap)
    ensures k * u <= (cap - a) * WAD
  {
    hide Floor;
    if k > 0 {
      FloorIs((cap - a) * WAD, k, u);
    }
  }

  /** The bounds on the quoted values: for a size inside the cap clamp, lifted `lift` in at most `n` roundings. */
  lemma QuotedShortfall(z: nat, f: nat, f1: nat, r: nat, d: nat, sp: nat, cap: nat, i: nat, u: nat, n: nat, lift: nat,
                        lost: nat, a: nat, a1: nat, k: nat)
    requires 0 < d && r <= d && lift - lost == f1 - f
    requires a == AskVariance(Floor(z + f * r, d), sp, cap) && a1 == AskVariance(Floor(z + f1 * r, d), sp, cap)
    requires k == AskImpactSlope(i, r, d, sp) && a < cap && u <= IssueUnitsToCap(a, k, cap)
    requires lift * WAD <= i * u <= lift * WAD + n * WAD
    ensures (d * BPS) * (a * WAD + k * u - a1 * WAD)
      <= (lost * r) * ((BPS + sp) * WAD) + (d * BPS) * u + (d * BPS) * WAD + (n * r + d) * ((BPS + sp) * WAD)
    ensures (d * BPS) * (a * WAD + k * u - a1 * WAD)
      >= (lost * r) * ((BPS + sp) * WAD) - d * ((BPS + sp) * WAD) - (d * BPS) * WAD
  {
    hide AskVariance, AskImpactSlope, IssueUnitsToCap, Floor;
    var x, p, p1, c := z + f * r, Floor(z + f * r, d), Floor(z + f1 * r, d), BPS + sp;
    Moved(z, f, f1, r, lift - lost);
    AskRounds(p, sp, cap);
    AskRounds(p1, sp, cap);
    SlopeRounds(i, r, d, sp);
    ShortfallBelow(x, d, r, c, i, u, lift, lost, p, p1, a, a1, k);
    if a1 < cap {
      ShortfallAbove(x, d, r, c, i, u, n, lift, lost, p, p1, a, a1, k);
    } else {
      RoomToCap(a, k, cap, u);
      assert a1 == cap by { AskWithinCap(p1, sp, cap); }
      NoShortfall(a, k, cap, u, d, lost, r, c, n);
    }
  }

  lemma AskWithinCap(p: nat, sp: nat, cap: nat)
    ensures AskVariance(p, sp, cap) <= cap
  {
  }

  lemma Moved(z: int, f: int, f1: int, r: int, m: int)
    requires m == f1 - f
    ensures z + f1 * r == z + f * r + m * r
  {
  }

  lemma NoShortfall(a: nat, k: nat, cap: nat, u: nat, d: nat, lost: nat, r: nat, c: nat, n: nat)
    requires a * WAD + k * u <= cap * WAD
    ensures (d * BPS) * (a * WAD + k * u - cap * WAD)
      <= (lost * r) * (c * WAD) + (d * BPS) * u + (d * BPS) * WAD + (n * r + d) * (c * WAD)
  {
    MulMono(a * WAD + k * u - cap * WAD, 0, d * BPS);
    MulMono(0, lost, r);
    MulMono(0, lost * r, c * WAD);
    MulMono(0, d * BPS, u);
    MulMono(0, n, r);
    MulMono(0, n * r + d, c * WAD);
  }

  /** Before the purchase, and to within the roundings, a second fill starts below the margin by the lift the clamps
      swallow, spread over the window: no more than that and `units + 3` roundings, no less than it and two. */
  lemma ShortfallBracket(s: SeriesState, t: nat, units: nat)
    requires s.Priceable()
    requires s.QuoteAt(t).askVariance < s.params.capVariance
    requires units <= IssueUnitsToCap(s.QuoteAt(t).askVariance, s.QuoteAt(t).askSlope, s.params.capVariance)
    ensures var p := s.params;
      var d, r, c := p.expiry - p.start, p.expiry - s.processedThrough, (BPS + p.halfSpreadBps) * WAD;
      var lost := LostLift(s, t, units) * r * c;
      && (d * BPS) * Shortfall(s, t, units) <= lost + (d * BPS) * units + (d * BPS) * WAD + (r + d) * c
      && (d * BPS) * Shortfall(s, t, units) >= lost - d * c - (d * BPS) * WAD
  {
    hide AskVariance, AskImpactSlope, IssueUnitsToCap, ForwardVariance, Floor, DecaySkew;
    NothingLostIffRoom(s, t, units);
    var p, lift := s.params, LiftOf(s.params, units);
    MulMono(0, s.RealizedSoFar(), s.processedThrough - p.start);
    QuotedShortfall(
      s.RealizedSoFar() * (s.processedThrough - p.start),
      ForwardVariance(p.anchorVariance, s.SkewAt(t), p.capVariance),
      ForwardVariance(p.anchorVariance, s.SkewAt(t) + lift, p.capVariance),
      p.expiry - s.processedThrough, p.expiry - p.start, p.halfSpreadBps, p.capVariance, p.impactPerUnit, units, 1,
      lift, LostLift(s, t, units), s.QuoteAt(t).askVariance, AskAt(s, s.SkewAt(t) + lift), s.QuoteAt(t).askSlope);
  }

  /** With room for the forward variance, after `sold` units in `n` fills the ask is within the rounding gap of the
      margin. */
  lemma MarginWithRoom(s: SeriesState, t: nat, sold: nat, lift: nat, n: nat)
    requires s.Priceable()
    requires s.QuoteAt(t).askVariance < s.params.capVariance
    requires sold <= IssueUnitsToCap(s.QuoteAt(t).askVariance, s.QuoteAt(t).askSlope, s.params.capVariance)
    requires 0 <= s.params.anchorVariance + s.SkewAt(t)
    requires s.params.anchorVariance + s.SkewAt(t) + lift <= s.params.capVariance
    requires lift * WAD <= s.params.impactPerUnit * sold <= lift * WAD + n * WAD
    ensures AskAt(s, s.SkewAt(t) + lift) * WAD + RoundingGap(s.params, sold, n + 1)
         >= s.QuoteAt(t).askVariance * WAD + s.QuoteAt(t).askSlope * sold
  {
    hide AskVariance, AskImpactSlope, IssueUnitsToCap, ForwardVariance, Floor, DecaySkew, RoundingGap;
    var p, f := s.params, s.params.anchorVariance + s.SkewAt(t);
    Unclamped(p.anchorVariance, s.SkewAt(t), lift, p.capVariance);
    var a, a1, k := s.QuoteAt(t).askVariance, AskAt(s, s.SkewAt(t) + lift), s.QuoteAt(t).askSlope;
    var d, r := p.expiry - p.start, p.expiry - s.processedThrough;
    MulMono(0, s.RealizedSoFar(), s.processedThrough - p.start);
    QuotedShortfall(s.RealizedSoFar() * (s.processedThrough - p.start), f, f + lift, r, d, p.halfSpreadBps,
                    p.capVariance, p.impactPerUnit, sold, n, lift, 0, a, a1, k);
    GapCovers(a * WAD + k * sold - a1 * WAD, p, sold, n, d, r);
  }

  lemma Unclamped(anchor: nat, skew: int, lift: nat, cap: nat)
    requires 0 <= anchor + skew && anchor + skew + lift <= cap
    ensures ForwardVariance(anchor, skew, cap) == anchor + skew
    ensures ForwardVariance(anchor, skew + lift, cap) == anchor + skew + lift
  {
  }

  lemma GapCovers(g: int, p: Params, u: nat, n: nat, d: nat, r: nat)
    requires 0 < d && r <= d
    requires (d * BPS) * g
      <= (0 * r) * ((BPS + p.halfSpreadBps) * WAD) + (d * BPS) * u + (d * BPS) * WAD
         + (n * r + d) * ((BPS + p.halfSpreadBps) * WAD)
    ensures g <= RoundingGap(p, u, n + 1)
  {
    hide Floor;
    var c := (BPS + p.halfSpreadBps) * WAD;
    MulMono(r, d, n);
    MulMono(n * r + d, n * d + d, c);
    GapPerDay(g, u, n, d, c);
    FloorIs(c * (n + 1), BPS, g - u - WAD);
  }

  lemma GapPerDay(g: int, u: nat, n: nat, d: nat, c: nat)
    requires 0 < d && (d * BPS) * g <= (d * BPS) * u + (d * BPS) * WAD + (n * d + d) * c
    ensures BPS * g <= BPS * u + BPS * WAD + c * (n + 1)
  {
    assert (n * d + d) * c == d * (c * (n + 1));
    DivideOut(d, BPS * g, BPS * u + BPS * WAD + c * (n + 1));
  }

  lemma DivideOut(d: nat, x: int, y: int)
    requires 0 < d && d * x <= d * y
    ensures x <= y
  {
    if x > y {
      MulMono(y + 1, x, d);
    }
  }

  // ---------------------------------------------------------------- two fills

  /** A first fill and then `more` units at the quote it leaves cost less than both sizes in one fill. */
  predicate SplittingSaves(s: SeriesState, fill: Fill, more: nat)
    requires s.Priceable() && fill.units <= s.unitsAvailable
  {
    QuoteAfter(s, fill);
    var q, r, n := s.QuoteAt(fill.t), s.Bought(fill).QuoteAt(fill.t), s.params.unitNotional;
    IssuePremium(q.askVariance, q.askSlope, n, fill.units) + IssuePremium(r.askVariance, r.askSlope, n, more)
    < IssuePremium(q.askVariance, q.askSlope, n, fill.units + more)
  }

  /** Two fills cover the area under the single fill exactly when nothing is short before the first. */
  lemma SplitCoversIffNothingShort(s: SeriesState, fill: Fill, more: nat)
    requires s.Priceable() && fill.units <= s.unitsAvailable && more > 0
    ensures s.Bought(fill).Priceable()
    ensures var q, r := s.QuoteAt(fill.t), s.Bought(fill).QuoteAt(fill.t);
      Area(q.askVariance, q.askSlope, fill.units) + Area(r.askVariance, r.askSlope, more)
      >= Area(q.askVariance, q.askSlope, fill.units + more)
      <==> Shortfall(s, fill.t, fill.units) <= 0
  {
    hide Area, AskAt;
    QuoteAfter(s, fill);
    var q, r := s.QuoteAt(fill.t), s.Bought(fill).QuoteAt(fill.t);
    SliceCoversIffAtMargin(q.askVariance, q.askSlope, fill.units, r.askVariance, more);
  }

  /** Where something is short, the two fills cover less by exactly that on every later unit, and are strictly cheaper
      once it is worth more than the roundings of the premiums. */
  lemma ShortFillsAreCheaper(s: SeriesState, fill: Fill, more: nat)
    requires s.Priceable() && fill.units <= s.unitsAvailable && Shortfall(s, fill.t, fill.units) >= 0
    ensures s.Bought(fill).Priceable()
    ensures var q, r, n := s.QuoteAt(fill.t), s.Bought(fill).QuoteAt(fill.t), s.params.unitNotional;
      var short: nat := Shortfall(s, fill.t, fill.units);
      && Area(q.askVariance, q.askSlope, fill.units) + Area(r.askVariance, r.askSlope, more) + 2 * (short * more)
         == Area(q.askVariance, q.askSlope, fill.units + more)
      && (n * (short * more) >= 2 * WAD * (n + WAD2) ==>
            IssuePremium(q.askVariance, q.askSlope, n, fill.units) + IssuePremium(r.askVariance, r.askSlope, n, more)
            < IssuePremium(q.askVariance, q.askSlope, n, fill.units + more))
  {
    hide Area, AskAt, IssuePremium;
    QuoteAfter(s, fill);
    var q, r := s.QuoteAt(fill.t), s.Bought(fill).QuoteAt(fill.t);
    ShortfallSaves(q.askVariance, q.askSlope, s.params.unitNotional, fill.units, r.askVariance, more,
                   Shortfall(s, fill.t, fill.units));
  }

  /** Where nothing is short, what a buyer pays for the two fills is never less than the price of the one, to the last
      place. */
  lemma NothingShortNeverSaves(s: SeriesState, fill: Fill, more: nat)
    requires s.Priceable() && fill.units <= s.unitsAvailable && Shortfall(s, fill.t, fill.units) <= 0
    ensures !SplittingSaves(s, fill, more)
  {
    hide AskAt, SeriesState.QuoteAt, SeriesState.Bought, IssuePremium, Ceil;
    QuoteAfter(s, fill);
    var q, r := s.QuoteAt(fill.t), s.Bought(fill).QuoteAt(fill.t);
    TwoSlices(q.askVariance, q.askSlope, s.params.unitNotional, fill.units, r.askVariance, more, 0);
    CeilIs(0, WAD, 0);
    CeilIs(0, WAD2, 0);
  }

  lemma ShortFillsSave(s: SeriesState, fill: Fill, more: nat)
    requires s.Priceable() && fill.units <= s.unitsAvailable && Shortfall(s, fill.t, fill.units) > 0
    requires more == 2 * WAD * (s.params.unitNotional + WAD2)
    ensures SplittingSaves(s, fill, more)
  {
    hide AskAt, SeriesState.QuoteAt, SeriesState.Bought, IssuePremium, Shortfall;
    ShortFillsAreCheaper(s, fill, more);
    MulMono(1, Shortfall(s, fill.t, fill.units), more);
    MulMono(1, s.params.unitNotional, Shortfall(s, fill.t, fill.units) * more);
  }

  /** Some second fill makes the pair cheaper than the single fill if and only if something is short before the
      first. */
  lemma SplittingCanSaveIffShort(s: SeriesState, fill: Fill)
    requires s.Priceable() && fill.units <= s.unitsAvailable
    ensures (exists more: nat :: SplittingSaves(s, fill, more)) <==> Shortfall(s, fill.t, fill.units) > 0
  {
    hide AskAt, SeriesState.QuoteAt, SeriesState.Bought, IssuePremium, SplittingSaves, Shortfall;
    if Shortfall(s, fill.t, fill.units) > 0 {
      ShortFillsSave(s, fill, 2 * WAD * (s.params.unitNotional + WAD2));
    } else {
      forall more: nat ensures !SplittingSaves(s, fill, more) {
        NothingShortNeverSaves(s, fill, more);
      }
    }
  }

  /** With room for the first fill's lift, and both fills inside the cap clamp, two fills save at most the roundings
      over the single fill. */
  lemma TwoFillsSaveOnlyRoundings(s: SeriesState, fill: Fill, more: nat)
    requires s.Priceable() && fill.units <= s.unitsAvailable && ForwardHasRoom(s, fill.t, fill.units)
    requires s.QuoteAt(fill.t).askVariance < s.params.capVariance
    requires fill.units + more
          <= IssueUnitsToCap(s.QuoteAt(fill.t).askVariance, s.QuoteAt(fill.t).askSlope, s.params.capVariance)
    ensures s.Bought(fill).Priceable()
    ensures var q, r, n := s.QuoteAt(fill.t), s.Bought(fill).QuoteAt(fill.t), s.params.unitNotional;
      IssuePremium(q.askVariance, q.askSlope, n, fill.units + more)
      <= IssuePremium(q.askVariance, q.askSlope, n, fill.units) + IssuePremium(r.askVariance, r.askSlope, n, more)
         + Worth(s.params, fill.units + more, RoundingGap(s.params, fill.units, 2))
  {
    hide AskAt, SeriesState.QuoteAt, SeriesState.Bought, IssueUnitsToCap, IssuePremium, RoundingGap, Floor, Ceil,
         DecaySkew;
    QuoteAfter(s, fill);
    MarginWithRoom(s, fill.t, fill.units, LiftOf(s.params, fill.units), 1);
    var q, r := s.QuoteAt(fill.t), s.Bought(fill).QuoteAt(fill.t);
    var gap := RoundingGap(s.params, fill.units, 2);
    TwoSlices(q.askVariance, q.askSlope, s.params.unitNotional, fill.units, r.askVariance, more, gap);
  }

  lemma TwoSlices(ask: nat, slope: nat, unitNotional: nat, units: nat, start: nat, more: nat, gap: nat)
    requires start * WAD + gap >= ask * WAD + slope * units
    ensures IssuePremium(ask, slope, unitNotional, units + more)
      <= IssuePremium(ask, slope, unitNotional, units) + IssuePremium(start, slope, unitNotional, more)
         + Ceil(unitNotional * Ceil((units + more) * gap, WAD), WAD2)
  {
    hide IssuePremium, Ceil;
    var first, second := Slice(ask, units), Slice(start, more);
    var slices := [first, second];
    assert slices[1..] == [second] && [second][1..] == [];
    assert WithinMargin(ask, slope, units, [second], gap);
    assert WithinMargin(ask, slope, 0, slices, gap);
    assert TotalUnits([second]) == more;
    assert TotalPremium([second], slope, unitNotional) == IssuePremium(start, slope, unitNotional, more);
    SplittingSavesAtMost(ask, slope, unitNotional, slices, gap);
  }

  /** Held at either clamp, the forward variance does not move at all, and everything the slope charged is short. */
  lemma HeldForwardIsShort(s: SeriesState, t: nat, units: nat)
    requires s.Priceable()
    requires s.params.anchorVariance + s.SkewAt(t) >= s.params.capVariance
          || s.params.anchorVariance + s.SkewAt(t) + LiftOf(s.params, units) <= 0
    ensures Shortfall(s, t, units) == s.QuoteAt(t).askSlope * units
    ensures LostLift(s, t, units) == LiftOf(s.params, units)
  {
    hide Floor, DecaySkew, AskVariance, ProjectedVariance, AskImpactSlope;
  }

  /** So under a slope, two fills there always cover strictly less than one. */
  lemma HeldForwardCoversLess(s: SeriesState, fill: Fill, more: nat)
    requires s.Priceable() && fill.units <= s.unitsAvailable
    requires s.params.anchorVariance + s.SkewAt(fill.t) >= s.params.capVariance
          || s.params.anchorVariance + s.SkewAt(fill.t) + LiftOf(s.params, fill.units) <= 0
    requires s.QuoteAt(fill.t).askSlope > 0 && fill.units > 0 && more > 0
    ensures s.Bought(fill).Priceable()
    ensures var q, r, n := s.QuoteAt(fill.t), s.Bought(fill).QuoteAt(fill.t), s.params.unitNotional;
      && Area(q.askVariance, q.askSlope, fill.units) + Area(r.askVariance, r.askSlope, more)
         < Area(q.askVariance, q.askSlope, fill.units + more)
      && (n * (q.askSlope * fill.units * more) >= 2 * WAD * (n + WAD2) ==>
            IssuePremium(q.askVariance, q.askSlope, n, fill.units) + IssuePremium(r.askVariance, r.askSlope, n, more)
            < IssuePremium(q.askVariance, q.askSlope, n, fill.units + more))
  {
    hide Area, AskAt, IssuePremium, Shortfall;
    HeldForwardIsShort(s, fill.t, fill.units);
    MulMono(1, s.QuoteAt(fill.t).askSlope, fill.units);
    MulMono(1, s.QuoteAt(fill.t).askSlope * fill.units, more);
    ShortFillsAreCheaper(s, fill, more);
  }

  // ---------------------------------------------------------------- any number of fills

  /** A spree: one offer after another at the same time, each filled as far as it goes. */
  ghost function Spree(s: SeriesState, v: VaultState, t: nat, actor: string, offers: seq<nat>)
    : (SeriesState, VaultState)
    requires SeriesInv(s) && Backs(v, s)
    decreases offers
  {
    if offers == [] then (s, v)
    else
      IssueKeeps(s, v, t, actor, offers[0]);
      var r := s.Issue(v, t, actor, offers[0]);
      if r.Err? then Spree(s, v, t, actor, offers[1..])
      else Spree(r.value.series, r.value.vault, t, actor, offers[1..])
  }

  /** The fills of a spree, each with the ask it was priced at. */
  ghost function SpreeSlices(s: SeriesState, v: VaultState, t: nat, actor: string, offers: seq<nat>): seq<Slice>
    requires SeriesInv(s) && Backs(v, s)
    decreases offers
  {
    if offers == [] then []
    else
      IssueKeeps(s, v, t, actor, offers[0]);
      var r := s.Issue(v, t, actor, offers[0]);
      if r.Err? then SpreeSlices(s, v, t, actor, offers[1..])
      else
        var rest := SpreeSlices(r.value.series, r.value.vault, t, actor, offers[1..]);
        if r.value.fill.None? then rest else [Slice(s.QuoteAt(t).askVariance, r.value.fill.value.units)] + rest
  }

  /** One offer either changes nothing or buys a priced size at the live quote. */
  lemma OfferIs(s: SeriesState, v: VaultState, t: nat, actor: string, amountIn: nat)
    requires SeriesInv(s) && Backs(v, s)
    ensures s.Priceable()
    ensures var r := s.Issue(v, t, actor, amountIn);
      r.Ok? ==>
        match r.value.fill
        case None => r.value.series == s && r.value.vault == v
        case Some(fill) =>
          && fill.t == t && fill.units <= s.unitsAvailable && r.value.series == s.Bought(fill)
          && fill.quote
             == IssuePremium(s.QuoteAt(t).askVariance, s.QuoteAt(t).askSlope, s.params.unitNotional, fill.units)
  {
    hide SeriesState.QuoteAt, UnitsFor, IssuePremium, SeriesState.Reserve;
    InvPriceable(s);
    IssueFillFits(s, v, t, actor, amountIn);
  }

  /** The same clock and checkpoints as another state, with the skew at `t` lifted by `lift`. */
  ghost predicate SameClock(s0: SeriesState, s: SeriesState, t: nat, lift: nat) {
    && s.params == s0.params
    && s.processedThrough == s0.processedThrough
    && s.sumSquaredReturns == s0.sumSquaredReturns
    && s.SkewAt(t) == s0.SkewAt(t) + lift
  }

  lemma SameClockQuotes(s0: SeriesState, s: SeriesState, t: nat, lift: nat)
    requires s0.Priceable() && s.Priceable() && SameClock(s0, s, t, lift)
    ensures s.QuoteAt(t).askVariance == AskAt(s0, s0.SkewAt(t) + lift)
    ensures s.QuoteAt(t).askSlope == s0.QuoteAt(t).askSlope
  {
    hide AskVariance, AskImpactSlope, ForwardVariance, DecaySkew;
  }

  lemma LiftsAdd(i: nat, sold: nat, units: nat, lift: nat, n: nat)
    requires lift * WAD <= i * sold <= lift * WAD + n * WAD
    ensures var lifted := (lift + Floor(i * units, WAD)) * WAD;
      lifted <= i * (sold + units) <= lifted + (n + 1) * WAD
  {
    hide Floor;
    assert i * (sold + units) == i * sold + i * units;
  }

  lemma RoundingGapMono(p: Params, u: nat, v: nat, n: nat, m: nat)
    requires u <= v && n <= m
    ensures RoundingGap(p, u, n) <= RoundingGap(p, v, m)
  {
    hide Floor;
    var c := (BPS + p.halfSpreadBps) * WAD;
    MulMono(n, m, c);
    FloorMono(c * n, c * m, BPS);
  }

  /** Room and cap clamp for `total` units bought from `s` at `t`. */
  predicate RoomFor(s: SeriesState, t: nat, total: nat)
    requires s.Priceable()
  {
    && s.QuoteAt(t).askVariance < s.params.capVariance
    && total <= IssueUnitsToCap(s.QuoteAt(t).askVariance, s.QuoteAt(t).askSlope, s.params.capVariance)
    && ForwardHasRoom(s, t, total)
  }

  lemma SliceWithinMargin(s: SeriesState, t: nat, sold: nat, lift: nat, n: nat, total: nat, m: nat)
    requires s.Priceable() && RoomFor(s, t, total) && sold <= total && n + 1 <= m
    requires lift * WAD <= s.params.impactPerUnit * sold <= lift * WAD + n * WAD
    ensures AskAt(s, s.SkewAt(t) + lift) * WAD + RoundingGap(s.params, total, m)
         >= s.QuoteAt(t).askVariance * WAD + s.QuoteAt(t).askSlope * sold
  {
    hide AskAt, RoundingGap, Floor, DecaySkew, IssueUnitsToCap, SeriesState.QuoteAt;
    MulMono(sold, total, s.params.impactPerUnit);
    FloorIs(s.params.impactPerUnit * total, WAD, lift);
    MarginWithRoom(s, t, sold, lift, n);
    RoundingGapMono(s.params, sold, total, n + 1, m);
  }

  lemma {:induction false} SpreeWithinMargin(
    s0: SeriesState, s: SeriesState, v: VaultState, t: nat, actor: string, offers: seq<nat>,
    sold: nat, lift: nat, n: nat, total: nat, m: nat)
    requires s0.Priceable() && SeriesInv(s) && Backs(v, s) && RoomFor(s0, t, total)
    requires s.Priceable() && SameClock(s0, s, t, lift)
    requires lift * WAD <= s0.params.impactPerUnit * sold <= lift * WAD + n * WAD
    requires sold + TotalUnits(SpreeSlices(s, v, t, actor, offers)) <= total && n + |offers| <= m
    ensures WithinMargin(s0.QuoteAt(t).askVariance, s0.QuoteAt(t).askSlope, sold,
                         SpreeSlices(s, v, t, actor, offers), RoundingGap(s0.params, total, m))
    decreases offers
  {
    hide SeriesState.QuoteAt, SeriesState.Issue, SeriesState.SkewAt, AskAt, RoundingGap, Floor, RoomFor, SeriesInv;
    if offers != [] {
      IssueKeeps(s, v, t, actor, offers[0]);
      OfferIs(s, v, t, actor, offers[0]);
      var r, rest := s.Issue(v, t, actor, offers[0]), offers[1..];
      if r.Err? {
        SpreeWithinMargin(s0, s, v, t, actor, rest, sold, lift, n, total, m);
      } else if r.value.fill.None? {
        SpreeWithinMargin(s0, s, v, t, actor, rest, sold, lift, n, total, m);
      } else {
        var fill := r.value.fill.value;
        QuoteAfter(s, fill);
        SameClockQuotes(s0, s, t, lift);
        SliceWithinMargin(s0, t, sold, lift, n, total, m);
        LiftsAdd(s0.params.impactPerUnit, sold, fill.units, lift, n);
        SpreeWithinMargin(s0, r.value.series, r.value.vault, t, actor, rest, sold + fill.units,
                          lift + LiftOf(s0.params, fill.units), n + 1, total, m);
      }
    }
  }

  lemma {:induction false} SpreeSums(s: SeriesState, v: VaultState, t: nat, actor: string, offers: seq<nat>)
    requires SeriesInv(s) && Backs(v, s)
    ensures s.Priceable()
    ensures var (after, slices) := (Spree(s, v, t, actor, offers).0, SpreeSlices(s, v, t, actor, offers));
      && TotalUnits(slices) == after.outstandingUnits - s.outstandingUnits
      && TotalPremium(slices, s.QuoteAt(t).askSlope, s.params.unitNotional) == after.premiumTaken - s.premiumTaken
    decreases offers
  {
    InvPriceable(s);
    hide SeriesState.QuoteAt, SeriesState.Issue, SeriesState.SkewAt, IssuePremium, SeriesInv;
    if offers != [] {
      IssueKeeps(s, v, t, actor, offers[0]);
      OfferIs(s, v, t, actor, offers[0]);
      var r := s.Issue(v, t, actor, offers[0]);
      if r.Err? {
        SpreeSums(s, v, t, actor, offers[1..]);
      } else {
        SpreeSums(r.value.series, r.value.vault, t, actor, offers[1..]);
        if r.value.fill.Some? {
          QuoteAfter(s, r.value.fill.value);
        }
      }
    }
  }

  /** Any spree, of any number of live purchases at one time: where the forward variance has room for everything it
      buys and a single fill of that size stays inside the cap clamp, it saves at most the roundings over that fill. */
  lemma SpreeSavesOnlyRoundings(s: SeriesState, v: VaultState, t: nat, actor: string, offers: seq<nat>)
    requires SeriesInv(s) && Backs(v, s)
    ensures s.Priceable()
    ensures var after, total := Spree(s, v, t, actor, offers).0, TotalUnits(SpreeSlices(s, v, t, actor, offers));
      && after.outstandingUnits == s.outstandingUnits + total
      && (RoomFor(s, t, total) ==>
            var q, n := s.QuoteAt(t), s.params.unitNotional;
            IssuePremium(q.askVariance, q.askSlope, n, total)
            <= after.premiumTaken - s.premiumTaken + Worth(s.params, total, RoundingGap(s.params, total, |offers|)))
  {
    InvPriceable(s);
    hide SeriesState.QuoteAt, IssuePremium, RoundingGap, Ceil, RoomFor, Spree, SpreeSlices, SeriesInv, TotalPremium,
         WithinMargin, DecaySkew;
    SpreeSums(s, v, t, actor, offers);
    var slices := SpreeSlices(s, v, t, actor, offers);
    var total := TotalUnits(slices);
    if RoomFor(s, t, total) {
      SpreeWithinMargin(s, s, v, t, actor, offers, 0, 0, 0, total, |offers|);
      SplittingSavesAtMost(s.QuoteAt(t).askVariance, s.QuoteAt(t).askSlope, s.params.unitNotional, slices,
                           RoundingGap(s.params, total, |offers|));
    }
  }

  /** Nothing is short before any fill of the spree that another follows. */
  ghost predicate NothingShort(s: SeriesState, v: VaultState, t: nat, actor: string, offers: seq<nat>)
    requires SeriesInv(s) && Backs(v, s)
    decreases offers
  {
    offers == []
    || (IssueKeeps(s, v, t, actor, offers[0]);
        var r := s.Issue(v, t, actor, offers[0]);
        if r.Err? then NothingShort(s, v, t, actor, offers[1..])
        else
          && NothingShort(r.value.series, r.value.vault, t, actor, offers[1..])
          && (r.value.fill.Some? && SpreeSlices(r.value.series, r.value.vault, t, actor, offers[1..]) != [] ==>
                Shortfall(s, t, r.value.fill.value.units) <= 0))
  }

  /** Such a spree never starts a fill below the margin of the first. */
  lemma {:induction false} SpreeStaysAtMargin(
    s: SeriesState, v: VaultState, t: nat, actor: string, offers: seq<nat>, ask: nat, sold: nat)
    requires SeriesInv(s) && Backs(v, s) && NothingShort(s, v, t, actor, offers)
    requires s.Priceable()
    requires SpreeSlices(s, v, t, actor, offers) != [] ==>
               s.QuoteAt(t).askVariance * WAD >= ask * WAD + s.QuoteAt(t).askSlope * sold
    ensures WithinMargin(ask, s.QuoteAt(t).askSlope, sold, SpreeSlices(s, v, t, actor, offers), 0)
    decreases offers
  {
    hide SeriesState.QuoteAt, SeriesState.Issue, SeriesState.SkewAt, AskAt, SeriesInv;
    if offers != [] {
      IssueKeeps(s, v, t, actor, offers[0]);
      OfferIs(s, v, t, actor, offers[0]);
      var r, rest := s.Issue(v, t, actor, offers[0]), offers[1..];
      if r.Err? {
        SpreeStaysAtMargin(s, v, t, actor, rest, ask, sold);
      } else if r.value.fill.None? {
        SpreeStaysAtMargin(r.value.series, r.value.vault, t, actor, rest, ask, sold);
      } else {
        var fill := r.value.fill.value;
        QuoteAfter(s, fill);
        SoldAdds(s.QuoteAt(t).askSlope, sold, fill.units);
        SpreeStaysAtMargin(r.value.series, r.value.vault, t, actor, rest, ask, sold + fill.units);
      }
    }
  }

  lemma SoldAdds(slope: nat, sold: nat, units: nat)
    ensures slope * (sold + units) == slope * sold + slope * units
  {
  }

  /** A spree with nothing short on the way never costs less than the single fill of everything it bought, to the last
      place and wherever the forward variance stands. */
  lemma SpreeNeverSaves(s: SeriesState, v: VaultState, t: nat, actor: string, offers: seq<nat>)
    requires SeriesInv(s) && Backs(v, s) && NothingShort(s, v, t, actor, offers)
    ensures s.Priceable()
    ensures var after, total := Spree(s, v, t, actor, offers).0, TotalUnits(SpreeSlices(s, v, t, actor, offers));
      && after.outstandingUnits == s.outstandingUnits + total
      && IssuePremium(s.QuoteAt(t).askVariance, s.QuoteAt(t).askSlope, s.params.unitNotional, total)
         <= after.premiumTaken - s.premiumTaken
  {
    InvPriceable(s);
    hide SeriesState.QuoteAt, IssuePremium, Spree, SpreeSlices, SeriesInv, TotalPremium, WithinMargin, NothingShort;
    SpreeSums(s, v, t, actor, offers);
    SpreeStaysAtMargin(s, v, t, actor, offers, s.QuoteAt(t).askVariance, 0);
    SplittingNeverBeatsOneFill(s.QuoteAt(t).askVariance, s.QuoteAt(t).askSlope, s.params.unitNotional,
                               SpreeSlices(s, v, t, actor, offers));
  }
}
