/** The pricing library: skew decay, projection, bid and ask, impact slopes, the premium integral and its
    inverse, exit proceeds and liabilities, with the economic laws each rounding direction is there for. */
module Pricing {
  import opened Arith

  const WAD2: nat := 1_000_000_000_000_000_000_000_000_000_000_000_000
  const BPS: nat := 10_000
  const YEAR: nat := 31_536_000
  /** The "unbounded" sentinel of a zero-slope book. */
  const UINT256_MAX: nat := 115792089237316195423570985008687907853269984665640564039457584007913129639935

  // ---------------------------------------------------------------- inventory skew

  type Factor = f: nat | f <= WAD

  /** `2^(−dt/halfLife)` in WAD for a fixed half-life. The exponential is evaluated in floating point, so
      it is any function into `[0, WAD]`. */
  type Decay = nat -> Factor

  /** The decayed skew: sign kept, magnitude truncated; a half-life of zero never decays. */
  function DecaySkew(skew: int, dt: nat, halfLife: nat, decay: Decay): int {
    if skew == 0 || dt == 0 || halfLife == 0 then skew
    else
      var decayed: int := Floor(Abs(skew) * decay(dt), WAD);
      if skew < 0 then -decayed else decayed
  }

  /** Decay never grows the skew and never flips its sign. */
  lemma DecayShrinks(skew: int, dt: nat, halfLife: nat, decay: Decay)
    ensures Abs(DecaySkew(skew, dt, halfLife, decay)) <= Abs(skew)
    ensures skew >= 0 ==> DecaySkew(skew, dt, halfLife, decay) >= 0
    ensures skew <= 0 ==> DecaySkew(skew, dt, halfLife, decay) <= 0
  {
    MulMono(decay(dt), WAD, Abs(skew));
    FloorMono(Abs(skew) * decay(dt), Abs(skew) * WAD, WAD);
    FloorIs(Abs(skew) * WAD, WAD, Abs(skew) + 1);
  }

  function ForwardVariance(anchor: nat, decayedSkew: int, cap: nat): nat {
    var v := anchor + decayedSkew;
    if v <= 0 then 0 else if v > cap then cap else v
  }

  /** Not clamped to the cap: this is a measurement, and the clamp belongs to the price. */
  function ProjectedVariance(realizedSoFar: nat, elapsed: nat, forward: nat, remaining: nat): nat {
    var duration := elapsed + remaining;
    if duration == 0 then forward
    else Floor(realizedSoFar * elapsed + forward * remaining, duration)
  }

  function Annualize(sumSquaredReturns: nat, elapsed: nat): nat {
    if elapsed == 0 then 0 else MulDiv(sumSquaredReturns, YEAR, elapsed)
  }

  // ---------------------------------------------------------------- bid and ask

  function AskVariance(projected: nat, halfSpreadBps: nat, cap: nat): nat {
    Min(MulDivUp(projected, BPS + halfSpreadBps, BPS), cap)
  }

  function BidVariance(projected: nat, halfSpreadBps: nat, cap: nat): nat
    requires halfSpreadBps < BPS
  {
    Min(MulDiv(projected, BPS - halfSpreadBps, BPS), cap)
  }

  function PerUnitPrice(unitNotional: nat, variance: nat): nat {
    MulDiv(unitNotional, variance, WAD)
  }

  lemma BidNeverAboveAsk(projected: nat, halfSpreadBps: nat, cap: nat)
    requires halfSpreadBps < BPS
    ensures BidVariance(projected, halfSpreadBps, cap) <= AskVariance(projected, halfSpreadBps, cap) <= cap
  {
    hide Floor, Ceil;
    MulMono(0, BPS - halfSpreadBps, projected);
    MulMono(BPS - halfSpreadBps, BPS + halfSpreadBps, projected);
    FloorMono(projected * (BPS - halfSpreadBps), projected * (BPS + halfSpreadBps), BPS);
    FloorBelowCeil(projected * (BPS + halfSpreadBps), BPS);
  }

  // ---------------------------------------------------------------- impact slopes

  function AskImpactSlope(impactPerUnit: nat, remaining: nat, duration: nat, halfSpreadBps: nat): nat {
    if impactPerUnit == 0 || remaining == 0 || duration == 0 then 0
    else MulDivUp(impactPerUnit * remaining, BPS + halfSpreadBps, duration * BPS)
  }

  function BidImpactSlope(impactPerUnit: nat, remaining: nat, duration: nat, halfSpreadBps: nat): nat
    requires halfSpreadBps < BPS
  {
    if impactPerUnit == 0 || remaining == 0 || duration == 0 then 0
    else MulDiv(impactPerUnit * remaining, BPS - halfSpreadBps, duration * BPS)
  }

  // ---------------------------------------------------------------- buying

  /** Variance-units bought: the integral of an ask starting at `ask` and rising by `slope` per 1e18 units,
      its quadratic half rounded up. */
  function Integral(ask: nat, slope: nat, units: nat): nat {
    ask * units + MulDivUp(slope * units, units, 2 * WAD)
  }

  function IssuePremium(ask: nat, slope: nat, unitNotional: nat, units: nat): nat {
    if units == 0 then 0 else MulDivUp(unitNotional, Integral(ask, slope, units), WAD2)
  }

  /** The square root rounded up. */
  ghost function CeilSqrt(n: nat): (r: nat)
    ensures n <= r * r
    ensures n > 0 ==> r > 0 && (r - 1) * (r - 1) < n
  {
    var root := FloorSqrt(n);
    if root * root < n then root + 1 else root
  }

  /** The inverse of the premium integral, for `amountIn` quote units offered. */
  ghost function UnitsFor(ask: nat, slope: nat, unitNotional: nat, amountIn: nat): nat
    requires unitNotional > 0
  {
    if ask == 0 || amountIn == 0 then 0
    else
      var x := MulDiv(amountIn, WAD2, unitNotional);
      if slope == 0 then Floor(x, ask)
      else Floor(2 * x, ask + CeilSqrt(ask * ask + MulDivUp(2 * slope, x, WAD)))
  }

  method IssueUnitsFor(ask: nat, slope: nat, unitNotional: nat, amountIn: nat) returns (units: nat)
    requires unitNotional > 0
    ensures units == UnitsFor(ask, slope, unitNotional, amountIn)
    ensures IssuePremium(ask, slope, unitNotional, units) <= amountIn
  {
    NeverCostsMoreThanOffered(ask, slope, unitNotional, amountIn);
    if ask == 0 || amountIn == 0 {
      return 0;
    }
    var x := MulDiv(amountIn, WAD2, unitNotional);
    if slope == 0 {
      return Floor(x, ask);
    }
    var discriminant := ask * ask + MulDivUp(2 * slope, x, WAD);
    var root := Isqrt(discriminant);
    if root * root < discriminant {
      root := root + 1;
    }
    return Floor(2 * x, ask + root);
  }

  /** The slope term of an inverted size, by cancelling `2x` from both sides of the discriminant bound. */
  lemma SlopeTermBound(a: nat, s: nat, x: nat, w: nat, r: nat, u: nat)
    requires x > 0 && r >= a
    requires 2 * s * x <= w * (r * r - a * a)
    requires u * (a + r) <= 2 * x
    ensures s * u * u <= w * (r - a) * u
  {
    MulMono(2 * s * x, w * (r * r - a * a), u * u);
    SlopeTermAlgebra(a, s, x, w, r, u);
    MulMono(0, w, r - a);
    MulMono(0, w * (r - a), u);
    Squeeze(s * u * u, w * (r - a) * u, 2 * x, u * (a + r));
  }

  lemma Squeeze(p: int, g: int, m: int, n: int)
    requires 0 <= g && n <= m && 0 < m && p * m <= g * n
    ensures p <= g
  {
    MulMono(n, m, g);
    if g < p { MulMono(g + 1, p, m); }
  }

  lemma SlopeTermAlgebra(a: int, s: int, x: int, w: int, r: int, u: int)
    ensures (s * u * u) * (2 * x) == (2 * s * x) * (u * u)
    ensures (w * (r * r - a * a)) * (u * u) == (w * (r - a) * u) * (u * (a + r))
  {
    assert r * r - a * a == (r - a) * (a + r);
  }

  lemma InverseAlgebra(a: int, w: int, r: int, u: int)
    ensures 2 * w * (a * u) + w * (r - a) * u == w * (u * (a + r))
  {
  }

  /** The size bought by the inverse fits the exact quadratic: `2w·a·u + s·u² <= 2w·x`. */
  lemma InverseFits(a: nat, s: nat, x: nat, w: nat, r: nat, u: nat)
    requires a > 0 && w > 0
    requires a <= r && 2 * s * x <= w * (r * r - a * a)
    requires u * (a + r) <= 2 * x
    ensures 2 * w * (a * u) + s * u * u <= 2 * w * x
  {
    if u > 0 {
      MulMono(1, u, a + r);
      SlopeTermBound(a, s, x, w, r, u);
      InverseAlgebra(a, w, r, u);
      MulMono(u * (a + r), 2 * x, w);
    }
  }

  /** A size whose exact quadratic fits `x` has a rounded integral that fits too. */
  lemma IntegralFits(ask: nat, slope: nat, units: nat, x: nat)
    ensures Integral(ask, slope, units) <= x
        <==> 2 * WAD * (ask * units) + slope * units * units <= 2 * WAD * x
  {
    CeilIs(slope * units * units, 2 * WAD, x - ask * units);
  }

  /** `ceil(n·i/d) <= amount` exactly when `i <= floor(amount·d/n)`. */
  lemma PriceIffBudget(n: nat, i: nat, d: nat, amount: nat)
    requires n > 0 && d > 0
    ensures Ceil(n * i, d) <= amount <==> i <= Floor(amount * d, n)
  {
    CeilIs(n * i, d, amount);
    FloorIs(amount * d, n, i);
  }

  /** Pricing the size the inverse returns never costs more than the amount offered. */
  lemma NeverCostsMoreThanOffered(ask: nat, slope: nat, unitNotional: nat, amountIn: nat)
    requires unitNotional > 0
    ensures IssuePremium(ask, slope, unitNotional, UnitsFor(ask, slope, unitNotional, amountIn)) <= amountIn
  {
    hide Integral, IssuePremium, CeilSqrt, Floor, Ceil;
    var u := UnitsFor(ask, slope, unitNotional, amountIn);
    PremiumIsCeil(ask, slope, unitNotional, u);
    if ask == 0 || amountIn == 0 {
      NothingCostsNothing(ask, slope, unitNotional);
    } else {
      MulMono(0, amountIn, WAD2);
      var x := MulDiv(amountIn, WAD2, unitNotional);
      if slope == 0 {
        IntegralFits(ask, slope, u, x);
      } else {
        InverseFitsBudget(ask, slope, x);
      }
      PriceIffBudget(unitNotional, Integral(ask, slope, u), WAD2, amountIn);
    }
  }

  lemma NothingCostsNothing(ask: nat, slope: nat, unitNotional: nat)
    ensures IssuePremium(ask, slope, unitNotional, 0) == 0
  {
  }

  lemma InverseFitsBudget(ask: nat, slope: nat, x: nat)
    requires ask > 0 && slope > 0
    ensures Integral(ask, slope, Floor(2 * x, ask + CeilSqrt(ask * ask + MulDivUp(2 * slope, x, WAD)))) <= x
  {
    hide Integral, CeilSqrt, Floor, Ceil;
    var q := MulDivUp(2 * slope, x, WAD);
    MulMono(0, ask, ask);
    var r := CeilSqrt(ask * ask + q);
    var u := Floor(2 * x, ask + r);
    MulMono(q, r * r - ask * ask, WAD);
    RootAbove(ask, q, r);
    InverseFits(ask, slope, x, WAD, r, u);
    IntegralFits(ask, slope, u, x);
  }

  /** With a flat book the returned size is also the largest affordable one. */
  lemma FlatBookBuysTheMost(ask: nat, unitNotional: nat, amountIn: nat, units: nat)
    requires unitNotional > 0 && ask > 0
    ensures IssuePremium(ask, 0, unitNotional, units) <= amountIn
        <==> units <= UnitsFor(ask, 0, unitNotional, amountIn)
  {
    var x := MulDiv(amountIn, WAD2, unitNotional);
    IntegralFits(ask, 0, units, x);
    FloorIs(x, ask, units);
    PriceIffBudget(unitNotional, Integral(ask, 0, units), WAD2, amountIn);
    if amountIn == 0 && units > 0 {
      MulMono(1, units, ask);
      MulMono(1, Integral(ask, 0, units), unitNotional);
      CeilIs(unitNotional * Integral(ask, 0, units), WAD2, 0);
    }
  }

  /** With impact, no affordable size exceeds the returned one by more than one unit of the last place and the size
      over twice the ask: at a WAD ask, a few parts in 1e18. */
  lemma BuysNearlyTheMost(ask: nat, slope: nat, unitNotional: nat, amountIn: nat, units: nat)
    requires unitNotional > 0 && ask > 0 && slope > 0
    requires IssuePremium(ask, slope, unitNotional, units) <= amountIn
    ensures (units - UnitsFor(ask, slope, unitNotional, amountIn) - 1) * (2 * ask) < Max(units, 1)
  {
    hide IssuePremium, Integral, CeilSqrt, Floor, Ceil;
    var x := Floor(amountIn * WAD2, unitNotional);
    PremiumIsCeil(ask, slope, unitNotional, units);
    PriceIffBudget(unitNotional, Integral(ask, slope, units), WAD2, amountIn);
    IntegralFits(ask, slope, units, x);
    if amountIn == 0 {
      FloorIs(0, unitNotional, 1);
      NoBudgetNoUnits(ask, slope, units);
    } else {
      NearestByRoot(ask, slope, x, units);
    }
  }

  lemma NearestByRoot(ask: nat, slope: nat, x: nat, units: nat)
    requires ask > 0 && 2 * WAD * (ask * units) + slope * units * units <= 2 * WAD * x
    ensures (units - Floor(2 * x, ask + CeilSqrt(ask * ask + Ceil(2 * slope * x, WAD))) - 1) * (2 * ask) < Max(units, 1)
  {
    hide CeilSqrt, Floor, Ceil;
    var y := Ceil(2 * slope * x, WAD);
    MulMono(1, ask, ask);
    var root := CeilSqrt(ask * ask + y);
    var u := Floor(2 * x, ask + root);
    CeilIs(2 * slope * x, WAD, y as int - 1);
    RootAbove(ask, y, root);
    assert WAD * y - WAD <= 2 * slope * x - 1;
    NearestInverse(ask, slope, x, WAD, root, u, units);
  }

  lemma NoBudgetNoUnits(ask: nat, slope: nat, units: nat)
    requires ask > 0 && 2 * WAD * (ask * units) + slope * units * units <= 0
    ensures units == 0
  {
    MulMono(0, slope * units, units);
    if units > 0 {
      MulMono(1, ask, units);
    }
  }

  lemma RootAbove(ask: nat, y: nat, root: nat)
    requires ask * ask + y <= root * root
    ensures ask <= root
  {
    if root < ask {
      SquareMono(root + 1, ask);
    }
  }

  lemma NearestInverse(a: nat, k: nat, x: nat, w: nat, root: nat, u: nat, m: nat)
    requires a > 0 && w > 0 && a <= root && 2 * x < (a + root) * (u + 1)
    requires w * ((root - 1) * (root - 1) - a * a) <= 2 * k * x
    requires 2 * w * (a * m) + k * m * m <= 2 * w * x
    ensures (m - u - 1) * (2 * a) < Max(m, 1)
  {
    TrueInverse(a, k, x, w, root - 1, m);
    var over := m - u - 1;
    assert over * (a + root) == m * (a + (root - 1)) + m - (a + root) * (u + 1);
    if over <= 0 {
      MulMono(over, 0, 2 * a);
    } else {
      MulMono(2 * a, a + root, over);
    }
  }

  /** A size whose quadratic fits lies within the exact inverse at any root not above the true one. */
  lemma TrueInverse(a: int, k: nat, x: nat, w: nat, r: int, m: nat)
    requires a > 0 && w > 0 && a - 1 <= r
    requires w * (r * r - a * a) <= 2 * k * x && 2 * w * (a * m) + k * m * m <= 2 * w * x
    ensures m * (a + r) <= 2 * x
  {
    DifferenceOfSquares(w, a, r);
    if w * (r - a) <= k * m {
      BelowTheSlope(a, k, x, w, r, m);
    } else {
      AboveTheSlope(a, k, x, w * (r - a), r, m);
    }
  }

  lemma DifferenceOfSquares(w: int, a: int, r: int)
    ensures w * (r * r - a * a) == (w * (r - a)) * (r + a)
  {
  }

  lemma BelowTheSlope(a: int, k: nat, x: nat, w: nat, r: int, m: nat)
    requires w > 0 && w * (r - a) <= k * m && 2 * w * (a * m) + k * m * m <= 2 * w * x
    ensures m * (a + r) <= 2 * x
  {
    MulMono(w * (r - a), k * m, m);
    InverseSplits(w, m, a, r);
    MulCancelAtMost(m * (a + r), 2 * x, w);
  }

  lemma AboveTheSlope(a: int, k: nat, x: nat, rise: int, r: int, m: nat)
    requires a > 0 && a - 1 <= r && k * m < rise && rise * (r + a) <= 2 * k * x
    ensures m * (a + r) <= 2 * x
  {
    MulMono(k * m, rise, r + a);
    SlopeSplits(k, m, a, r);
    MulMono(1, r + a, rise);
    MulMono(0, k, m);
    assert k > 0;
    MulCancelAtMost(m * (a + r), 2 * x, k);
  }

  lemma InverseSplits(w: int, m: int, a: int, r: int)
    ensures w * (m * (a + r)) == 2 * w * (a * m) + (w * (r - a)) * m
  {
  }

  lemma SlopeSplits(k: int, m: int, a: int, r: int)
    ensures (k * m) * (r + a) == k * (m * (a + r))
  {
  }

  lemma MulCancelAtMost(b: int, c: int, w: nat)
    requires w * b <= w * c && (w == 0 ==> b <= c)
    ensures b <= c
  {
    if b > c {
      MulMono(c + 1, b, w);
    }
  }

  lemma IntegralMono(ask: nat, slope: nat, u: nat, v: nat)
    requires u <= v
    ensures Integral(ask, slope, u) <= Integral(ask, slope, v)
  {
    MulMono(u, v, ask);
    MulMono(u, v, slope);
    MulMono(slope * u, slope * v, u);
    MulMono(u, v, slope * v);
    CeilMono(slope * u * u, slope * v * v, 2 * WAD);
  }

  /** A smaller fill never costs more. */
  lemma PremiumMono(ask: nat, slope: nat, unitNotional: nat, u: nat, v: nat)
    requires u <= v
    ensures IssuePremium(ask, slope, unitNotional, u) <= IssuePremium(ask, slope, unitNotional, v)
  {
    IntegralMono(ask, slope, u, v);
    MulMono(Integral(ask, slope, u), Integral(ask, slope, v), unitNotional);
    CeilMono(unitNotional * Integral(ask, slope, u), unitNotional * Integral(ask, slope, v), WAD2);
  }

  // ---------------------------------------------------------------- splitting a purchase

  /** One fill of a split purchase: the ask it starts at, and its size. */
  datatype Slice = Slice(ask: nat, units: nat)

  function TotalUnits(slices: seq<Slice>): nat {
    if slices == [] then 0 else slices[0].units + TotalUnits(slices[1..])
  }

  function TotalPremium(slices: seq<Slice>, slope: nat, unitNotional: nat): nat {
    if slices == [] then 0
    else IssuePremium(slices[0].ask, slope, unitNotional, slices[0].units)
         + TotalPremium(slices[1..], slope, unitNotional)
  }

  function TotalIntegral(slices: seq<Slice>, slope: nat): nat {
    if slices == [] then 0
    else Integral(slices[0].ask, slope, slices[0].units) + TotalIntegral(slices[1..], slope)
  }

  /** Every slice starts at most `gap` 1e-18ths below the marginal ask that the units sold before it have reached. */
  predicate WithinMargin(ask: nat, slope: nat, sold: nat, slices: seq<Slice>, gap: nat)
    decreases slices
  {
    slices == []
    || (slices[0].ask * WAD + gap >= ask * WAD + slope * sold
        && WithinMargin(ask, slope, sold + slices[0].units, slices[1..], gap))
  }

  /** Twice the unrounded integral of the first `units`, in 1e-18ths. */
  function Area(ask: nat, slope: nat, units: nat): nat {
    2 * WAD * (ask * units) + slope * units * units
  }

  /** One slice at `start`, added to `sold` units bought from `ask`, covers the area under the curve exactly
      when it starts at or above the margin. */
  lemma SliceCoversIffAtMargin(ask: nat, slope: nat, sold: nat, start: nat, units: nat)
    requires units > 0
    ensures Area(ask, slope, sold) + Area(start, slope, units) >= Area(ask, slope, sold + units)
        <==> start * WAD >= ask * WAD + slope * sold
  {
    var gap := start * WAD - ask * WAD - slope * sold;
    AreaSplits(ask, slope, sold, units);
    GapArea(ask, slope, sold, start, units);
    if gap >= 0 { MulMono(0, gap, units); } else { MulMono(gap, -1, units); }
  }

  lemma AreaSplits(ask: nat, slope: nat, sold: nat, units: nat)
    ensures Area(ask, slope, sold + units)
         == Area(ask, slope, sold) + Area(ask, slope, units) + 2 * ((slope * sold) * units)
  {
    assert slope * (sold + units) * (sold + units)
        == slope * sold * sold + slope * units * units + 2 * ((slope * sold) * units);
    assert ask * (sold + units) == ask * sold + ask * units;
  }

  lemma GapArea(ask: nat, slope: nat, sold: nat, start: nat, units: nat)
    ensures 2 * ((start * WAD - ask * WAD - slope * sold) * units)
         == 2 * WAD * (start * units) - 2 * WAD * (ask * units) - 2 * ((slope * sold) * units)
  {
  }

  lemma SliceCoversButGap(ask: nat, slope: nat, sold: nat, start: nat, units: nat, gap: nat)
    requires start * WAD + gap >= ask * WAD + slope * sold
    ensures Area(ask, slope, sold) + Area(start, slope, units) + 2 * (gap * units) >= Area(ask, slope, sold + units)
  {
    hide Area;
    AreaSplits(ask, slope, sold, units);
    AreaAt(ask, start, slope, units);
    GapArea(ask, slope, sold, start, units);
    MulMono(0, start * WAD + gap - ask * WAD - slope * sold, units);
    GapSplits(start * WAD - ask * WAD - slope * sold, gap, units);
  }

  lemma GapSplits(x: int, gap: int, units: int)
    ensures (x + gap) * units == x * units + gap * units
  {
  }

  lemma AreaAt(ask: nat, start: nat, slope: nat, units: nat)
    ensures Area(start, slope, units) - Area(ask, slope, units) == 2 * WAD * (start * units) - 2 * WAD * (ask * units)
  {
  }

  lemma {:induction false} SlicesCover(ask: nat, slope: nat, sold: nat, slices: seq<Slice>, gap: nat)
    requires WithinMargin(ask, slope, sold, slices, gap)
    ensures Area(ask, slope, sold) + 2 * WAD * TotalIntegral(slices, slope) + 2 * (gap * TotalUnits(slices))
         >= Area(ask, slope, sold + TotalUnits(slices))
    decreases slices
  {
    hide Area, Integral;
    if slices == [] {
    } else {
      var head, rest := slices[0], slices[1..];
      var n, sum := TotalUnits(rest), TotalIntegral(rest, slope);
      SlicesCover(ask, slope, sold + head.units, rest, gap);
      IntegralCoversArea(head.ask, slope, head.units);
      SliceCoversButGap(ask, slope, sold, head.ask, head.units, gap);
      GapTotal(gap, head.units, n, TotalUnits(slices));
      assert TotalIntegral(slices, slope) == Integral(head.ask, slope, head.units) + sum;
    }
  }

  lemma GapTotal(gap: nat, units: nat, rest: nat, total: nat)
    requires total == units + rest
    ensures gap * total == gap * units + gap * rest
  {
  }

  lemma IntegralCoversArea(ask: nat, slope: nat, units: nat)
    ensures Area(ask, slope, units) <= 2 * WAD * Integral(ask, slope, units)
  {
    IntegralFits(ask, slope, units, Integral(ask, slope, units));
  }

  lemma {:induction false} PremiumsCoverIntegral(slices: seq<Slice>, slope: nat, unitNotional: nat)
    ensures MulDivUp(unitNotional, TotalIntegral(slices, slope), WAD2)
         <= TotalPremium(slices, slope, unitNotional)
  {
    if slices == [] {
    } else {
      PremiumsCoverIntegral(slices[1..], slope, unitNotional);
      var i, rest := Integral(slices[0].ask, slope, slices[0].units), TotalIntegral(slices[1..], slope);
      PremiumIsCeil(slices[0].ask, slope, unitNotional, slices[0].units);
      CeilOfProductSum(unitNotional, i, rest, WAD2);
    }
  }

  lemma CeilOfProductSum(n: nat, i: nat, j: nat, d: nat)
    requires d > 0
    ensures Ceil(n * (i + j), d) <= Ceil(n * i, d) + Ceil(n * j, d)
  {
    assert n * (i + j) == n * i + n * j;
    CeilSum(n * i, n * j, d);
  }

  lemma PremiumIsCeil(ask: nat, slope: nat, unitNotional: nat, units: nat)
    ensures IssuePremium(ask, slope, unitNotional, units) == Ceil(unitNotional * Integral(ask, slope, units), WAD2)
  {
    if units == 0 {
      CeilIs(slope * 0 * 0, 2 * WAD, 0);
      CeilIs(0, WAD2, 0);
    }
  }

  /** However many slices a purchase is cut into, they save at most what their shortfall below the margin is worth. */
  lemma SplittingSavesAtMost(ask: nat, slope: nat, unitNotional: nat, slices: seq<Slice>, gap: nat)
    requires WithinMargin(ask, slope, 0, slices, gap)
    ensures IssuePremium(ask, slope, unitNotional, TotalUnits(slices))
         <= TotalPremium(slices, slope, unitNotional)
            + Ceil(unitNotional * Ceil(TotalUnits(slices) * gap, WAD), WAD2)
  {
    hide Area, Integral, IssuePremium, Ceil;
    var total, parts := TotalUnits(slices), TotalIntegral(slices, slope);
    var whole, extra := Integral(ask, slope, total), Ceil(total * gap, WAD);
    SlicesCover(ask, slope, 0, slices, gap);
    NothingHasNoArea(ask, slope);
    CeilIs(total * gap, WAD, extra);
    WholeWithinParts(ask, slope, total, parts + extra);
    MulMono(whole, parts + extra, unitNotional);
    CeilMono(unitNotional * whole, unitNotional * (parts + extra), WAD2);
    CeilOfProductSum(unitNotional, parts, extra, WAD2);
    PremiumIsCeil(ask, slope, unitNotional, total);
    PremiumsCoverIntegral(slices, slope, unitNotional);
  }

  lemma NothingHasNoArea(ask: nat, slope: nat)
    ensures Area(ask, slope, 0) == 0
  {
  }

  lemma WholeWithinParts(ask: nat, slope: nat, units: nat, parts: nat)
    requires Area(ask, slope, units) <= 2 * WAD * parts
    ensures Integral(ask, slope, units) <= parts
  {
    IntegralFits(ask, slope, units, parts);
  }

  /** With every slice at or above the margin, splitting never beats one fill. */
  lemma SplittingNeverBeatsOneFill(ask: nat, slope: nat, unitNotional: nat, slices: seq<Slice>)
    requires WithinMargin(ask, slope, 0, slices, 0)
    ensures IssuePremium(ask, slope, unitNotional, TotalUnits(slices))
         <= TotalPremium(slices, slope, unitNotional)
  {
    hide IssuePremium, Ceil;
    SplittingSavesAtMost(ask, slope, unitNotional, slices, 0);
    CeilIs(0, WAD, 0);
    CeilIs(0, WAD2, 0);
  }

  /** A second slice that starts `gap` below the margin leaves twice `gap · more` of the area uncovered; once that is
      worth more than the roundings of three premiums, the two slices are strictly cheaper than one. */
  lemma ShortfallSaves(ask: nat, slope: nat, unitNotional: nat, units: nat, start: nat, more: nat, gap: nat)
    requires ask * WAD + slope * units == start * WAD + gap
    ensures Area(ask, slope, units) + Area(start, slope, more) + 2 * (gap * more) == Area(ask, slope, units + more)
    ensures unitNotional * (gap * more) >= 2 * WAD * (unitNotional + WAD2) ==>
      IssuePremium(ask, slope, unitNotional, units) + IssuePremium(start, slope, unitNotional, more)
      < IssuePremium(ask, slope, unitNotional, units + more)
  {
    hide Area, Integral, IssuePremium;
    AreaSplits(ask, slope, units, more);
    AreaAt(ask, start, slope, more);
    GapArea(ask, slope, units, start, more);
    GapIs(start * WAD - ask * WAD - slope * units, gap, more);
    if unitNotional * (gap * more) >= 2 * WAD * (unitNotional + WAD2) {
      PremiumAbove(ask, slope, unitNotional, units + more);
      PremiumBelow(ask, slope, unitNotional, units);
      PremiumBelow(start, slope, unitNotional, more);
      StrictlyCheaper(unitNotional, gap * more, Area(ask, slope, units), Area(start, slope, more),
                      IssuePremium(ask, slope, unitNotional, units), IssuePremium(start, slope, unitNotional, more),
                      IssuePremium(ask, slope, unitNotional, units + more));
    }
  }

  lemma GapIs(x: int, gap: int, more: int)
    requires x == -gap
    ensures x * more == -(gap * more)
  {
  }

  lemma PremiumAbove(ask: nat, slope: nat, unitNotional: nat, units: nat)
    ensures unitNotional * Area(ask, slope, units) <= 2 * WAD * WAD2 * IssuePremium(ask, slope, unitNotional, units)
  {
    hide Area, Integral, IssuePremium, Ceil;
    var i, p := Integral(ask, slope, units), IssuePremium(ask, slope, unitNotional, units);
    PremiumIsCeil(ask, slope, unitNotional, units);
    CeilIs(unitNotional * i, WAD2, p);
    IntegralCoversArea(ask, slope, units);
    MulMono(Area(ask, slope, units), 2 * WAD * i, unitNotional);
    assert unitNotional * (2 * WAD * i) == 2 * WAD * (unitNotional * i);
  }

  lemma PremiumBelow(ask: nat, slope: nat, unitNotional: nat, units: nat)
    ensures 2 * WAD * WAD2 * IssuePremium(ask, slope, unitNotional, units)
          < unitNotional * (Area(ask, slope, units) + 2 * WAD) + 2 * WAD * WAD2
  {
    hide Area, Integral, IssuePremium, Ceil;
    var i, p := Integral(ask, slope, units), IssuePremium(ask, slope, unitNotional, units);
    PremiumIsCeil(ask, slope, unitNotional, units);
    CeilIs(unitNotional * i, WAD2, p as int - 1);
    AreaCoversIntegral(ask, slope, units);
    MulMono(2 * WAD * i, Area(ask, slope, units) + 2 * WAD, unitNotional);
    assert unitNotional * (2 * WAD * i) == 2 * WAD * (unitNotional * i);
  }

  lemma AreaCoversIntegral(ask: nat, slope: nat, units: nat)
    ensures 2 * WAD * Integral(ask, slope, units) <= Area(ask, slope, units) + 2 * WAD
  {
    CeilIs(slope * units * units, 2 * WAD, Integral(ask, slope, units) as int - ask * units - 1);
  }

  lemma StrictlyCheaper(n: nat, lost: nat, a1: nat, a2: nat, p1: nat, p2: nat, p: nat)
    requires n * (a1 + a2 + 2 * lost) <= 2 * WAD * WAD2 * p
    requires 2 * WAD * WAD2 * p1 < n * (a1 + 2 * WAD) + 2 * WAD * WAD2
    requires 2 * WAD * WAD2 * p2 < n * (a2 + 2 * WAD) + 2 * WAD * WAD2
    requires n * lost >= 2 * WAD * (n + WAD2)
    ensures p1 + p2 < p
  {
    assert n * (a1 + a2 + 2 * lost) == n * a1 + n * a2 + 2 * (n * lost);
    assert n * (a1 + 2 * WAD) == n * a1 + 2 * WAD * n && n * (a2 + 2 * WAD) == n * a2 + 2 * WAD * n;
  }

  // ---------------------------------------------------------------- clamps on a purchase

  function IssueUnitsToCap(ask: nat, slope: nat, cap: nat): nat {
    if ask >= cap then 0
    else if slope == 0 then UINT256_MAX
    else Floor((cap - ask) * WAD, slope)
  }

  function IssueUnitsToCollateral(outstanding: nat, lockedLiability: nat, free: nat, unitNotional: nat, cap: nat): nat {
    var allowed := lockedLiability + free;
    var denominator := unitNotional * cap;
    if denominator == 0 then UINT256_MAX
    else
      var total := MulDiv(allowed, WAD2, denominator);
      if total > outstanding then total - outstanding else 0
  }

  // ---------------------------------------------------------------- liability and settlement

  /** What a sold position reserves before finalization. */
  function MaxLiability(units: nat, unitNotional: nat, cap: nat): nat {
    if units == 0 then 0 else MulDivUp(units * unitNotional, cap, WAD2)
  }

  function PayoutPerUnit(finalVariance: nat, cap: nat, unitNotional: nat): nat {
    MulDiv(unitNotional, Min(finalVariance, cap), WAD)
  }

  function SettleProceeds(units: nat, ppu: nat): nat {
    MulDiv(units, ppu, WAD)
  }

  /** What a sold position reserves after finalization. */
  function FinalLiability(units: nat, ppu: nat): nat {
    if units == 0 || ppu == 0 then 0 else MulDivUp(units, ppu, WAD)
  }

  lemma MaxLiabilityIs(units: nat, unitNotional: nat, cap: nat)
    ensures MaxLiability(units, unitNotional, cap) == Ceil(units * (unitNotional * cap), WAD2)
  {
    assert units * unitNotional * cap == units * (unitNotional * cap);
    CeilIs(0, WAD2, 0);
  }

  lemma MaxLiabilityMono(u: nat, v: nat, unitNotional: nat, cap: nat)
    requires u <= v
    ensures MaxLiability(u, unitNotional, cap) <= MaxLiability(v, unitNotional, cap)
  {
    MaxLiabilityIs(u, unitNotional, cap);
    MaxLiabilityIs(v, unitNotional, cap);
    MulMono(u, v, unitNotional * cap);
    CeilMono(u * (unitNotional * cap), v * (unitNotional * cap), WAD2);
  }

  /** Reserving an aggregate never takes more than reserving its parts. */
  lemma MaxLiabilityIsSubadditive(u: nat, v: nat, unitNotional: nat, cap: nat)
    ensures MaxLiability(u + v, unitNotional, cap)
         <= MaxLiability(u, unitNotional, cap) + MaxLiability(v, unitNotional, cap)
  {
    MaxLiabilityIs(u, unitNotional, cap);
    MaxLiabilityIs(v, unitNotional, cap);
    MaxLiabilityIs(u + v, unitNotional, cap);
    CeilOfUnitSum(u, v, unitNotional * cap, WAD2);
  }

  lemma CeilOfUnitSum(u: nat, v: nat, k: nat, d: nat)
    requires d > 0
    ensures Ceil((u + v) * k, d) <= Ceil(u * k, d) + Ceil(v * k, d)
  {
    assert (u + v) * k == u * k + v * k;
    CeilSum(u * k, v * k, d);
  }

  /** A size inside the cap clamp has an integral of at most the cap on every unit. */
  lemma IntegralWithinCap(ask: nat, slope: nat, cap: nat, units: nat)
    requires ask < cap && units <= IssueUnitsToCap(ask, slope, cap)
    ensures Integral(ask, slope, units) <= cap * units
  {
    if slope > 0 { FloorIs((cap - ask) * WAD, slope, units); }
    MulMono(slope * units, (cap - ask) * WAD, units);
    CapAlgebra(ask, cap, units);
    MulMono(ask, cap, units);
    IntegralFits(ask, slope, units, cap * units);
  }

  lemma CapAlgebra(ask: int, cap: int, units: int)
    ensures ((cap - ask) * WAD) * units == WAD * (cap * units) - WAD * (ask * units)
  {
  }

  /** A fill inside the cap clamp costs at most what it makes the writer reserve. */
  lemma PremiumWithinReservation(ask: nat, slope: nat, cap: nat, unitNotional: nat, units: nat)
    requires units <= IssueUnitsToCap(ask, slope, cap)
    ensures IssuePremium(ask, slope, unitNotional, units) <= MaxLiability(units, unitNotional, cap)
  {
    if units > 0 {
      IntegralWithinCap(ask, slope, cap, units);
      MaxLiabilityIs(units, unitNotional, cap);
      CeilOfScaled(unitNotional, Integral(ask, slope, units), cap, units, WAD2);
    }
  }

  lemma CeilOfScaled(n: nat, i: nat, cap: nat, units: nat, d: nat)
    requires d > 0 && i <= cap * units
    ensures Ceil(n * i, d) <= Ceil(units * (n * cap), d)
  {
    assert units * (n * cap) == n * (cap * units);
    MulMono(i, cap * units, n);
    CeilMono(n * i, n * (cap * units), d);
  }

  /** The collateral clamp leaves a position exactly when its whole reservation fits what the vault allows. */
  lemma CollateralClampFits(outstanding: nat, lockedLiability: nat, free: nat, unitNotional: nat, cap: nat, units: nat)
    requires unitNotional > 0 && cap > 0 && units > 0
    ensures units <= IssueUnitsToCollateral(outstanding, lockedLiability, free, unitNotional, cap)
        <==> MaxLiability(outstanding + units, unitNotional, cap) <= lockedLiability + free
  {
    var k := unitNotional * cap;
    MulMono(1, unitNotional, cap);
    MaxLiabilityIs(outstanding + units, unitNotional, cap);
    CeilIs((outstanding + units) * k, WAD2, lockedLiability + free);
    FloorIs((lockedLiability + free) * WAD2, k, outstanding + units);
  }

  /** The payout never needs more than the cap reserved, for any final variance. */
  lemma FinalWithinMax(units: nat, finalVariance: nat, cap: nat, unitNotional: nat)
    ensures FinalLiability(units, PayoutPerUnit(finalVariance, cap, unitNotional))
         <= MaxLiability(units, unitNotional, cap)
  {
    var ppu, l := PayoutPerUnit(finalVariance, cap, unitNotional), MaxLiability(units, unitNotional, cap);
    MulMono(Min(finalVariance, cap), cap, unitNotional);
    MaxLiabilityIs(units, unitNotional, cap);
    WadCancels(units, ppu, unitNotional * cap, l);
    CeilIs(units * ppu, WAD, l);
  }

  lemma WadCancels(units: nat, ppu: nat, k: nat, l: nat)
    requires ppu * WAD <= k && units * k <= l * WAD2
    ensures units * ppu <= l * WAD
  {
    MulMono(ppu * WAD, k, units);
    assert units * (ppu * WAD) == (units * ppu) * WAD;
  }

  lemma FinalLiabilityIs(units: nat, ppu: nat)
    ensures FinalLiability(units, ppu) == Ceil(units * ppu, WAD)
  {
    CeilIs(0, WAD, 0);
  }

  /** Burning part of a finalized position always releases at least what it is paid. */
  lemma ReleaseCoversPayout(outstanding: nat, units: nat, ppu: nat)
    requires units <= outstanding
    ensures SettleProceeds(units, ppu) + FinalLiability(outstanding - units, ppu)
         <= FinalLiability(outstanding, ppu)
  {
    FinalLiabilityIs(outstanding, ppu);
    FinalLiabilityIs(outstanding - units, ppu);
    assert outstanding * ppu == units * ppu + (outstanding - units) * ppu;
    CeilSum(units * ppu, (outstanding - units) * ppu, WAD);
  }

  // ---------------------------------------------------------------- selling back

  function ExitUnitsToZeroBid(bid: nat, slope: nat): nat {
    if slope == 0 then UINT256_MAX else Floor(bid * WAD, slope)
  }

  /** The bid integral with its quadratic half rounded down; negative past the point where the library throws. */
  function ExitIntegral(bid: nat, slope: nat, units: nat): int {
    bid * units - MulDiv(slope * units, units, 2 * WAD)
  }

  function ExitProceeds(bid: nat, slope: nat, unitNotional: nat, units: nat): nat
    requires ExitIntegral(bid, slope, units) >= 0
  {
    if units == 0 then 0 else MulDiv(unitNotional, ExitIntegral(bid, slope, units), WAD2)
  }

  /** Sizes inside the zero-bid clamp never reach the throw. */
  lemma ZeroBidClampFits(bid: nat, slope: nat, units: nat)
    requires units <= ExitUnitsToZeroBid(bid, slope)
    ensures ExitIntegral(bid, slope, units) >= 0
  {
    assert slope * units <= bid * WAD by {
      if slope > 0 { FloorIs(bid * WAD, slope, units); }
    }
    MulMono(slope * units, bid * WAD, units);
    assert (bid * WAD) * units == (bid * units) * WAD;
    MulMono(0, slope * units, units);
    FloorMono(slope * units * units, (bid * units) * (2 * WAD), 2 * WAD);
    FloorIs((bid * units) * (2 * WAD), 2 * WAD, bid * units + 1);
  }

  // ---------------------------------------------------------------- round trips

  /** Floors of a raised numerator: `floor((z + f1·r)/t)` exceeds `floor((z + f0·r)/t)` by at most the rise, plus
      one. */
  lemma ProjectionRise(z: nat, f0: nat, f1: nat, r: nat, t: nat)
    requires 0 < t && f0 <= f1
    ensures Floor(z + f0 * r, t) <= Floor(z + f1 * r, t)
    ensures (Floor(z + f1 * r, t) - Floor(z + f0 * r, t) - 1) * t <= (f1 - f0) * r
  {
    MulMono(f0, f1, r);
    FloorMono(z + f0 * r, z + f1 * r, t);
    RiseAlgebra(f0, f1, r, Floor(z + f0 * r, t), Floor(z + f1 * r, t), t);
  }

  lemma RiseAlgebra(f0: int, f1: int, r: int, p0: int, p1: int, t: int)
    ensures (f1 - f0) * r == f1 * r - f0 * r
    ensures (p1 - p0 - 1) * t == p1 * t - p0 * t - t
  {
  }

  lemma BidStep(p0: nat, p1: nat, s: nat, cap: nat)
    requires s < BPS && p0 <= p1
    ensures (BidVariance(p1, s, cap) - BidVariance(p0, s, cap) - 2) * BPS <= (p1 - p0 - 1) * (BPS - s)
  {
    var k := BPS - s;
    MulMono(p0, p1, k);
    FloorMono(p0 * k, p1 * k, BPS);
    assert (p1 - p0 - 1) * k == p1 * k - p0 * k - k;
  }

  /** A forward variance raised by `f1 − f0` lifts the floored, capped bid by at most its share, plus two. */
  lemma BidRise(z: nat, f0: nat, f1: nat, remaining: nat, duration: nat, s: nat, cap: nat, p0: nat, p1: nat)
    requires 0 < duration && s < BPS && f0 <= f1
    requires p0 == Floor(z + f0 * remaining, duration) && p1 == Floor(z + f1 * remaining, duration)
    ensures (BidVariance(p1, s, cap) - BidVariance(p0, s, cap) - 2) * (duration * BPS)
         <= (f1 - f0) * remaining * (BPS - s)
  {
    ProjectionRise(z, f0, f1, remaining, duration);
    BidStep(p0, p1, s, cap);
    var rise: int := p1 as int - p0 - 1;
    ChainRise(BidVariance(p1, s, cap) - BidVariance(p0, s, cap) - 2, rise,
              (f1 - f0) * remaining, duration, BPS - s);
  }

  lemma ChainRise(step: int, rise: int, area: int, t: nat, k: nat)
    requires step * BPS <= rise * k && rise * t <= area
    ensures step * (t * BPS) <= area * k
  {
    MulMono(step * BPS, rise * k, t);
    MulMono(rise * t, area, k);
    assert step * (t * BPS) == (step * BPS) * t;
    assert (rise * k) * t == (rise * t) * k;
  }

  /** Proceeds over a common denominator: the bid may have risen by `k·u`, its slope gives back `(k − d)·v²`. */
  lemma ProceedsBound(w: nat, d: nat, k: nat, bid: nat, bidAfter: nat, bidSlope: nat, u: nat, v: nat)
    requires (bidAfter - bid - 2) * (w * d) <= k * u
    requires k <= bidSlope * d + d
    ensures (2 * w * (bidAfter * v) - bidSlope * v * v) * d
         <= 2 * w * ((bid + 2) * v) * d + v * v * d + k * (u * u)
  {
    MulMono((bidAfter - bid - 2) * (w * d), k * u, v);
    MulMono(k, bidSlope * d + d, v * v);
    RiseTerm(w, d, bid, bidAfter, v);
    SlopeTerm(d, bidSlope, v);
    Distribute(2 * w * (bidAfter * v), bidSlope * v * v, d);
    MixedTerm(k, u, v);
  }

  lemma RiseTerm(w: int, d: int, bid: int, bidAfter: int, v: int)
    ensures 2 * ((bidAfter - bid - 2) * (w * d) * v)
         == 2 * w * (bidAfter * v) * d - 2 * w * ((bid + 2) * v) * d
  {
    assert (bidAfter - bid - 2) * (w * d) * v == (bidAfter * v) * (w * d) - ((bid + 2) * v) * (w * d);
  }

  lemma SlopeTerm(d: int, bidSlope: int, v: int)
    ensures (bidSlope * d + d) * (v * v) == bidSlope * v * v * d + v * v * d
  {
  }

  lemma Distribute(x: int, y: int, d: int)
    ensures (x - y) * d == x * d - y * d && (x + y) * d == x * d + y * d
  {
  }

  lemma MixedTerm(k: nat, u: nat, v: nat)
    ensures 2 * (k * u * v) - k * (v * v) <= k * (u * u)
  {
    var t := u - v;
    MixedAlgebra(k, u, v);
    assert t * t >= 0;
    MulMono(0, t * t, k);
  }

  lemma MixedAlgebra(k: int, u: int, v: int)
    ensures k * (u * u) - 2 * (k * u * v) + k * (v * v) == k * ((u - v) * (u - v))
  {
  }

  /** What a round trip of `v` may gain over its premium, in 1e-18ths of twice a variance-unit: the sold quadratic and
      two roundings of the bid on every unit, as far as the spread does not pay for them. */
  function Excess(ask: nat, bid: nat, v: nat): nat {
    Max(0, v * v - (2 * WAD * (ask - bid - 2)) * v)
  }

  lemma NoExcess(ask: nat, bid: nat, v: nat)
    requires v <= 2 * WAD * (ask - bid - 2)
    ensures Excess(ask, bid, v) == 0
  {
    MulMono(v, 2 * WAD * (ask - bid - 2), v);
  }

  /** At any spread: four last places on every unit and the quadratic. */
  lemma ExcessAtMost(ask: nat, bid: nat, v: nat)
    requires bid <= ask
    ensures Excess(ask, bid, v) <= 4 * WAD * v + v * v
  {
    MulMono(-4 * (WAD as int), 2 * WAD * (ask - bid - 2), v);
    MulMono(0, v, v);
  }

  /** The spread pays for the two units the bid may have been rounded up by, and for the sold quadratic. */
  lemma SpreadPays(ask: nat, bid: nat, u: nat, v: nat)
    requires v <= u
    ensures 2 * WAD * ((bid + 2) * v) + v * v <= 2 * WAD * (ask * u) + Excess(ask, bid, v)
  {
    SpreadAlgebra(WAD, ask, bid, v);
    MulMono(v, u, ask);
    MulMono(ask * v, ask * u, 2 * WAD);
  }

  lemma SpreadAlgebra(w: int, ask: int, bid: int, v: int)
    ensures (2 * w * (ask - bid - 2)) * v == 2 * w * (ask * v) - 2 * w * ((bid + 2) * v)
  {
  }

  /** The exact inequality behind the round trip, over a common denominator `d` for both slopes. */
  lemma RoundTripCore(d: nat, k: nat, ask: nat, bid: nat, bidAfter: nat, askSlope: nat, bidSlope: nat, u: nat, v: nat)
    requires d > 0 && v <= u
    requires (bidAfter - bid - 2) * (WAD * d) <= k * u
    requires k <= bidSlope * d + d && k <= askSlope * d
    ensures 2 * WAD * (bidAfter * v) - bidSlope * v * v
         <= 2 * WAD * (ask * u) + askSlope * u * u + Excess(ask, bid, v)
  {
    hide Excess;
    ProceedsBound(WAD, d, k, bid, bidAfter, bidSlope, u, v);
    SpreadPays(ask, bid, u, v);
    MulMono(k, askSlope * d, u * u);
    AskSlopeTerm(d, askSlope, u);
    CancelDenominator(2 * WAD * (bidAfter * v) - bidSlope * v * v, 2 * WAD * ((bid + 2) * v), v * v, k * (u * u),
                      2 * WAD * (ask * u) + Excess(ask, bid, v), askSlope * u * u, d);
  }

  lemma AskSlopeTerm(d: int, askSlope: int, u: int)
    ensures (askSlope * d) * (u * u) == askSlope * u * u * d
  {
  }

  lemma CancelDenominator(left: int, paid: int, square: int, mixed: int, flat: int, curved: int, d: nat)
    requires d > 0
    requires left * d <= paid * d + square * d + mixed
    requires paid + square <= flat && mixed <= curved * d
    ensures left <= flat + curved
  {
    MulMono(paid + square, flat, d);
    Distribute(paid, square, d);
    Distribute(flat, curved, d);
    if flat + curved < left { MulMono(flat + curved + 1, left, d); }
  }

  /** From the exact inequality to the rounded integrals the two legs are priced at. */
  lemma RoundTripIntegrals(ask: nat, bidAfter: nat, askSlope: nat, bidSlope: nat, u: nat, v: nat, excess: nat)
    requires 2 * WAD * (bidAfter * v) - bidSlope * v * v <= 2 * WAD * (ask * u) + askSlope * u * u + excess
    ensures ExitIntegral(bidAfter, bidSlope, v) <= Integral(ask, askSlope, u) + Ceil(excess, 2 * WAD)
  {
    hide Floor, Ceil;
    RoundedGap(bidAfter * v, bidSlope * v * v, ask * u, askSlope * u * u + excess, 2 * WAD);
    CeilSum(askSlope * u * u, excess, 2 * WAD);
  }

  /** Rounding the deduction down and the addition up keeps an inequality between integers. */
  lemma RoundedGap(x: int, a: nat, y: int, c: nat, d: nat)
    requires d > 0 && d * x - a <= d * y + c
    ensures x - Floor(a, d) <= y + Ceil(c, d)
  {
    var l, r := x - Floor(a, d), y + Ceil(c, d);
    if r < l { MulMono(r + 1, l, d); }
  }

  /** What that excess is worth at most, in quote units rounded down. */
  function ExcessWorth(unitNotional: nat, ask: nat, bid: nat, v: nat): nat {
    Floor(unitNotional * Ceil(Excess(ask, bid, v), 2 * WAD), WAD2)
  }

  /** Selling back `v <= u` units into a market moved only by the purchase of `u` returns at most the premium and what
      the excess is worth: `p0` and `p1` are the projections before and after the purchase lifts the forward. */
  lemma RoundTripGainsAtMost(
    z: nat, f0: nat, f1: nat, p0: nat, p1: nat, remaining: nat, duration: nat, s: nat, cap: nat,
    impact: nat, unitNotional: nat, u: nat, v: nat)
    requires 0 < duration && s < BPS && 0 < v <= u && f0 <= f1
    requires p0 == Floor(z + f0 * remaining, duration) && p1 == Floor(z + f1 * remaining, duration)
    requires (f1 - f0) * WAD <= impact * u
    requires ExitIntegral(BidVariance(p1, s, cap), BidImpactSlope(impact, remaining, duration, s), v) >= 0
    ensures ExitProceeds(BidVariance(p1, s, cap), BidImpactSlope(impact, remaining, duration, s), unitNotional, v)
         <= IssuePremium(AskVariance(p0, s, cap), AskImpactSlope(impact, remaining, duration, s), unitNotional, u)
            + ExcessWorth(unitNotional, AskVariance(p0, s, cap), BidVariance(p0, s, cap), v)
  {
    hide AskVariance, BidVariance, AskImpactSlope, BidImpactSlope, IssuePremium, ExitProceeds, ExitIntegral,
         ExcessWorth, Floor;
    var ask, bid, bidAfter := AskVariance(p0, s, cap), BidVariance(p0, s, cap), BidVariance(p1, s, cap);
    var k := SlopesBracket(impact, remaining, duration, s);
    BidRise(z, f0, f1, remaining, duration, s, cap, p0, p1);
    var lift: int := bidAfter as int - bid - 2;
    RiseInWad(lift, duration * BPS, f1 - f0, remaining, BPS - s, impact, u);
    RoundTripPriced(duration * BPS, k, ask, bid, bidAfter, AskImpactSlope(impact, remaining, duration, s),
                    BidImpactSlope(impact, remaining, duration, s), unitNotional, u, v);
  }

  /** The round trip at given quotes and slopes. */
  lemma RoundTripPriced(d: nat, k: nat, ask: nat, bid: nat, bidAfter: nat, askSlope: nat, bidSlope: nat,
                        unitNotional: nat, u: nat, v: nat)
    requires d > 0 && 0 < v <= u
    requires (bidAfter - bid - 2) * (WAD * d) <= k * u
    requires k <= bidSlope * d + d && k <= askSlope * d
    requires ExitIntegral(bidAfter, bidSlope, v) >= 0
    ensures ExitProceeds(bidAfter, bidSlope, unitNotional, v)
         <= IssuePremium(ask, askSlope, unitNotional, u) + ExcessWorth(unitNotional, ask, bid, v)
  {
    hide Excess, ExitIntegral, Integral, Floor, Ceil;
    RoundTripCore(d, k, ask, bid, bidAfter, askSlope, bidSlope, u, v);
    RoundTripIntegrals(ask, bidAfter, askSlope, bidSlope, u, v, Excess(ask, bid, v));
    FloorThenCeil(unitNotional, ExitIntegral(bidAfter, bidSlope, v), Integral(ask, askSlope, u),
                  Ceil(Excess(ask, bid, v), 2 * WAD), WAD2);
  }

  /** Where the spread is wide enough for the size sold, it never returns more than the premium. */
  lemma RoundTripNeverProfits(
    z: nat, f0: nat, f1: nat, p0: nat, p1: nat, remaining: nat, duration: nat, s: nat, cap: nat,
    impact: nat, unitNotional: nat, u: nat, v: nat)
    requires 0 < duration && s < BPS && 0 < v <= u && f0 <= f1
    requires p0 == Floor(z + f0 * remaining, duration) && p1 == Floor(z + f1 * remaining, duration)
    requires (f1 - f0) * WAD <= impact * u
    requires v <= 2 * WAD * (AskVariance(p0, s, cap) - BidVariance(p0, s, cap) - 2)
    requires ExitIntegral(BidVariance(p1, s, cap), BidImpactSlope(impact, remaining, duration, s), v) >= 0
    ensures ExitProceeds(BidVariance(p1, s, cap), BidImpactSlope(impact, remaining, duration, s), unitNotional, v)
         <= IssuePremium(AskVariance(p0, s, cap), AskImpactSlope(impact, remaining, duration, s), unitNotional, u)
  {
    hide AskVariance, BidVariance, AskImpactSlope, BidImpactSlope, IssuePremium, ExitProceeds, ExitIntegral, Floor,
         Ceil, Excess;
    RoundTripGainsAtMost(z, f0, f1, p0, p1, remaining, duration, s, cap, impact, unitNotional, u, v);
    NoExcess(AskVariance(p0, s, cap), BidVariance(p0, s, cap), v);
    CeilIs(0, 2 * WAD, 0);
    FloorIs(0, WAD2, 1);
  }

  lemma FloorThenCeil(n: nat, gain: nat, cost: nat, extra: nat, d: nat)
    requires d > 0 && gain <= cost + extra
    ensures Floor(n * gain, d) <= Ceil(n * cost, d) + Floor(n * extra, d)
  {
    hide Floor, Ceil;
    MulMono(gain, cost + extra, n);
    MulMono(0, n, cost);
    MulMono(0, n, extra);
    assert n * (cost + extra) == n * cost + n * extra;
    var g, c := Floor(n * gain, d), Ceil(n * cost, d);
    assert (g - c) * d == g * d - c * d;
    FloorIs(n * extra, d, g - c);
  }

  /** Both slopes, over their common denominator, bracket the exact bid slope. */
  lemma SlopesBracket(impact: nat, remaining: nat, duration: nat, s: nat) returns (k: nat)
    requires 0 < duration && s < BPS
    ensures k == impact * remaining * (BPS - s)
    ensures k <= BidImpactSlope(impact, remaining, duration, s) * (duration * BPS) + duration * BPS
    ensures k <= AskImpactSlope(impact, remaining, duration, s) * (duration * BPS)
  {
    MulMono(0, impact, remaining);
    MulMono(0, impact * remaining, BPS - s);
    k := impact * remaining * (BPS - s);
    MulMono(BPS - s, BPS + s, impact * remaining);
  }

  lemma RiseInWad(lift: int, d: nat, rise: nat, remaining: nat, k: nat, impact: nat, u: nat)
    requires lift * d <= rise * remaining * k
    requires rise * WAD <= impact * u
    ensures lift * (WAD * d) <= impact * remaining * k * u
  {
    MulMono(lift * d, rise * remaining * k, WAD);
    assert lift * (WAD * d) == (lift * d) * WAD;
    assert (rise * remaining * k) * WAD == (rise * WAD) * (remaining * k);
    MulMono(rise * WAD, impact * u, remaining * k);
    assert (impact * u) * (remaining * k) == impact * remaining * k * u;
  }
}
