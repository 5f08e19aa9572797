/** From a writer's three decisions and their overrides to a complete set of series terms. */
module Derivation {
  import opened Arith
  import opened Outcomes
  import opened Text
  import opened Format
  import opened Pricing
  import opened Market

  // ---------------------------------------------------------------- constants

  const HOUR: nat := 3_600
  const DAY: nat := 86_400
  const MAX_SAMPLES: nat := 84
  const MIN_SAMPLES: nat := 2
  const CONTRACT_MAX_SAMPLES: nat := 256
  const INTERVAL_LADDER: seq<nat> := [1_800, 3_600, 7_200, 14_400, 21_600, 43_200, 86_400]
  const RV_FLOOR: nat := 40_000_000_000_000_000
  const UNIT_NOTIONAL: nat := 100_000_000
  const UNITS_STEP: nat := 10_000_000_000_000_000
  const MIN_UNITS: nat := WAD
  const MAX_CAP_VARIANCE: nat := 4 * WAD
  const CAP_VOL_LADDER: seq<nat> := [WAD / 2, 3 * WAD / 4, WAD, 3 * WAD / 2, 2 * WAD]
  const SELLOUT_LIFT_BPS: nat := 5_000
  const HALF_SPREAD_BPS: nat := 200
  const MIN_HALF_SPREAD_BPS: nat := 10
  const MAX_HALF_SPREAD_BPS: nat := 2_000
  const USDC_DECIMALS: nat := 6
  const WAD_DECIMALS: nat := 18
  const UINT32_MAX: nat := 0xFFFF_FFFF
  const UINT40_MAX: nat := 0xFF_FFFF_FFFF
  const UINT64_MAX: nat := 0xFFFF_FFFF_FFFF_FFFF
  const UINT128_MAX: nat := 0xFFFF_FFFF_FFFF_FFFF_FFFF_FFFF_FFFF_FFFF

  // ---------------------------------------------------------------- what a writer enters

  datatype Stance = Cheap | Fair | Rich | Custom

  /** An override that was never opened is absent; anything else is the text typed. */
  datatype Overrides = Overrides(
    start: Option<string>, tenorDays: Option<string>, sampleInterval: Option<string>, saleMode: Option<string>,
    unitNotional: Option<string>, capVolPct: Option<string>, halfSpreadBps: Option<string>,
    selloutLiftBps: Option<string>, impactPerUnit: Option<string>, halfLifeHours: Option<string>,
    maxUnits: Option<string>)

  datatype Input = Input(
    now: nat, trailingVariance: Option<nat>, tenorDays: nat, collateral: string,
    stance: Stance, customVolPct: string, walletUsdc: Option<int>, overrides: Overrides)

  datatype Issue =
    | AnchorParse | AnchorUnavailable | AnchorRange | SpreadRange | CapParse | CapCeiling | AnchorOverCap | AskOverCap
    | TenorParse | StartParse | SamplesFloor | SamplesCeiling | TimestampRange | NotionalParse | NotionalRange
    | CollateralParse | UnitsParse | UnitsRange | UnderOneUnit | NoCollateral | ShortBalance
    | ImpactParse | ImpactRange | HalfLifeParse | HalfLifeRange | Divisibility | IntervalFloor

  /** What a section settles on, with the errors it raised on the way. */
  datatype Settled<T> = Settled(value: T, errors: seq<Issue>)

  datatype Window = Window(start: nat, sampleInterval: nat, samples: nat, saleEnd: nat) {
    function Expiry(): nat {
      start + samples * sampleInterval
    }
  }

  datatype Draft = Draft(
    start: nat, expiry: nat, saleEnd: nat, sampleInterval: nat, unitNotional: nat, capVariance: nat,
    anchorVariance: nat, impactPerUnit: nat, halfLife: nat, halfSpreadBps: nat, maxUnits: nat)
  {
    function ToParams(decay: Decay): Params {
      Params(start, expiry, saleEnd, sampleInterval, unitNotional, capVariance, anchorVariance, impactPerUnit,
             halfLife, halfSpreadBps, maxUnits, decay)
    }
  }

  datatype Derived = Derived(
    params: Option<Draft>, draft: Draft, samples: nat, collateralTyped: Option<int>, collateralCommitted: nat,
    varianceAtSellOut: nat, askAtSellOut: nat, errors: seq<Issue>)

  // ---------------------------------------------------------------- reading the text

  function TryParse(text: string, decimals: nat): Option<int> {
    var r := ParseDecimal(text, decimals);
    if r.Ok? then Some(r.value) else None
  }

  /** A run of digits, with blanks around it allowed and nothing else. */
  function ParseInt(text: Option<string>): Option<nat> {
    if text.None? then None
    else
      var t := Trim(text.value);
      if t != "" && AllDigits(t) then Some(NatOf(t)) else None
  }

  function VarianceFromVol(volPct: int): nat {
    var vol := Floor(Abs(volPct), 100);
    Floor(vol * vol, WAD)
  }

  function ParseVariance(pct: string): Option<nat> {
    var v := TryParse(pct, WAD_DECIMALS);
    if v.Some? then Some(VarianceFromVol(v.value)) else None
  }

  function Clamp(v: nat, lo: nat, hi: nat): nat {
    if v < lo then lo else if v > hi then hi else v
  }

  // ---------------------------------------------------------------- price, spread and cap

  function StanceBps(stance: Stance): nat {
    match stance
    case Cheap => 10_000
    case Rich => 13_500
    case _ => 11_500
  }

  function StanceVariance(trailing: nat, bps: nat): nat {
    Floor(trailing * bps * bps, BPS * BPS)
  }

  function TrailingOf(input: Input): nat {
    if input.trailingVariance.Some? then Max(RV_FLOOR, input.trailingVariance.value) else RV_FLOOR
  }

  function PriceOf(input: Input, trailing: nat): Settled<nat> {
    if input.stance.Custom? then
      var v := ParseVariance(input.customVolPct);
      if v.None? || v.value == 0 then Settled(StanceVariance(trailing, StanceBps(Fair)), [AnchorParse])
      else Settled(v.value, [])
    else if input.trailingVariance.None? then
      Settled(StanceVariance(trailing, StanceBps(Fair)), [AnchorUnavailable])
    else Settled(StanceVariance(trailing, StanceBps(input.stance)), [])
  }

  function AnchorOf(input: Input, trailing: nat): Settled<nat> {
    var price := PriceOf(input, trailing);
    if price.value > UINT64_MAX then Settled(StanceVariance(trailing, StanceBps(Fair)), price.errors + [AnchorRange])
    else price
  }

  function HalfSpreadOf(text: Option<string>): (s: Settled<nat>)
    ensures MIN_HALF_SPREAD_BPS <= s.value <= MAX_HALF_SPREAD_BPS
  {
    if text.None? then Settled(HALF_SPREAD_BPS, [])
    else
      var v := ParseInt(text);
      if v.None? || v.value < MIN_HALF_SPREAD_BPS || v.value > MAX_HALF_SPREAD_BPS
      then Settled(HALF_SPREAD_BPS, [SpreadRange])
      else Settled(v.value, [])
  }

  ghost function SqrtWad(variance: nat): nat {
    FloorSqrt(variance * WAD)
  }

  function RoundCapVol(floorVol: nat, i: nat): nat
    requires i < |CAP_VOL_LADDER|
    decreases |CAP_VOL_LADDER| - i
  {
    if CAP_VOL_LADDER[i] >= floorVol || i == |CAP_VOL_LADDER| - 1 then CAP_VOL_LADDER[i]
    else RoundCapVol(floorVol, i + 1)
  }

  /** The cap a volatility floor asks for: the next round volatility of the ladder, squared. */
  function CapAbove(floorVol: nat): nat {
    var capVol := RoundCapVol(floorVol, 0);
    Floor(capVol * capVol, WAD)
  }

  ghost function CapVariance(trailing: nat, anchor: nat): nat {
    CapAbove(Max(2 * SqrtWad(trailing), SqrtWad(2 * anchor)))
  }

  /** The root comes from a floating-point seed, which may be anything at all. */
  method SqrtWadFrom(variance: nat, seed: nat) returns (r: nat)
    ensures r == SqrtWad(variance)
  {
    r := IsqrtFromSeed(variance * WAD, seed);
  }

  method CapVarianceFor(trailing: nat, anchor: nat) returns (cap: nat)
    ensures cap == CapVariance(trailing, anchor)
  {
    var seed: nat, other: nat := *, *;
    var trailingVol := SqrtWadFrom(trailing, seed);
    var anchorVol := SqrtWadFrom(2 * anchor, other);
    cap := CapAbove(Max(2 * trailingVol, anchorVol));
  }

  /** What the derived cap is overridden with, if the text names a volatility the contract accepts. */
  function CapOverride(text: Option<string>): Settled<Option<nat>> {
    if text.None? then Settled(None, [])
    else
      var v := ParseVariance(text.value);
      if v.None? || v.value == 0 then Settled(None, [CapParse])
      else if v.value > MAX_CAP_VARIANCE then Settled(None, [CapCeiling])
      else Settled(v, [])
  }

  function CapOf(override: Option<nat>, derived: nat): nat {
    Min(if override.Some? then override.value else derived, MAX_CAP_VARIANCE)
  }

  /** The opening ask has to stay inside the cap, or the market could never sell. */
  function PriceErrors(anchor: nat, cap: nat, spread: nat): seq<Issue> {
    if anchor > cap then [AnchorOverCap]
    else if MulDivUp(anchor, BPS + spread, BPS) > cap then [AskOverCap]
    else []
  }

  // ---------------------------------------------------------------- the window

  function DefaultStart(now: nat): nat {
    Ceil(now + 300, HOUR) * HOUR
  }

  function FinestFrom(tenor: nat, i: nat): (d: nat)
    requires i < |INTERVAL_LADDER|
    ensures d in INTERVAL_LADDER
    decreases |INTERVAL_LADDER| - i
  {
    if Ceil(tenor, INTERVAL_LADDER[i]) <= MAX_SAMPLES || i == |INTERVAL_LADDER| - 1 then INTERVAL_LADDER[i]
    else FinestFrom(tenor, i + 1)
  }

  function IntervalFor(tenor: nat): nat {
    FinestFrom(tenor, 0)
  }

  /** To the nearest integer, halves up. */
  function RoundedQuotient(a: nat, b: nat): nat
    requires b > 0
  {
    Floor(2 * a + b, 2 * b)
  }

  function SaleSteps(mode: Option<string>, n: nat): nat {
    if mode == Some("start") then 0
    else if mode == Some("half") then Max(1, n / 2)
    else if mode == Some("expiry") then n
    else Max(1, n / 4)
  }

  /** Where the sale would end, clamped to the window. */
  function NominalSaleEnd(start: nat, interval: nat, n: nat, mode: Option<string>): nat {
    Min(start + n * interval, start + SaleSteps(mode, n) * interval)
  }

  function WindowOf(input: Input): Settled<Window> {
    var ov := input.overrides;
    var tenorDays := ParseInt(ov.tenorDays);
    var tenor := Clamp(if tenorDays.Some? then tenorDays.value else input.tenorDays, 1, 3_650) * DAY;
    var chosen := ParseInt(ov.sampleInterval);
    var interval := if chosen.Some? && chosen.value in INTERVAL_LADDER then chosen.value else IntervalFor(tenor);
    var startAt := ParseInt(ov.start);
    var start := if startAt.Some? then startAt.value else DefaultStart(input.now);
    var n: nat := Max(1, RoundedQuotient(tenor, interval));
    var nominal := NominalSaleEnd(start, interval, n, ov.saleMode);
    var window := Window(start, interval, n, if nominal <= input.now then input.now + HOUR else nominal);
    Settled(window,
      (if ov.tenorDays.Some? && (tenorDays.None? || tenorDays.value < 1) then [TenorParse] else [])
      + (if ov.start.Some? && startAt.None? then [StartParse] else [])
      + (if n < MIN_SAMPLES then [SamplesFloor] else [])
      + (if n > CONTRACT_MAX_SAMPLES then [SamplesCeiling] else [])
      + (if start > UINT40_MAX || window.Expiry() > UINT40_MAX then [TimestampRange] else []))
  }

  // ---------------------------------------------------------------- size

  function NotionalOf(text: Option<string>): (s: Settled<nat>)
    ensures s.value > 0
  {
    if text.None? then Settled(UNIT_NOTIONAL, [])
    else
      var v := TryParse(text.value, USDC_DECIMALS);
      if v.None? || v.value <= 0 then Settled(UNIT_NOTIONAL, [NotionalParse])
      else if v.value > UINT128_MAX then Settled(UNIT_NOTIONAL, [NotionalRange])
      else Settled(v.value, [])
  }

  function CollateralTyped(text: string): Option<int> {
    TryParse(if text == "" then "0" else text, USDC_DECIMALS)
  }

  function CollateralErrors(text: string): seq<Issue> {
    if Trim(text) != "" && CollateralTyped(text).None? then [CollateralParse] else []
  }

  function Budget(typed: Option<int>): nat {
    if typed.Some? && typed.value > 0 then typed.value else 0
  }

  /** The inventory a budget backs at the cap, in whole hundredths of a unit. */
  function Inventory(budget: nat, unitNotional: nat, cap: nat): nat {
    if unitNotional * cap == 0 then 0
    else Floor(Floor(budget * WAD2, unitNotional * cap), UNITS_STEP) * UNITS_STEP
  }

  function MaxUnitsOf(text: Option<string>, budget: nat, unitNotional: nat, cap: nat): Settled<nat> {
    if text.None? then Settled(Inventory(budget, unitNotional, cap), [])
    else
      var v := TryParse(text.value, WAD_DECIMALS);
      if v.None? || v.value <= 0 then Settled(0, [UnitsParse])
      else if v.value > UINT128_MAX then Settled(0, [UnitsRange])
      else Settled(v.value, [])
  }

  function SizeErrors(input: Input, budget: nat, maxUnits: nat, committed: nat): seq<Issue> {
    (if maxUnits >= MIN_UNITS || input.overrides.maxUnits.Some? then []
     else if budget > 0 then [UnderOneUnit]
     else [NoCollateral])
    + (if input.walletUsdc.Some? && committed > input.walletUsdc.value then [ShortBalance] else [])
  }

  // ---------------------------------------------------------------- impact and decay

  function LiftBps(text: Option<string>): nat {
    var v := ParseInt(text);
    if v.Some? && v.value > 0 then v.value else SELLOUT_LIFT_BPS
  }

  /** The most forward variance the spread leaves room for under the cap. */
  function AskCeiling(cap: nat, spread: nat): nat {
    Floor(cap * BPS, BPS + spread)
  }

  /** How far selling everything may lift the forward variance. */
  function Lift(anchor: nat, liftBps: nat, cap: nat, spread: nat): nat {
    Min(Floor(anchor * liftBps, BPS), Max(0, AskCeiling(cap, spread) - anchor))
  }

  function DerivedImpact(lift: nat, maxUnits: nat): nat {
    if maxUnits > 0 then Floor(lift * WAD, maxUnits) else 0
  }

  function ImpactOf(text: Option<string>, derived: nat, cap: nat): Settled<nat> {
    if text.None? then Settled(derived, [])
    else
      var v := TryParse(text.value, WAD_DECIMALS);
      if v.None? || v.value < 0 then Settled(derived, [ImpactParse])
      else if v.value > cap then Settled(derived, [ImpactRange])
      else Settled(v.value, [])
  }

  function VarianceAtSellOut(anchor: nat, impact: nat, maxUnits: nat): nat {
    anchor + Floor(impact * maxUnits, WAD)
  }

  function AskAtSellOut(variance: nat, cap: nat, spread: nat): nat {
    MulDivUp(Min(variance, cap), BPS + spread, BPS)
  }

  function HalfLifeOf(text: Option<string>, interval: nat): Settled<nat> {
    var derived := Clamp(3 * interval, HOUR, 12 * HOUR);
    if text.None? then Settled(derived, [])
    else
      var v := TryParse(text.value, 0);
      if v.None? || v.value < 0 then Settled(derived, [HalfLifeParse])
      else if v.value * HOUR > UINT32_MAX then Settled(derived, [HalfLifeRange])
      else Settled(v.value * HOUR, [])
  }

  // ---------------------------------------------------------------- the derivation

  function LastDefence(draft: Draft): seq<Issue>
    requires draft.sampleInterval > 0
  {
    (if (draft.expiry - draft.start) % draft.sampleInterval != 0 then [Divisibility] else [])
    + (if draft.sampleInterval < 300 then [IntervalFloor] else [])
  }

  /** The terms ship only without an error, with a unit to sell and a price and cap above zero. */
  function Shipped(draft: Draft, errors: seq<Issue>): Option<Draft> {
    if errors == [] && draft.maxUnits >= MIN_UNITS && draft.anchorVariance > 0 && draft.capVariance > 0
    then Some(draft) else None
  }

  lemma WindowHasInterval(input: Input)
    ensures WindowOf(input).value.sampleInterval in INTERVAL_LADDER
    ensures WindowOf(input).value.sampleInterval > 0
  {
  }

  ghost function Derive(input: Input): Derived {
    var ov, trailing := input.overrides, TrailingOf(input);
    var anchor := AnchorOf(input, trailing);
    var spread := HalfSpreadOf(ov.halfSpreadBps);
    var capOverride := CapOverride(ov.capVolPct);
    var cap: nat := CapOf(capOverride.value, CapVariance(trailing, anchor.value));
    var window := WindowOf(input);
    var notional := NotionalOf(ov.unitNotional);
    var typed := CollateralTyped(input.collateral);
    var units := MaxUnitsOf(ov.maxUnits, Budget(typed), notional.value, cap);
    var committed := MaxLiability(units.value, notional.value, cap);
    var lift := Lift(anchor.value, LiftBps(ov.selloutLiftBps), cap, spread.value);
    var impact := ImpactOf(ov.impactPerUnit, DerivedImpact(lift, units.value), cap);
    var atSellOut := VarianceAtSellOut(anchor.value, impact.value, units.value);
    var halfLife := HalfLifeOf(ov.halfLifeHours, window.value.sampleInterval);
    var w := window.value;
    var draft := Draft(w.start, w.Expiry(), w.saleEnd, w.sampleInterval, notional.value, cap, anchor.value,
                       impact.value, halfLife.value, spread.value, units.value);
    var errors := anchor.errors + spread.errors + capOverride.errors + PriceErrors(anchor.value, cap, spread.value)
      + window.errors + notional.errors + CollateralErrors(input.collateral) + units.errors
      + SizeErrors(input, Budget(typed), units.value, committed) + impact.errors + halfLife.errors
      + (WindowHasInterval(input); LastDefence(draft));
    Derived(Shipped(draft, errors), draft, w.samples, typed, committed, atSellOut,
            AskAtSellOut(atSellOut, cap, spread.value), errors)
  }

  /** What shipping promises: a valid series over whole days, an anchor and an opening ask inside the cap, and, where
      the writer left inventory and impact alone, a liability inside the collateral typed and an ask inside the cap
      even after everything has sold. */
  ghost predicate Sound(input: Input, d: Derived) {
    && (forall decay :: d.draft.ToParams(decay).Valid())
    && d.draft.expiry - d.draft.start == d.samples * d.draft.sampleInterval == WindowDays(input) * DAY
    && MIN_SAMPLES <= d.samples <= CONTRACT_MAX_SAMPLES
    && 0 < d.draft.anchorVariance <= d.draft.capVariance <= MAX_CAP_VARIANCE
    && MulDivUp(d.draft.anchorVariance, BPS + d.draft.halfSpreadBps, BPS) <= d.draft.capVariance
    && (input.overrides.maxUnits.None? ==> d.collateralTyped.Some? && d.collateralCommitted <= d.collateralTyped.value)
    && (input.overrides.impactPerUnit.None? ==> d.askAtSellOut <= d.draft.capVariance)
  }

  lemma ShippedIsSound(input: Input)
    requires Derive(input).params.Some?
    ensures Sound(input, Derive(input))
  {
    hide Derive, WindowDays, MulDivUp, Params.Valid, MaxLiability, AskCeiling;
    forall decay: Decay {
      ShippedTermsAreValid(input, decay);
    }
    ShippedTermsAreValid(input, _ => 0);
    ShippedSellOutIff(input);
    if input.overrides.maxUnits.None? {
      ShippedInventoryFitsTheBudget(input, 0);
    }
  }

  method DeriveSeries(input: Input) returns (d: Derived)
    ensures d == Derive(input)
    ensures d.params.Some? ==> Sound(input, d)
  {
    hide AnchorOf, HalfSpreadOf, CapOverride, CapVariance, CapOf, PriceErrors, WindowOf, NotionalOf, CollateralTyped,
         CollateralErrors, Budget, MaxUnitsOf, MaxLiability, SizeErrors, LiftBps, Lift, DerivedImpact, ImpactOf,
         VarianceAtSellOut, AskAtSellOut, HalfLifeOf, LastDefence, Shipped, Sound;
    if Derive(input).params.Some? {
      ShippedIsSound(input);
    }
    var errors: seq<Issue> := [];
    var ov, trailing := input.overrides, TrailingOf(input);
    var anchor := AnchorOf(input, trailing);
    errors := errors + anchor.errors;
    assert errors == anchor.errors;
    var spread := HalfSpreadOf(ov.halfSpreadBps);
    errors := errors + spread.errors;
    var capOverride := CapOverride(ov.capVolPct);
    errors := errors + capOverride.errors;
    var derivedCap := CapVarianceFor(trailing, anchor.value);
    var cap: nat := CapOf(capOverride.value, derivedCap);
    errors := errors + PriceErrors(anchor.value, cap, spread.value);
    var window := WindowOf(input);
    errors := errors + window.errors;
    var notional := NotionalOf(ov.unitNotional);
    errors := errors + notional.errors;
    var typed := CollateralTyped(input.collateral);
    errors := errors + CollateralErrors(input.collateral);
    var units := MaxUnitsOf(ov.maxUnits, Budget(typed), notional.value, cap);
    errors := errors + units.errors;
    var committed := MaxLiability(units.value, notional.value, cap);
    errors := errors + SizeErrors(input, Budget(typed), units.value, committed);
    var lift := Lift(anchor.value, LiftBps(ov.selloutLiftBps), cap, spread.value);
    var impact := ImpactOf(ov.impactPerUnit, DerivedImpact(lift, units.value), cap);
    errors := errors + impact.errors;
    var atSellOut := VarianceAtSellOut(anchor.value, impact.value, units.value);
    var halfLife := HalfLifeOf(ov.halfLifeHours, window.value.sampleInterval);
    errors := errors + halfLife.errors;
    var w := window.value;
    var draft := Draft(w.start, w.Expiry(), w.saleEnd, w.sampleInterval, notional.value, cap, anchor.value,
                       impact.value, halfLife.value, spread.value, units.value);
    WindowHasInterval(input);
    errors := errors + LastDefence(draft);
    d := Derived(Shipped(draft, errors), draft, w.samples, typed, committed, atSellOut,
                 AskAtSellOut(atSellOut, cap, spread.value), errors);
  }

  // ---------------------------------------------------------------- the stance never moves the size

  lemma RootsApart(t: nat, r: nat, s: nat, x: nat)
    requires t >= RV_FLOOR && IsRoot(t * WAD, r)
    requires s * s <= 2 * x * WAD && x * (BPS * BPS) <= t * 13_500 * 13_500
    ensures s <= 2 * r
  {
    if r < 1_000 {
      SquareMono(r + 1, 1_000);
    }
    TwiceTheRootCovers(t * WAD, r, x * WAD);
    if s > 2 * r {
      SquareMono(2 * r + 1, s);
    }
  }

  lemma TwiceTheRootCovers(tw: int, r: int, xw: int)
    requires r >= 1_000 && tw < (r + 1) * (r + 1) && xw * 100_000_000 <= tw * 182_250_000
    ensures 2 * xw < (2 * r + 1) * (2 * r + 1)
  {
    assert (r + 1) * (r + 1) == r * r + 2 * r + 1;
    assert (2 * r + 1) * (2 * r + 1) == 4 * (r * r) + 4 * r + 1;
    MulMono(1_000, r, r);
  }

  /** A volatility of at most 1.35 times trailing never asks for a higher cap than twice trailing does, through both
      rounded square roots. */
  lemma StanceKeepsCap(trailing: nat, bps: nat)
    requires trailing >= RV_FLOOR && bps <= 13_500
    ensures CapVariance(trailing, StanceVariance(trailing, bps)) == CapVariance(trailing, 0)
  {
    var x := StanceVariance(trailing, bps);
    SquareMono(bps, 13_500);
    MulMono(bps * bps, 13_500 * 13_500, trailing);
    assert trailing * bps * bps == trailing * (bps * bps);
    RootsApart(trailing, SqrtWad(trailing), SqrtWad(2 * x), x);
    RootUnique(0, FloorSqrt(0), 0);
  }

  /** Whichever named stance a writer takes, the cap, the inventory and the collateral committed stay the same. */
  lemma StanceNeverMovesTheSize(input: Input, other: Stance)
    requires !input.stance.Custom? && !other.Custom?
    ensures var d, e := Derive(input), Derive(input.(stance := other));
      && d.draft.capVariance == e.draft.capVariance
      && d.draft.maxUnits == e.draft.maxUnits
      && d.collateralCommitted == e.collateralCommitted
  {
    hide StanceVariance, CapVariance, PriceErrors, WindowOf, NotionalOf, HalfLifeOf, ImpactOf, MaxUnitsOf, Lift,
         CapOf, CapOverride, MaxLiability, AskAtSellOut, VarianceAtSellOut, LastDefence, Shipped, SizeErrors,
         CollateralErrors, CollateralTyped, HalfSpreadOf, DerivedImpact;
    var trailing := TrailingOf(input);
    forall bps | bps in {10_000, 11_500, 13_500}
      ensures CapVariance(trailing, StanceVariance(trailing, bps)) == CapVariance(trailing, 0)
    {
      StanceKeepsCap(trailing, bps);
    }
  }

  // ---------------------------------------------------------------- the window and the sale

  /** Every interval on the ladder divides a day, so a window of whole days is a whole number of samples. */
  lemma WholeDays(days: nat, interval: nat)
    requires interval in INTERVAL_LADDER && days >= 1
    ensures RoundedQuotient(days * DAY, interval) >= 1
    ensures RoundedQuotient(days * DAY, interval) * interval == days * DAY
  {
    var perDay := DAY / interval;
    assert perDay * interval == DAY && perDay >= 1;
    var q := days * perDay;
    assert q * interval == days * (perDay * interval);
    FloorIs(2 * (days * DAY) + interval, 2 * interval, q);
    FloorIs(2 * (days * DAY) + interval, 2 * interval, q + 1);
    MulMono(1, days, perDay);
  }

  function WindowDays(input: Input): nat {
    var typed := ParseInt(input.overrides.tenorDays);
    Clamp(if typed.Some? then typed.value else input.tenorDays, 1, 3_650)
  }

  /** Shipped or not, the window lasts the whole days asked for, and its samples tile it exactly. */
  lemma WindowTilesWholeDays(input: Input)
    ensures var w := WindowOf(input).value;
      && w.samples >= 1
      && w.samples * w.sampleInterval == WindowDays(input) * DAY
      && DAY % w.sampleInterval == 0 && w.sampleInterval >= 1_800
  {
    hide ParseInt, IntervalFor, NominalSaleEnd, DefaultStart, RoundedQuotient;
    WindowHasInterval(input);
    var w := WindowOf(input).value;
    WholeDays(WindowDays(input), w.sampleInterval);
    assert w.samples == RoundedQuotient(WindowDays(input) * DAY, w.sampleInterval);
  }

  /** The derived grid keeps the samples inside the ceiling unless it is the coarsest, and no finer one would. */
  lemma {:induction false} FinestFits(tenor: nat, i: nat)
    requires i < |INTERVAL_LADDER|
    ensures forall h | i <= h < |INTERVAL_LADDER| && INTERVAL_LADDER[h] < FinestFrom(tenor, i) ::
              Ceil(tenor, INTERVAL_LADDER[h]) > MAX_SAMPLES
    ensures Ceil(tenor, FinestFrom(tenor, i)) <= MAX_SAMPLES || FinestFrom(tenor, i) == DAY
    decreases |INTERVAL_LADDER| - i
  {
    hide Ceil;
    if Ceil(tenor, INTERVAL_LADDER[i]) <= MAX_SAMPLES || i == |INTERVAL_LADDER| - 1 {
    } else {
      FinestFits(tenor, i + 1);
    }
  }

  /** The sale always outlasts the moment of writing, and ends inside the window exactly when the window itself still
      has a sale to offer or at least an hour to run. */
  lemma SaleEndsInsideIff(input: Input)
    ensures var w := WindowOf(input).value;
      var nominal := NominalSaleEnd(w.start, w.sampleInterval, w.samples, input.overrides.saleMode);
      && w.saleEnd > input.now
      && nominal <= w.Expiry()
      && (w.saleEnd <= w.Expiry() <==> nominal > input.now || input.now + HOUR <= w.Expiry())
  {
  }

  /** A window that has not started yet always keeps its sale inside. */
  lemma FutureWindowsKeepTheirSale(input: Input)
    requires WindowOf(input).value.start > input.now
    ensures WindowOf(input).value.saleEnd <= WindowOf(input).value.Expiry()
  {
    SaleEndsInsideIff(input);
    hide *;
    var w := WindowOf(input).value;
    NominalIsAfterStart(w.start, w.sampleInterval, w.samples, input.overrides.saleMode);
  }

  lemma NominalIsAfterStart(start: nat, interval: nat, n: nat, mode: Option<string>)
    ensures start <= NominalSaleEnd(start, interval, n, mode)
  {
    MulMono(0, n, interval);
    MulMono(0, SaleSteps(mode, n), interval);
  }

  /** A day that began at second 0, written at second 10,000,000 on 5000 USDC, with or without an impact and an
      inventory of its own. */
  function BackDated(impact: Option<string>, units: Option<string>): Input {
    Input(10_000_000, Some(WAD / 4), 1, "5000", Fair, "", None,
          Overrides(Some("0"), None, None, None, None, None, None, None, impact, None, units))
  }

  lemma BackDatedSaleOutlivesItsWindow(impact: Option<string>, units: Option<string>)
    ensures var w := WindowOf(BackDated(impact, units));
      w.errors == [] && w.value.Expiry() == 86_400 && w.value.saleEnd == 10_003_600
  {
    var input := BackDated(impact, units);
    assert ParseInt(input.overrides.start) == Some(0) by {
      NothingToTrim("0");
      assert AllDigits("0") by { assert "0"[..0] == ""; }
      assert NatOf("0") == 0 by { assert "0"[..0] == ""; assert NatOf("") == 0; }
    }
    WindowTilesWholeDays(input);
  }

  // ---------------------------------------------------------------- the inventory

  lemma LiabilityFitsIff(units: nat, unitNotional: nat, cap: nat, budget: nat)
    requires unitNotional * cap > 0
    ensures MaxLiability(units, unitNotional, cap) <= budget <==> units <= Floor(budget * WAD2, unitNotional * cap)
  {
    hide MaxLiability, Floor, Ceil;
    MaxLiabilityIs(units, unitNotional, cap);
    CeilIs(units * (unitNotional * cap), WAD2, budget);
    FloorIs(budget * WAD2, unitNotional * cap, units);
  }

  /** The inventory is the largest whole number of hundredths whose liability at the cap fits the budget. */
  lemma InventoryIsLargest(budget: nat, unitNotional: nat, cap: nat, hundredths: nat)
    requires unitNotional > 0 && cap > 0
    ensures Inventory(budget, unitNotional, cap) % UNITS_STEP == 0
    ensures MaxLiability(hundredths * UNITS_STEP, unitNotional, cap) <= budget
      <==> hundredths * UNITS_STEP <= Inventory(budget, unitNotional, cap)
  {
    hide MaxLiability;
    MulMono(1, unitNotional, cap);
    LiabilityFitsIff(hundredths * UNITS_STEP, unitNotional, cap, budget);
    FloorIs(Floor(budget * WAD2, unitNotional * cap), UNITS_STEP, hundredths);
  }

  lemma InventoryFits(budget: nat, unitNotional: nat, cap: nat)
    requires unitNotional > 0 && cap > 0
    ensures MaxLiability(Inventory(budget, unitNotional, cap), unitNotional, cap) <= budget
  {
    InventoryIsLargest(budget, unitNotional, cap, Inventory(budget, unitNotional, cap) / UNITS_STEP);
  }

  /** What the MAX button fills in for a balance. */
  function MaxCollateral(balance: int, unitNotional: nat, cap: nat): nat {
    if balance <= 0 || unitNotional == 0 || cap == 0 then 0
    else MaxLiability(Inventory(balance, unitNotional, cap), unitNotional, cap)
  }

  /** It is the least collateral that backs as much inventory as the whole balance would. */
  lemma MaxFillsTheSameInventory(balance: nat, unitNotional: nat, cap: nat, typed: nat)
    requires unitNotional > 0 && cap > 0
    ensures MaxCollateral(balance, unitNotional, cap) <= balance
    ensures Inventory(typed, unitNotional, cap) >= Inventory(balance, unitNotional, cap)
      <==> typed >= MaxCollateral(balance, unitNotional, cap)
  {
    InventoryFits(balance, unitNotional, cap);
    var i := Inventory(balance, unitNotional, cap);
    InventoryIsLargest(balance, unitNotional, cap, i / UNITS_STEP);
    InventoryIsLargest(typed, unitNotional, cap, i / UNITS_STEP);
    FloorIs(0, unitNotional * cap, 0);
  }

  // ---------------------------------------------------------------- the ask at sell-out

  /** The ask stays inside the cap exactly when the variance stays under what the spread leaves room for. */
  lemma AskInsideCapIff(variance: nat, cap: nat, spread: nat)
    requires cap > 0 && spread > 0
    ensures AskAtSellOut(variance, cap, spread) <= cap <==> variance <= AskCeiling(cap, spread)
  {
    var v: nat := Min(variance, cap);
    CeilIs(v * (BPS + spread), BPS, cap);
    FloorIs(cap * BPS, BPS + spread, v);
    FloorIs(cap * BPS, BPS + spread, cap);
    MulMono(1, cap, spread);
    assert cap * (BPS + spread) == cap * BPS + cap * spread;
  }

  /** The derived impact lifts the variance at sell-out no higher than the room the spread leaves. */
  lemma DerivedImpactStaysUnder(lift: nat, maxUnits: nat)
    ensures Floor(DerivedImpact(lift, maxUnits) * maxUnits, WAD) <= lift
  {
    if maxUnits > 0 {
      var impact := DerivedImpact(lift, maxUnits);
      FloorMono(impact * maxUnits, lift * WAD, WAD);
      FloorIs(lift * WAD, WAD, lift + 1);
    } else {
      FloorIs(0, WAD, 1);
    }
  }

  // ---------------------------------------------------------------- the terms that ship

  /** Terms ship only when no section raised an error and there is at least one unit to sell. */
  lemma ShippedIsClean(input: Input)
    requires Derive(input).params.Some?
    ensures var d, ov, w := Derive(input), input.overrides, WindowOf(input);
      && d.params == Some(d.draft)
      && d.draft.maxUnits >= MIN_UNITS && d.draft.anchorVariance > 0 && d.draft.capVariance > 0
      && PriceErrors(d.draft.anchorVariance, d.draft.capVariance, d.draft.halfSpreadBps) == []
      && w.errors == []
      && d.draft.start == w.value.start && d.draft.expiry == w.value.Expiry() && d.draft.saleEnd == w.value.saleEnd
      && d.draft.sampleInterval == w.value.sampleInterval && d.samples == w.value.samples
  {
    hide AnchorOf, HalfSpreadOf, CapOverride, CapVariance, CapOf, PriceErrors, WindowOf, NotionalOf, CollateralTyped,
         CollateralErrors, Budget, MaxUnitsOf, MaxLiability, SizeErrors, LiftBps, Lift, DerivedImpact, ImpactOf,
         VarianceAtSellOut, AskAtSellOut, HalfLifeOf, LastDefence;
  }

  lemma ShippedWindow(input: Input)
    requires WindowOf(input).errors == []
    ensures var w := WindowOf(input).value;
      && w.Expiry() - w.start == w.samples * w.sampleInterval == WindowDays(input) * DAY
      && w.start < w.Expiry()
      && (w.Expiry() - w.start) % w.sampleInterval == 0
      && MIN_SAMPLES <= w.samples <= CONTRACT_MAX_SAMPLES
      && w.saleEnd > input.now
  {
    hide ParseInt, IntervalFor, NominalSaleEnd, DefaultStart, RoundedQuotient, WindowDays;
    var w := WindowOf(input).value;
    WindowTilesWholeDays(input);
    MultipleHasNoRest(w.samples, w.sampleInterval);
    MulMono(1, w.samples, w.sampleInterval);
  }

  lemma ShippedPrice(input: Input)
    requires Derive(input).params.Some?
    ensures var d := Derive(input).draft;
      && d.unitNotional > 0
      && 0 < d.anchorVariance <= d.capVariance <= MAX_CAP_VARIANCE
      && MulDivUp(d.anchorVariance, BPS + d.halfSpreadBps, BPS) <= d.capVariance
      && MIN_HALF_SPREAD_BPS <= d.halfSpreadBps <= MAX_HALF_SPREAD_BPS
  {
    hide AnchorOf, HalfSpreadOf, CapOverride, CapVariance, CollateralTyped, CollateralErrors, Budget, MaxUnitsOf,
         MaxLiability, SizeErrors, LiftBps, Lift, DerivedImpact, ImpactOf, VarianceAtSellOut, AskAtSellOut, HalfLifeOf,
         LastDefence, Shipped, WindowOf, NotionalOf, MulDivUp;
    ShippedIsClean(input);
  }

  /** What ships is a valid series inside the contract's own bounds: 2 to 256 whole samples over whole days, an anchor
      and an opening ask inside the cap, a spread the contract accepts. */
  lemma ShippedTermsAreValid(input: Input, decay: Decay)
    requires Derive(input).params.Some?
    ensures var d := Derive(input).draft;
      && d.ToParams(decay).Valid()
      && d.expiry - d.start == Derive(input).samples * d.sampleInterval == WindowDays(input) * DAY
      && MIN_SAMPLES <= Derive(input).samples <= CONTRACT_MAX_SAMPLES
      && 0 < d.anchorVariance <= d.capVariance <= MAX_CAP_VARIANCE
      && MulDivUp(d.anchorVariance, BPS + d.halfSpreadBps, BPS) <= d.capVariance
      && MIN_HALF_SPREAD_BPS <= d.halfSpreadBps <= MAX_HALF_SPREAD_BPS
      && d.saleEnd > input.now
  {
    hide Derive, WindowOf, WindowDays, MulDivUp, Window.Expiry;
    ShippedIsClean(input);
    ShippedWindow(input);
    ShippedPrice(input);
  }

  /** Without an inventory override, the whole inventory's liability fits the collateral typed, and no more would. */
  lemma ShippedInventoryFitsTheBudget(input: Input, hundredths: nat)
    requires Derive(input).params.Some? && input.overrides.maxUnits.None?
    ensures var d := Derive(input);
      && d.collateralTyped.Some?
      && d.collateralCommitted == MaxLiability(d.draft.maxUnits, d.draft.unitNotional, d.draft.capVariance)
      && d.collateralCommitted <= d.collateralTyped.value
      && (MaxLiability(hundredths * UNITS_STEP, d.draft.unitNotional, d.draft.capVariance) <= d.collateralTyped.value
          <==> hundredths * UNITS_STEP <= d.draft.maxUnits)
  {
    hide AnchorOf, CapOverride, CapVariance, CapOf, CollateralTyped, CollateralErrors, PriceErrors, WindowOf,
         MaxLiability, SizeErrors, LiftBps, Lift, DerivedImpact, ImpactOf, VarianceAtSellOut, AskAtSellOut,
         HalfLifeOf, LastDefence, Shipped, Inventory;
    ShippedIsClean(input);
    var d := Derive(input);
    var budget := Budget(d.collateralTyped);
    assert d.draft.maxUnits == Inventory(budget, d.draft.unitNotional, d.draft.capVariance);
    NoBudgetNoInventory(d.draft.unitNotional, d.draft.capVariance);
    InventoryFits(budget, d.draft.unitNotional, d.draft.capVariance);
    InventoryIsLargest(budget, d.draft.unitNotional, d.draft.capVariance, hundredths);
  }

  /** Derived or typed, the inventory's liability fits the collateral typed exactly when the inventory is at most what
      that collateral backs at the cap; a typed inventory need not be. */
  lemma ShippedLiabilityFitsIff(input: Input)
    requires Derive(input).params.Some?
    ensures var d, budget := Derive(input), Budget(Derive(input).collateralTyped);
      && d.draft.unitNotional * d.draft.capVariance > 0
      && (d.collateralCommitted <= budget
          <==> d.draft.maxUnits <= Floor(budget * WAD2, d.draft.unitNotional * d.draft.capVariance))
      && (input.overrides.maxUnits.Some? ==>
            TryParse(input.overrides.maxUnits.value, WAD_DECIMALS) == Some(d.draft.maxUnits))
  {
    hide AnchorOf, CapOverride, CapVariance, CapOf, CollateralTyped, CollateralErrors, PriceErrors, WindowOf,
         MaxLiability, SizeErrors, LiftBps, Lift, DerivedImpact, ImpactOf, VarianceAtSellOut, AskAtSellOut,
         HalfLifeOf, LastDefence, Shipped, Inventory, TryParse, Floor;
    ShippedIsClean(input);
    var d := Derive(input);
    MulMono(1, d.draft.unitNotional, d.draft.capVariance);
    LiabilityFitsIff(d.draft.maxUnits, d.draft.unitNotional, d.draft.capVariance, Budget(d.collateralTyped));
  }

  lemma NoBudgetNoInventory(unitNotional: nat, cap: nat)
    ensures Inventory(0, unitNotional, cap) == 0
  {
    if unitNotional * cap > 0 {
      FloorIs(0, unitNotional * cap, 1);
      FloorIs(0, UNITS_STEP, 1);
    }
  }

  lemma OpeningAskLeavesRoom(anchor: nat, cap: nat, spread: nat)
    requires PriceErrors(anchor, cap, spread) == [] && cap > 0 && spread > 0
    ensures anchor <= AskCeiling(cap, spread)
  {
    AskInsideCapIff(anchor, cap, spread);
  }

  /** The ask at sell-out stays inside the cap exactly when the variance it is quoted on stays under the room the
      spread leaves; the derived impact always does, an overridden one need not. */
  lemma ShippedSellOutIff(input: Input)
    requires Derive(input).params.Some?
    ensures var d := Derive(input);
      && (d.askAtSellOut <= d.draft.capVariance
          <==> d.varianceAtSellOut <= AskCeiling(d.draft.capVariance, d.draft.halfSpreadBps))
      && (input.overrides.impactPerUnit.None? ==> d.askAtSellOut <= d.draft.capVariance)
  {
    hide AnchorOf, CapOverride, CapVariance, CapOf, CollateralTyped, CollateralErrors, WindowOf, Budget, MaxUnitsOf,
         MaxLiability, SizeErrors, LiftBps, DerivedImpact, AskAtSellOut, HalfLifeOf, LastDefence, Shipped,
         AskCeiling, NotionalOf;
    ShippedIsClean(input);
    var d := Derive(input);
    var anchor, cap, spread := d.draft.anchorVariance, d.draft.capVariance, d.draft.halfSpreadBps;
    AskInsideCapIff(d.varianceAtSellOut, cap, spread);
    OpeningAskLeavesRoom(anchor, cap, spread);
    DerivedImpactStaysUnder(
      Lift(anchor, LiftBps(input.overrides.selloutLiftBps), cap, spread), d.draft.maxUnits);
  }

  // ---------------------------------------------------------------- shipped against the documented invariants

  lemma FiveThousandIs()
    ensures AllDigits("5000") && NatOf("5000") == 5_000
  {
    assert "5000"[..3] == "500" && "500"[..2] == "50" && "50"[..1] == "5" && "5"[..0] == "";
    assert NatOf("") == 0 && NatOf("5") == 5 && NatOf("50") == 50 && NatOf("500") == 500;
    assert AllDigits("5") && AllDigits("50") && AllDigits("500");
  }

  lemma TypedFiveThousand()
    ensures CollateralTyped("5000") == Some(5_000_000_000)
    ensures CollateralErrors("5000") == []
  {
    hide ParseDecimal, Trim, NatOf, Without;
    var s := "5000";
    FiveThousandIs();
    DigitsHaveNo(s, ',');
    NothingToRemove(s, ',');
    SpelledNumberParses(false, s, s, "", USDC_DECIMALS);
    assert Fitted("", USDC_DECIMALS) == Zeros(USDC_DECIMALS);
    ZerosAreWorthNothing(USDC_DECIMALS);
    assert Pow10(6) == 1_000_000;
    assert Sign(false) + s + Pointed("") == s;
  }

  const BACK_DATED_ANCHOR: nat := 330_625_000_000_000_000

  lemma BackDatedPrice(impact: Option<string>, units: Option<string>)
    ensures TrailingOf(BackDated(impact, units)) == WAD / 4
    ensures AnchorOf(BackDated(impact, units), WAD / 4) == Settled(BACK_DATED_ANCHOR, [])
    ensures PriceErrors(BACK_DATED_ANCHOR, WAD, HALF_SPREAD_BPS) == []
  {
    assert StanceVariance(WAD / 4, 11_500) == BACK_DATED_ANCHOR;
  }

  lemma BackDatedCap()
    ensures CapVariance(WAD / 4, BACK_DATED_ANCHOR) == WAD
  {
    hide SqrtWad, CapAbove;
    assert StanceVariance(WAD / 4, 11_500) == BACK_DATED_ANCHOR;
    StanceKeepsCap(WAD / 4, 11_500);
    BackDatedRoots();
    assert CapAbove(WAD) == WAD by { NextRoundVol(); }
  }

  lemma BackDatedRoots()
    ensures SqrtWad(WAD / 4) == WAD / 2 && SqrtWad(2 * 0) == 0
  {
    RootUnique(WAD / 4 * WAD, FloorSqrt(WAD / 4 * WAD), WAD / 2);
    RootUnique(0, FloorSqrt(0), 0);
  }

  lemma NextRoundVol()
    ensures CapAbove(WAD) == WAD
  {
    assert RoundCapVol(WAD, 2) == WAD;
    assert RoundCapVol(WAD, 1) == WAD;
  }

  lemma BackDatedShips(impact: Option<string>, units: Option<string>, size: nat)
    requires forall derived: nat :: ImpactOf(impact, derived, WAD).errors == []
    requires MaxUnitsOf(units, 5_000_000_000, UNIT_NOTIONAL, WAD) == Settled(size, []) && size >= MIN_UNITS
    ensures var d := Derive(BackDated(impact, units));
      && d.params == Some(d.draft)
      && d.draft.maxUnits == size && d.draft.capVariance == WAD && d.draft.halfSpreadBps == HALF_SPREAD_BPS
      && d.draft.unitNotional == UNIT_NOTIONAL && d.collateralTyped == Some(5_000_000_000)
      && d.collateralCommitted == MaxLiability(size, UNIT_NOTIONAL, WAD)
      && d.draft.expiry == 86_400 && d.draft.saleEnd == 10_003_600
      && (exists derived: nat :: d.draft.impactPerUnit == ImpactOf(impact, derived, WAD).value)
      && d.varianceAtSellOut == VarianceAtSellOut(BACK_DATED_ANCHOR, d.draft.impactPerUnit, size)
      && d.askAtSellOut == AskAtSellOut(d.varianceAtSellOut, WAD, HALF_SPREAD_BPS)
  {
    hide ParseDecimal, WindowOf, AnchorOf, CapVariance, PriceErrors, CollateralErrors, CollateralTyped, TrailingOf,
         MaxLiability, Lift, DerivedImpact, ImpactOf, VarianceAtSellOut, AskAtSellOut, MulDivUp, ParseInt, Trim,
         MaxUnitsOf;
    var input := BackDated(impact, units);
    BackDatedPrice(impact, units);
    BackDatedCap();
    BackDatedSaleOutlivesItsWindow(impact, units);
    TypedFiveThousand();
    WindowHasInterval(input);
    ShippedWindow(input);
  }

  /** A writer who types 5000 USDC for that back-dated day gets terms without a single error, on sale for months after
      the day they cover is over. */
  lemma BackDatedTermsShip()
    ensures var d := Derive(BackDated(None, None));
      && d.params == Some(d.draft)
      && d.draft.maxUnits == 50 * WAD
      && d.draft.expiry == 86_400 && d.draft.saleEnd == 10_003_600
  {
    hide Derive;
    FiftyUnits();
    BackDatedShips(None, None, 50 * WAD);
  }

  lemma FiftyUnits()
    ensures MaxUnitsOf(None, 5_000_000_000, UNIT_NOTIONAL, WAD) == Settled(50 * WAD, [])
  {
    assert Inventory(5_000_000_000, UNIT_NOTIONAL, WAD) == 50 * WAD;
  }

  lemma TypedOne()
    ensures TryParse("1", WAD_DECIMALS) == Some(WAD)
  {
    hide ParseDecimal, Without;
    var s := "1";
    assert s[..0] == "" && NatOf("") == 0;
    assert NatOf(s) == 1 && AllDigits(s);
    DigitsHaveNo(s, ',');
    NothingToRemove(s, ',');
    SpelledNumberParses(false, s, s, "", WAD_DECIMALS);
    assert Fitted("", WAD_DECIMALS) == Zeros(WAD_DECIMALS);
    ZerosAreWorthNothing(WAD_DECIMALS);
    EighteenPlaces();
    assert Sign(false) + s + Pointed("") == s;
  }

  lemma EighteenPlaces()
    ensures Pow10(18) == WAD
  {
    assert Pow10(6) == 1_000_000;
    PowSum(6, 6);
    PowSum(12, 6);
  }

  /** An impact override of 1, accepted without an error, ships terms whose ask at sell-out is past the cap. */
  lemma OverriddenImpactShips()
    ensures var d := Derive(BackDated(Some("1"), None));
      && d.params == Some(d.draft)
      && d.askAtSellOut > d.draft.capVariance
  {
    TypedOne();
    ImpactOfOne();
    FiftyUnits();
    hide Derive, ImpactOf, TryParse, MaxUnitsOf;
    BackDatedShips(Some("1"), None, 50 * WAD);
    FiftyAtFullImpact();
  }

  lemma ImpactOfOne()
    requires TryParse("1", WAD_DECIMALS) == Some(WAD)
    ensures forall derived: nat :: ImpactOf(Some("1"), derived, WAD) == Settled(WAD, [])
  {
    hide TryParse;
  }

  lemma FiftyAtFullImpact()
    ensures AskAtSellOut(VarianceAtSellOut(BACK_DATED_ANCHOR, WAD, 50 * WAD), WAD, HALF_SPREAD_BPS) > WAD
  {
  }

  lemma TypedFiftyOne()
    ensures TryParse("51", WAD_DECIMALS) == Some(51 * WAD)
  {
    hide ParseDecimal, Without;
    var s := "51";
    assert s[..1] == "5" && "5"[..0] == "" && NatOf("") == 0;
    assert NatOf("5") == 5 && AllDigits("5");
    assert NatOf(s) == 51 && AllDigits(s);
    DigitsHaveNo(s, ',');
    NothingToRemove(s, ',');
    SpelledNumberParses(false, s, s, "", WAD_DECIMALS);
    assert Fitted("", WAD_DECIMALS) == Zeros(WAD_DECIMALS);
    ZerosAreWorthNothing(WAD_DECIMALS);
    EighteenPlaces();
    assert Sign(false) + s + Pointed("") == s;
  }

  lemma FiftyOneUnits()
    requires TryParse("51", WAD_DECIMALS) == Some(51 * WAD)
    ensures MaxUnitsOf(Some("51"), 5_000_000_000, UNIT_NOTIONAL, WAD) == Settled(51 * WAD, [])
    ensures MaxLiability(51 * WAD, UNIT_NOTIONAL, WAD) == 5_100_000_000
  {
    hide TryParse;
    CeilIs(51 * WAD * UNIT_NOTIONAL * WAD, WAD2, 5_100_000_000);
    CeilIs(51 * WAD * UNIT_NOTIONAL * WAD, WAD2, 5_099_999_999);
  }

  /** An inventory of 51 units typed over 5000 USDC ships terms whose liability is 5100. */
  lemma OverriddenInventoryShips()
    ensures var d := Derive(BackDated(None, Some("51")));
      && d.params == Some(d.draft)
      && d.collateralTyped == Some(5_000_000_000) && d.collateralCommitted == 5_100_000_000
  {
    TypedFiftyOne();
    FiftyOneUnits();
    hide Derive, TryParse, MaxUnitsOf, MaxLiability;
    BackDatedShips(None, Some("51"), 51 * WAD);
  }
}
