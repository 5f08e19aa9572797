/** Paired markets: two complementary capped claims on one window, sharing one reserve. */
module Portfolio {
  import opened Arith

  datatype Side = High | Calm

  // ---------------------------------------------------------------- payouts

  /** The realized fraction of the cap, in WAD, at most one. */
  function XWad(finalVariance: nat, capVariance: nat): nat {
    if capVariance == 0 then 0 else Min(Floor(finalVariance * WAD, capVariance), WAD)
  }

  function HighPpu(scale: nat, xWad: nat): nat {
    Floor(scale * xWad, WAD)
  }

  function CalmPpu(scale: nat, xWad: nat): int {
    scale - HighPpu(scale, xWad)
  }

  function LiveReserve(high: nat, calm: nat, scale: nat): nat {
    var worst: nat := Max(high, calm);
    if worst == 0 then 0 else Ceil(worst * scale, WAD)
  }

  function FinalizedReserve(high: nat, calm: nat, highPpu: nat, calmPpu: nat): nat {
    Floor(high * highPpu, WAD) + Floor(calm * calmPpu, WAD)
  }

  function StandaloneCaps(high: nat, calm: nat, scale: nat): nat {
    (if high == 0 then 0 else Ceil(high * scale, WAD)) + (if calm == 0 then 0 else Ceil(calm * scale, WAD))
  }

  function SettleProceeds(units: nat, ppu: nat): nat {
    if units == 0 then 0 else Floor(units * ppu, WAD)
  }

  /** The two payouts make up the whole scale, with no dust, and neither is negative. */
  lemma CompleteSet(scale: nat, finalVariance: nat, capVariance: nat)
    ensures var x := XWad(finalVariance, capVariance);
            x <= WAD && 0 <= CalmPpu(scale, x) && HighPpu(scale, x) + CalmPpu(scale, x) == scale
  {
    var x := XWad(finalVariance, capVariance);
    MulMono(x, WAD, scale);
    FloorIs(scale * x, WAD, scale + 1);
  }

  // ---------------------------------------------------------------- the shared reserve

  /** Two claims that make up the scale never need more together than the larger side at the full scale. */
  lemma ComplementBound(high: nat, calm: nat, hp: nat, cp: nat)
    ensures high * hp + calm * cp <= Max(high, calm) * (hp + cp)
  {
    MulMono(high, Max(high, calm), hp);
    MulMono(calm, Max(high, calm), cp);
    assert Max(high, calm) * (hp + cp) == Max(high, calm) * hp + Max(high, calm) * cp;
  }

  /** For every outstanding pair, scale and final variance, the one shared reserve covers both sides' final claims,
      and it never takes more than reserving the two sides separately. */
  lemma SharedReserveCovers(high: nat, calm: nat, scale: nat, finalVariance: nat, capVariance: nat)
    ensures var x := XWad(finalVariance, capVariance);
            && CalmPpu(scale, x) >= 0
            && FinalizedReserve(high, calm, HighPpu(scale, x), CalmPpu(scale, x)) <= LiveReserve(high, calm, scale)
    ensures LiveReserve(high, calm, scale) <= StandaloneCaps(high, calm, scale)
  {
    var x := XWad(finalVariance, capVariance);
    CompleteSet(scale, finalVariance, capVariance);
    var hp, cp: nat := HighPpu(scale, x), CalmPpu(scale, x);
    ComplementBound(high, calm, hp, cp);
    FloorSum(high * hp, calm * cp, WAD);
    FloorMono(high * hp + calm * cp, Max(high, calm) * scale, WAD);
    FloorBelowCeil(Max(high, calm) * scale, WAD);
    FloorIs(0, WAD, 1);
  }

  // ---------------------------------------------------------------- a group

  datatype Group = Group(
    high: nat, calm: nat, scale: nat, finalized: bool, highPpu: nat, calmPpu: nat)
  {
    function Reserve(): nat {
      if finalized then FinalizedReserve(high, calm, highPpu, calmPpu) else LiveReserve(high, calm, scale)
    }

    function Outstanding(side: Side): nat {
      if side == High then high else calm
    }

    function Ppu(side: Side): nat {
      if side == High then highPpu else calmPpu
    }

    function Burned(side: Side, units: nat): Group
      requires units <= Outstanding(side)
    {
      if side == High then this.(high := high - units) else this.(calm := calm - units)
    }

    /** What burning `units` of one side frees; nothing for more than is outstanding. */
    function ReleasedByBurn(side: Side, units: nat): nat {
      if units > Outstanding(side) then 0
      else
        var before, after := Reserve(), Burned(side, units).Reserve();
        if before > after then before - after else 0
    }
  }

  /** The reserve never grows by a burn, so what a burn frees is exactly the difference. */
  lemma ReleaseIsExact(g: Group, side: Side, units: nat)
    requires units <= g.Outstanding(side)
    ensures g.ReleasedByBurn(side, units) + g.Burned(side, units).Reserve() == g.Reserve()
  {
    var after := g.Burned(side, units);
    MulMono(after.high, g.high, g.highPpu);
    MulMono(after.calm, g.calm, g.calmPpu);
    FloorMono(after.high * g.highPpu, g.high * g.highPpu, WAD);
    FloorMono(after.calm * g.calmPpu, g.calm * g.calmPpu, WAD);
    MulMono(Max(after.high, after.calm), Max(g.high, g.calm), g.scale);
    CeilMono(Max(after.high, after.calm) * g.scale, Max(g.high, g.calm) * g.scale, WAD);
  }

  lemma FloorLeaves(units: nat, rest: nat, ppu: nat)
    ensures Floor(units * ppu, WAD) + Floor(rest * ppu, WAD) <= Floor((units + rest) * ppu, WAD)
  {
    assert (units + rest) * ppu == units * ppu + rest * ppu;
    FloorSum(units * ppu, rest * ppu, WAD);
  }

  /** After finalization a burn frees at least what it pays. */
  lemma BurnCoversPayout(g: Group, side: Side, units: nat)
    requires g.finalized && units <= g.Outstanding(side)
    ensures SettleProceeds(units, g.Ppu(side)) <= g.ReleasedByBurn(side, units)
  {
    ReleaseIsExact(g, side, units);
    FloorLeaves(units, g.Outstanding(side) - units, g.Ppu(side));
    FloorIs(0, WAD, 1);
  }

  // ---------------------------------------------------------------- any order and split of redemptions

  datatype Burn = Burn(side: Side, units: nat)

  /** Every burn in turn is of units then outstanding. */
  predicate Redeemable(g: Group, burns: seq<Burn>)
    decreases burns
  {
    burns == [] || (burns[0].units <= g.Outstanding(burns[0].side)
                    && Redeemable(g.Burned(burns[0].side, burns[0].units), burns[1..]))
  }

  function After(g: Group, burns: seq<Burn>): Group
    requires Redeemable(g, burns)
    decreases burns
  {
    if burns == [] then g else After(g.Burned(burns[0].side, burns[0].units), burns[1..])
  }

  function Paid(g: Group, burns: seq<Burn>): nat
    requires Redeemable(g, burns)
    decreases burns
  {
    if burns == [] then 0
    else SettleProceeds(burns[0].units, g.Ppu(burns[0].side))
         + Paid(g.Burned(burns[0].side, burns[0].units), burns[1..])
  }

  lemma {:induction false} PaymentsStayCovered(g: Group, burns: seq<Burn>)
    requires g.finalized && Redeemable(g, burns)
    ensures Paid(g, burns) + After(g, burns).Reserve() <= g.Reserve()
    decreases burns
  {
    if burns == [] {
    } else {
      var b := burns[0];
      BurnCoversPayout(g, b.side, b.units);
      ReleaseIsExact(g, b.side, b.units);
      PaymentsStayCovered(g.Burned(b.side, b.units), burns[1..]);
    }
  }

  /** Whatever is redeemed after finalization, on either side, in any order and any split, the payments and the
      reserve still due fit in the single reserve that was locked while the group was live. */
  lemma OneReservePaysEveryone(high: nat, calm: nat, scale: nat, finalVariance: nat, capVariance: nat, burns: seq<Burn>)
    ensures CalmPpu(scale, XWad(finalVariance, capVariance)) >= 0
    ensures var x := XWad(finalVariance, capVariance);
            var g := Group(high, calm, scale, true, HighPpu(scale, x), CalmPpu(scale, x));
            Redeemable(g, burns) ==>
              Paid(g, burns) + After(g, burns).Reserve() <= LiveReserve(high, calm, scale)
  {
    var x := XWad(finalVariance, capVariance);
    SharedReserveCovers(high, calm, scale, finalVariance, capVariance);
    var g := Group(high, calm, scale, true, HighPpu(scale, x), CalmPpu(scale, x));
    if Redeemable(g, burns) { PaymentsStayCovered(g, burns); }
  }
}
