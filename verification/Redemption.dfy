/** The end of a market: after finalization every holder redeems their own units, one holder after another. */
module Redemption {
  import opened Arith
  import opened Outcomes
  import opened Pricing
  import opened Market
  import opened Solvency
  import opened MarketObjects

  datatype Holder = Holder(name: string, units: nat, paid: nat, received: nat)

  // ---------------------------------------------------------------- one holder after another, on values

  /** Holders settle in turn: every redemption starts from the state the last one left. */
  function SettleEach(s: SeriesState, v: VaultState, now: nat, holders: seq<Holder>)
    : Result<(SeriesState, VaultState), Error>
    decreases |holders|
  {
    if holders == [] then Ok((s, v))
    else if holders[0].units == 0 then SettleEach(s, v, now, holders[1..])
    else
      var trade :- s.Settle(v, now, holders[0].name, holders[0].units);
      SettleEach(trade.series, trade.vault, now, holders[1..])
  }

  function BurnEach(s: SeriesState, v: VaultState, holders: seq<Holder>): Result<(SeriesState, VaultState), Error>
    decreases |holders|
  {
    if holders == [] then Ok((s, v))
    else if holders[0].units == 0 then BurnEach(s, v, holders[1..])
    else
      var trade :- s.BurnWorthless(v, holders[0].units);
      BurnEach(trade.series, trade.vault, holders[1..])
  }

  /** A series that pays nothing burns its receipts; any other settles them. */
  predicate Burns(s: SeriesState) {
    s.payoutPerUnit == 0 && s.outstandingUnits > 0
  }

  function RedeemEach(s: SeriesState, v: VaultState, now: nat, holders: seq<Holder>)
    : Result<(SeriesState, VaultState), Error>
  {
    if Burns(s) then BurnEach(s, v, holders) else SettleEach(s, v, now, holders)
  }

  // ---------------------------------------------------------------- what the holders are owed, told before it

  function Held(holders: seq<Holder>): nat {
    if holders == [] then 0 else holders[0].units + Held(holders[1..])
  }

  /** The payouts, each rounded down on its own. */
  function Due(holders: seq<Holder>, ppu: nat): nat {
    if holders == [] then 0 else SettleProceeds(holders[0].units, ppu) + Due(holders[1..], ppu)
  }

  /** Units whose own payout rounds down to nothing although a unit pays something. */
  predicate TooSmall(units: nat, ppu: nat) {
    0 < units * ppu < WAD
  }

  function Stranded(holders: seq<Holder>, ppu: nat): nat {
    if holders == [] then 0
    else (if TooSmall(holders[0].units, ppu) then holders[0].units else 0) + Stranded(holders[1..], ppu)
  }

  /** What a redemption leaves a holder with. */
  function Settled(h: Holder, ppu: nat): Holder {
    if TooSmall(h.units, ppu) then h
    else h.(units := 0, received := h.received + SettleProceeds(h.units, ppu))
  }

  // ---------------------------------------------------------------- what is left

  lemma DueIs(units: nat, ppu: nat)
    ensures SettleProceeds(units, ppu) == 0 <==> units == 0 || ppu == 0 || TooSmall(units, ppu)
  {
    FloorIs(units * ppu, WAD, 1);
    if units > 0 && ppu > 0 {
      MulMono(1, units, ppu);
    }
  }

  /** The state after redeeming: still sound, less the units and the money redeemed, reserving what is left. */
  predicate Leaves(s: SeriesState, v: VaultState, redeemed: int, paid: int, s1: SeriesState, v1: VaultState) {
    && SeriesInv(s1) && Backs(v1, s1) && s1.finalized && s1.payoutPerUnit == s.payoutPerUnit
    && s1.outstandingUnits == s.outstandingUnits - redeemed
    && s1.settlePaid == s.settlePaid + paid && s1.exitPaid == s.exitPaid && s1.premiumTaken == s.premiumTaken
    && v1.balance == v.balance - paid
    && v1.locked - s1.lockedLiability == v.locked - s.lockedLiability
  }

  predicate AllRedeemed(s: SeriesState, v: VaultState, holders: seq<Holder>,
                        r: Result<(SeriesState, VaultState), Error>)
  {
    r.Ok? && Leaves(s, v, Held(holders) - Stranded(holders, s.payoutPerUnit), Due(holders, s.payoutPerUnit),
                    r.value.0, r.value.1)
  }

  lemma SettleLeaves(s: SeriesState, v: VaultState, now: nat, h: Holder)
    requires SeriesInv(s) && Backs(v, s) && s.finalized && !Burns(s) && 0 < h.units <= s.outstandingUnits
    ensures var r := s.Settle(v, now, h.name, h.units);
      && r.Ok? && !Burns(r.value.series)
      && Leaves(s, v, if TooSmall(h.units, s.payoutPerUnit) then 0 else h.units,
                SettleProceeds(h.units, s.payoutPerUnit), r.value.series, r.value.vault)
      && (r.value.fill.Some? <==> !TooSmall(h.units, s.payoutPerUnit))
      && (r.value.fill.Some? ==>
            r.value.fill.value.units == h.units
            && r.value.fill.value.quote == SettleProceeds(h.units, s.payoutPerUnit))
  {
    RedemptionPaysInFull(s, v, now, h.name, h.units);
    DueIs(h.units, s.payoutPerUnit);
  }

  lemma {:induction false} SettlingLeaves(s: SeriesState, v: VaultState, now: nat, holders: seq<Holder>)
    requires SeriesInv(s) && Backs(v, s) && s.finalized && !Burns(s) && Held(holders) <= s.outstandingUnits
    ensures AllRedeemed(s, v, holders, SettleEach(s, v, now, holders))
    decreases |holders|
  {
    hide SeriesState.Settle, SettleProceeds, SeriesInv, Backs, Burns;
    if holders != [] {
      var h, rest := holders[0], holders[1..];
      DueIs(h.units, s.payoutPerUnit);
      if h.units == 0 {
        SettlingLeaves(s, v, now, rest);
      } else {
        SettleLeaves(s, v, now, h);
        var trade := s.Settle(v, now, h.name, h.units).value;
        SettlingLeaves(trade.series, trade.vault, now, rest);
      }
    }
  }

  lemma BurnLeaves(s: SeriesState, v: VaultState, units: nat)
    requires SeriesInv(s) && Backs(v, s) && Worthless(s) && 0 < units <= s.outstandingUnits
    ensures var r := s.BurnWorthless(v, units); r.Ok? && Leaves(s, v, units, 0, r.value.series, r.value.vault)
  {
    BurnKeeps(s, v, units);
  }

  lemma {:induction false} BurningLeaves(s: SeriesState, v: VaultState, holders: seq<Holder>)
    requires SeriesInv(s) && Backs(v, s) && Worthless(s) && Held(holders) <= s.outstandingUnits
    ensures AllRedeemed(s, v, holders, BurnEach(s, v, holders))
    decreases |holders|
  {
    hide SeriesState.BurnWorthless, SettleProceeds, SeriesInv, Backs;
    if holders != [] {
      var h, rest := holders[0], holders[1..];
      DueIs(h.units, 0);
      if h.units == 0 {
        BurningLeaves(s, v, rest);
      } else {
        BurnLeaves(s, v, h.units);
        var trade := s.BurnWorthless(v, h.units).value;
        BurningLeaves(trade.series, trade.vault, rest);
      }
    }
  }

  /** Whatever list of holders redeems, in turn and each for what they hold: every one of them is paid their own
      payout rounded down, and what stays outstanding beyond the units of no holder listed are exactly the holdings
      whose own payout rounds down to nothing. */
  lemma RedemptionLeaves(s: SeriesState, v: VaultState, now: nat, holders: seq<Holder>)
    requires SeriesInv(s) && Backs(v, s) && s.finalized && Held(holders) <= s.outstandingUnits
    ensures AllRedeemed(s, v, holders, RedeemEach(s, v, now, holders))
  {
    hide SettleEach, BurnEach, SeriesInv, Backs, Held, AllRedeemed;
    if Burns(s) {
      BurningLeaves(s, v, holders);
    } else {
      SettlingLeaves(s, v, now, holders);
    }
  }

  lemma {:induction false} NothingStrandedIff(holders: seq<Holder>, ppu: nat)
    ensures Stranded(holders, ppu) == 0 <==> forall i | 0 <= i < |holders| :: !TooSmall(holders[i].units, ppu)
  {
    if holders != [] {
      NothingStrandedIff(holders[1..], ppu);
      assert forall i | 0 < i < |holders| :: holders[i] == holders[1..][i - 1];
    }
  }

  /** When the holders' units add up to the position, redeeming extinguishes every claim, frees the whole reservation
      and lets the series close if and only if no holding is too small to be paid a base unit of its own. */
  lemma EveryClaimExtinguishedIff(s: SeriesState, v: VaultState, now: nat, holders: seq<Holder>)
    requires SeriesInv(s) && Backs(v, s) && s.finalized && Held(holders) == s.outstandingUnits
    ensures var r := RedeemEach(s, v, now, holders);
      && r.Ok?
      && var (s1, v1) := r.value;
         var allPaid := forall i | 0 <= i < |holders| :: !TooSmall(holders[i].units, s.payoutPerUnit);
         && (s1.outstandingUnits == 0 <==> allPaid)
         && (s1.lockedLiability == 0 <==> allPaid)
         && (s1.Close(v1).Ok? <==> allPaid)
  {
    hide RedeemEach;
    RedemptionLeaves(s, v, now, holders);
    NothingStrandedIff(holders, s.payoutPerUnit);
    var (s1, v1) := RedeemEach(s, v, now, holders).value;
    OwesNothingIff(s1, v1);
  }

  lemma OwesNothingIff(s: SeriesState, v: VaultState)
    requires SeriesInv(s) && Backs(v, s) && s.finalized
    ensures s.outstandingUnits > 0 && s.payoutPerUnit > 0 ==> s.lockedLiability > 0
    ensures s.outstandingUnits == 0 || s.payoutPerUnit == 0 ==> s.lockedLiability == 0
    ensures s.Close(v).Ok? <==> s.outstandingUnits == 0
  {
    CloseKeeps(s, v);
    NothingOwedIff(s.outstandingUnits, s.payoutPerUnit);
    hide FinalLiability, LedgerInv, OracleInv;
  }

  lemma NothingOwedIff(units: nat, ppu: nat)
    ensures FinalLiability(units, ppu) == 0 <==> units == 0 || ppu == 0
  {
    CeilIs(units * ppu, WAD, 0);
    if units > 0 && ppu > 0 {
      MulMono(1, units, ppu);
    }
  }

  // ---------------------------------------------------------------- the books of the holders

  function HoldersPaid(holders: seq<Holder>): nat {
    if holders == [] then 0 else holders[0].paid + HoldersPaid(holders[1..])
  }

  function HoldersReceived(holders: seq<Holder>): nat {
    if holders == [] then 0 else holders[0].received + HoldersReceived(holders[1..])
  }

  /** The holders' own records agree with the series: units held, money paid, money received. */
  predicate Agree(s: SeriesState, holders: seq<Holder>) {
    && Held(holders) == s.outstandingUnits
    && HoldersPaid(holders) == s.premiumTaken
    && HoldersReceived(holders) == s.exitPaid + s.settlePaid
  }

  lemma {:induction false} HolderMoves(holders: seq<Holder>, k: nat, h: Holder)
    requires k < |holders|
    ensures Held(holders[k := h]) == Held(holders) - holders[k].units + h.units
    ensures HoldersPaid(holders[k := h]) == HoldersPaid(holders) - holders[k].paid + h.paid
    ensures HoldersReceived(holders[k := h]) == HoldersReceived(holders) - holders[k].received + h.received
    ensures holders[k].units <= Held(holders)
  {
    if k == 0 {
      assert holders[0 := h][1..] == holders[1..];
    } else {
      assert holders[k := h][1..] == holders[1..][k - 1 := h];
      HolderMoves(holders[1..], k - 1, h);
    }
  }

  function SettledAll(holders: seq<Holder>, ppu: nat): seq<Holder> {
    if holders == [] then [] else [Settled(holders[0], ppu)] + SettledAll(holders[1..], ppu)
  }

  lemma {:induction false} SettledAllIs(holders: seq<Holder>, ppu: nat)
    ensures |SettledAll(holders, ppu)| == |holders|
    ensures forall i | 0 <= i < |holders| :: SettledAll(holders, ppu)[i] == Settled(holders[i], ppu)
  {
    hide Settled;
    if holders != [] {
      SettledAllIs(holders[1..], ppu);
    }
  }

  lemma {:induction false} SettledSums(holders: seq<Holder>, ppu: nat)
    ensures var after := SettledAll(holders, ppu);
      && Held(after) == Stranded(holders, ppu) <= Held(holders)
      && HoldersPaid(after) == HoldersPaid(holders)
      && HoldersReceived(after) == HoldersReceived(holders) + Due(holders, ppu)
  {
    hide SettleProceeds;
    if holders != [] {
      DueIs(holders[0].units, ppu);
      SettledSums(holders[1..], ppu);
      assert SettledAll(holders, ppu)[1..] == SettledAll(holders[1..], ppu);
    }
  }

  /** Records that agree before the redemption agree after it. */
  lemma RedemptionKeepsRecords(s: SeriesState, v: VaultState, now: nat, holders: seq<Holder>)
    requires SeriesInv(s) && Backs(v, s) && s.finalized && Agree(s, holders)
    ensures var r := RedeemEach(s, v, now, holders);
      r.Ok? && Agree(r.value.0, SettledAll(holders, s.payoutPerUnit))
  {
    hide RedeemEach;
    RedemptionLeaves(s, v, now, holders);
    SettledSums(holders, s.payoutPerUnit);
  }

  function FillUnits(r: Result<Trade, Error>): nat {
    if r.Ok? && r.value.fill.Some? then r.value.fill.value.units else 0
  }

  function FillQuote(r: Result<Trade, Error>): nat {
    if r.Ok? && r.value.fill.Some? then r.value.fill.value.quote else 0
  }

  /** What a trade adds to the records it moves: units and premium bought, or units sold and money paid for them. */
  ghost predicate Recorded(s: SeriesState, r: Result<Trade, Error>, units: int, paid: nat, received: nat) {
    r.Ok? ==>
      && SeriesInv(r.value.series) && Backs(r.value.vault, r.value.series)
      && r.value.series.outstandingUnits == s.outstandingUnits + units
      && r.value.series.premiumTaken == s.premiumTaken + paid
      && r.value.series.exitPaid == s.exitPaid + received
      && r.value.series.settlePaid == s.settlePaid
  }

  ghost predicate BuyRecorded(s: SeriesState, r: Result<Trade, Error>) {
    Recorded(s, r, FillUnits(r), FillQuote(r), 0)
  }

  ghost predicate SaleRecorded(s: SeriesState, r: Result<Trade, Error>, most: nat) {
    FillUnits(r) <= most && Recorded(s, r, 0 - FillUnits(r), 0, FillQuote(r))
  }

  lemma IssueRecords(s: SeriesState, v: VaultState, now: nat, actor: string, amountIn: nat)
    requires SeriesInv(s) && Backs(v, s)
    ensures s.Priceable()
    ensures BuyRecorded(s, s.Issue(v, now, actor, amountIn))
  {
    hide SeriesInv, SeriesState.IssueFill, SeriesState.Reserve;
    IssueKeeps(s, v, now, actor, amountIn);
    IssueFillFits(s, v, now, actor, amountIn);
  }

  lemma ExitRecords(s: SeriesState, v: VaultState, now: nat, actor: string, units: nat)
    requires SeriesInv(s) && Backs(v, s)
    ensures s.Priceable()
    ensures SaleRecorded(s, s.Exit(v, now, actor, units), units)
  {
    hide SeriesInv, SeriesState.ExitFill, SeriesState.Reserve;
    ExitKeeps(s, v, now, actor, units);
    ExitFillFits(s, v, now, actor, units);
  }

  /** A holder buys: the fill is theirs. */
  method Buy(s: Series, now: nat, holders: array<Holder>, k: nat, amountIn: nat)
    requires s.Sound() && k < holders.Length && Agree(s.View(), holders[..])
    modifies s, s.vault, holders
    ensures s.Sound() && Agree(s.View(), holders[..])
    ensures forall i | 0 <= i < holders.Length && i != k :: holders[i] == old(holders[i])
  {
    hide SeriesState.Issue, SeriesInv, Backs, Held, HoldersPaid, HoldersReceived;
    IssueRecords(s.View(), s.vault.View(), now, holders[k].name, amountIn);
    ghost var was := holders[..];
    var fill := s.Issue(now, holders[k].name, amountIn);
    if fill.Ok? && fill.value.Some? {
      var got := fill.value.value;
      holders[k] := holders[k].(units := holders[k].units + got.units, paid := holders[k].paid + got.quote);
      HolderMoves(was, k, holders[k]);
      assert holders[..] == was[k := holders[k]];
    }
  }

  /** A holder sells back, never more than they hold. */
  method SellBack(s: Series, now: nat, holders: array<Holder>, k: nat, units: nat)
    requires s.Sound() && k < holders.Length && Agree(s.View(), holders[..])
    modifies s, s.vault, holders
    ensures s.Sound() && Agree(s.View(), holders[..])
    ensures forall i | 0 <= i < holders.Length && i != k :: holders[i] == old(holders[i])
  {
    hide SeriesState.Exit, SeriesInv, Backs, Held, HoldersPaid, HoldersReceived;
    var want: nat := Min(units, holders[k].units);
    if want == 0 { return; }
    ExitRecords(s.View(), s.vault.View(), now, holders[k].name, want);
    ghost var was := holders[..];
    var fill := s.Exit(now, holders[k].name, want);
    if fill.Ok? && fill.value.Some? {
      var sold := fill.value.value;
      holders[k] := holders[k].(units := holders[k].units - sold.units, received := holders[k].received + sold.quote);
      HolderMoves(was, k, holders[k]);
      assert holders[..] == was[k := holders[k]];
    }
  }

  // ---------------------------------------------------------------- the loops over the holders, in place

  /** The series and its vault, part of the way through the holders: the rest of the redemptions, from here, end where
      all of them would from the start. */
  ghost predicate Midway(s: Series, now: nat, ppu: nat, rest: seq<Holder>,
                         end: Result<(SeriesState, VaultState), Error>)
    reads s, s.vault
  {
    && s.Sound() && s.finalized && s.payoutPerUnit == ppu && !Burns(s.View())
    && Held(rest) <= s.outstandingUnits && SettleEach(s.View(), s.vault.View(), now, rest) == end
  }

  /** One holder of many settles. */
  method SettleOne(s: Series, now: nat, h: Holder, ghost rest: seq<Holder>,
                   ghost end: Result<(SeriesState, VaultState), Error>)
    returns (after: Holder)
    requires Midway(s, now, s.payoutPerUnit, [h] + rest, end)
    modifies s, s.vault
    ensures Midway(s, now, old(s.payoutPerUnit), rest, end)
    ensures after == Settled(h, old(s.payoutPerUnit))
  {
    hide SettleProceeds, SeriesInv, Backs, Burns, SeriesState.Settle;
    assert ([h] + rest)[1..] == rest;
    after := h;
    DueIs(h.units, s.payoutPerUnit);
    if h.units == 0 { return; }
    SettleLeaves(s.View(), s.vault.View(), now, h);
    var fill := s.Settle(now, h.name, h.units);
    if fill.Ok? && fill.value.Some? {
      after := h.(units := h.units - fill.value.value.units, received := h.received + fill.value.value.quote);
    }
  }

  method SettleHolders(s: Series, now: nat, holders: array<Holder>)
    requires s.Sound() && s.finalized && !Burns(s.View()) && Held(holders[..]) <= s.outstandingUnits
    modifies s, s.vault, holders
    ensures Ok((s.View(), s.vault.View())) == SettleEach(old(s.View()), old(s.vault.View()), now, old(holders[..]))
    ensures forall i | 0 <= i < holders.Length :: holders[i] == Settled(old(holders[i]), old(s.payoutPerUnit))
  {
    hide SeriesInv, Backs, Held, Settled, Burns, SeriesState.Settle;
    ghost var end := SettleEach(s.View(), s.vault.View(), now, holders[..]);
    assert holders[0..] == holders[..];
    for i := 0 to holders.Length
      invariant Midway(s, now, old(s.payoutPerUnit), holders[i..], end)
      invariant forall k | 0 <= k < i :: holders[k] == Settled(old(holders[k]), old(s.payoutPerUnit))
      invariant forall k | i <= k < holders.Length :: holders[k] == old(holders[k])
    {
      assert holders[i..] == [holders[i]] + holders[i + 1..];
      holders[i] := SettleOne(s, now, holders[i], holders[i + 1..], end);
    }
  }

  /** The same, part of the way through burning receipts that pay nothing. */
  ghost predicate BurningMidway(s: Series, rest: seq<Holder>, end: Result<(SeriesState, VaultState), Error>)
    reads s, s.vault
  {
    && s.Sound() && Worthless(s.View())
    && Held(rest) <= s.outstandingUnits && BurnEach(s.View(), s.vault.View(), rest) == end
  }

  method BurnOne(s: Series, h: Holder, ghost rest: seq<Holder>, ghost end: Result<(SeriesState, VaultState), Error>)
    returns (after: Holder)
    requires BurningMidway(s, [h] + rest, end)
    modifies s, s.vault
    ensures BurningMidway(s, rest, end)
    ensures after == Settled(h, 0)
  {
    hide SettleProceeds, SeriesInv, Backs, SeriesState.BurnWorthless;
    assert ([h] + rest)[1..] == rest;
    after := h;
    DueIs(h.units, 0);
    if h.units == 0 { return; }
    BurnLeaves(s.View(), s.vault.View(), h.units);
    var burned := s.BurnWorthless(h.units);
    after := h.(units := 0);
  }

  method BurnHolders(s: Series, holders: array<Holder>)
    requires s.Sound() && Worthless(s.View()) && Held(holders[..]) <= s.outstandingUnits
    modifies s, s.vault, holders
    ensures Ok((s.View(), s.vault.View())) == BurnEach(old(s.View()), old(s.vault.View()), old(holders[..]))
    ensures forall i | 0 <= i < holders.Length :: holders[i] == Settled(old(holders[i]), 0)
  {
    hide SeriesInv, Backs, Held, Settled;
    ghost var end := BurnEach(s.View(), s.vault.View(), holders[..]);
    assert holders[0..] == holders[..];
    for i := 0 to holders.Length
      invariant BurningMidway(s, holders[i..], end)
      invariant forall k | 0 <= k < i :: holders[k] == Settled(old(holders[k]), 0)
      invariant forall k | i <= k < holders.Length :: holders[k] == old(holders[k])
    {
      assert holders[i..] == [holders[i]] + holders[i + 1..];
      holders[i] := BurnOne(s, holders[i], holders[i + 1..], end);
    }
  }

  /** The end of a scenario over the objects: every holder redeems in turn, the receipts of a series that pays nothing
      are burned, and the records still agree. Every claim is extinguished if and only if no holding was too small to
      be paid a base unit of its own. */
  method RedeemHolders(s: Series, now: nat, holders: array<Holder>)
    requires s.Sound() && s.finalized && Agree(s.View(), holders[..])
    modifies s, s.vault, holders
    ensures Ok((s.View(), s.vault.View())) == RedeemEach(old(s.View()), old(s.vault.View()), now, old(holders[..]))
    ensures holders[..] == SettledAll(old(holders[..]), old(s.payoutPerUnit)) && Agree(s.View(), holders[..])
    ensures s.outstandingUnits == 0
        <==> forall i | 0 <= i < holders.Length :: !TooSmall(old(holders[i].units), old(s.payoutPerUnit))
  {
    hide SeriesInv, Backs, Held, HoldersPaid, HoldersReceived, Settled, SettleEach, BurnEach, TooSmall, SettledAll;
    ghost var was := holders[..];
    RedemptionKeepsRecords(s.View(), s.vault.View(), now, was);
    EveryClaimExtinguishedIff(s.View(), s.vault.View(), now, was);
    SettledAllIs(was, s.payoutPerUnit);
    if s.payoutPerUnit == 0 && s.outstandingUnits > 0 {
      BurnHolders(s, holders);
    } else {
      SettleHolders(s, now, holders);
    }
    assert holders[..] == SettledAll(was, old(s.payoutPerUnit));
  }
}
