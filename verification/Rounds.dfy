/** A phased price feed that only appends, and the definition of its price at a time. */
module Rounds {
  import opened Intervals
  import opened Outcomes

  datatype Round = Round(phase: nat, aggRound: nat, answer: int, startedAt: nat, updatedAt: nat)

  /** The phases so far, oldest first; the last one is current. Phase `p` holds rounds 1 to `|phases[p − 1]|`.
      Some aggregators answer an unknown round with zeroes instead of refusing it. */
  datatype Feed = Feed(phases: seq<seq<Round>>, zerosForMissing: bool) {

    function Top(): nat {
      |phases|
    }

    function Length(p: nat): nat {
      if 1 <= p <= |phases| then |phases[p - 1]| else 0
    }

    /** Round `i` of phase `p`, if it exists. */
    function At(p: nat, i: nat): Option<Round> {
      if 1 <= i <= Length(p) then Some(phases[p - 1][i - 1]) else None
    }

    /** What the proxy answers. */
    function Answer(p: nat, i: nat): Option<Round> {
      if At(p, i).Some? then At(p, i)
      else if zerosForMissing then Some(Round(p, i, 0, 0, 0))
      else None
    }

    /** The current phase has a round, real rounds carry a time, times never fall within a phase, and indices fit
        64 bits with room for their successor. */
    predicate Valid() {
      && |phases| >= 1 && phases[|phases| - 1] != []
      && (forall p | 0 <= p < |phases| :: Timed(phases[p]) && |phases[p]| < U64_MAX)
    }

    function Latest(): Round
      requires Valid()
    {
      phases[|phases| - 1][|phases[|phases| - 1]| - 1].(phase := |phases|, aggRound := |phases[|phases| - 1]|)
    }
  }

  predicate Timed(rounds: seq<Round>) {
    && (forall i | 0 <= i < |rounds| :: rounds[i].updatedAt > 0)
    && (forall i, j | 0 <= i <= j < |rounds| :: rounds[i].updatedAt <= rounds[j].updatedAt)
  }

  /** `later` is `f` after more rounds: closed phases are frozen, the current one may grow and be succeeded. */
  ghost predicate Appends(f: Feed, later: Feed) {
    && |f.phases| <= |later.phases|
    && (forall p | 0 <= p < |f.phases| :: f.phases[p] <= later.phases[p])
    && (forall p | 0 <= p < |f.phases| - 1 :: f.phases[p] == later.phases[p])
  }

  // ---------------------------------------------------------------- the definition of a price

  /** How many rounds of a phase are at or before `t`, counted from the end. */
  function CountBy(rounds: seq<Round>, t: nat): nat {
    if rounds == [] then 0
    else if rounds[|rounds| - 1].updatedAt <= t then |rounds|
    else CountBy(rounds[..|rounds| - 1], t)
  }

  /** The phase serving `t`: the highest whose first round is at or before it; zero if there is none. */
  function ServingPhase(phases: seq<seq<Round>>, t: nat): nat {
    if phases == [] then 0
    else
      var rounds := phases[|phases| - 1];
      if rounds != [] && rounds[0].updatedAt <= t then |phases| else ServingPhase(phases[..|phases| - 1], t)
  }

  /** Phase first: the latest round at or before `t` within the phase that serves `t`. */
  function PriceAt(phases: seq<seq<Round>>, t: nat): Option<Round> {
    var p := ServingPhase(phases, t);
    if p == 0 then None
    else
      ServingPhaseServes(phases, t);
      CountByIs(phases[p - 1], t);
      Some(phases[p - 1][CountBy(phases[p - 1], t) - 1])
  }

  lemma {:induction false} ServingPhaseServes(phases: seq<seq<Round>>, t: nat)
    ensures var p := ServingPhase(phases, t);
            && p <= |phases|
            && (p > 0 ==> phases[p - 1] != [] && phases[p - 1][0].updatedAt <= t)
            && (forall q | p <= q < |phases| :: phases[q] == [] || phases[q][0].updatedAt > t)
  {
    if phases != [] {
      var rounds := phases[|phases| - 1];
      if rounds == [] || rounds[0].updatedAt > t {
        var rest := phases[..|phases| - 1];
        ServingPhaseServes(rest, t);
        forall q | ServingPhase(phases, t) <= q < |phases|
          ensures phases[q] == [] || phases[q][0].updatedAt > t
        {
          if q < |rest| { assert rest[q] == phases[q]; }
        }
      }
    }
  }

  /** The phase serving a time is the only one whose first round is at or before it with none such above it. */
  lemma ServingPhaseUnique(phases: seq<seq<Round>>, t: nat, p: nat)
    requires p <= |phases|
    requires p > 0 ==> phases[p - 1] != [] && phases[p - 1][0].updatedAt <= t
    requires forall q | p <= q < |phases| :: phases[q] == [] || phases[q][0].updatedAt > t
    ensures ServingPhase(phases, t) == p
  {
    ServingPhaseServes(phases, t);
    var s := ServingPhase(phases, t);
    var higher := if s < p then p else s;
    var rounds := if higher > 0 then phases[higher - 1] else [];
  }

  lemma {:induction false} CountByIs(rounds: seq<Round>, t: nat)
    ensures var c := CountBy(rounds, t);
            && c <= |rounds|
            && (c > 0 ==> rounds[c - 1].updatedAt <= t)
            && (forall j | c <= j < |rounds| :: rounds[j].updatedAt > t)
            && (c == 0 && rounds != [] ==> rounds[0].updatedAt > t)
  {
    if rounds != [] && rounds[|rounds| - 1].updatedAt > t {
      var rest := rounds[..|rounds| - 1];
      CountByIs(rest, t);
      forall j | CountBy(rounds, t) <= j < |rounds|
        ensures rounds[j].updatedAt > t
      {
        if j < |rest| { assert rest[j] == rounds[j]; }
      }
    }
  }

  /** In a phase whose times never fall, the count is the only boundary between rounds by `t` and rounds after it. */
  lemma CountByUnique(rounds: seq<Round>, t: nat, c: nat)
    requires c <= |rounds|
    requires c > 0 ==> rounds[c - 1].updatedAt <= t
    requires forall j | c <= j < |rounds| :: rounds[j].updatedAt > t
    ensures CountBy(rounds, t) == c
  {
    CountByIs(rounds, t);
    var b := CountBy(rounds, t);
    var larger := if b < c then c else b;
    var boundary := if larger > 0 then rounds[larger - 1].updatedAt else 0;
  }
}
