/** The round search over a phased feed, through a cache that is mutated in place: every path returns what the
    phase-first definition says. */
module ChainlinkSearch {
  import opened Outcomes
  import opened Sequences
  import opened Intervals
  import opened Rounds

  const MAX_SAMPLES: nat := 256
  const MULTICALL_CHUNK: nat := 100
  /** Where the probe for a closed phase's last round gives up. */
  const PROBE_LIMIT: nat := 0x100_0000_0000

  datatype FeedError =
    | ZeroInterval
    | EndBeforeStart
    | TooManySamples
    | WindowPredatesFeed(t: nat)
    | ProbeOverflow(phase: nat)
    | RoundDisappeared
    | NoRoundAtOrBefore

  /** What is remembered of one phase. */
  datatype PhaseMem = PhaseMem(
    first: Option<Round>, lastRound: Option<nat>, rounds: map<nat, Round>, coverage: seq<Interval>)

  function EmptyMem(): PhaseMem {
    PhaseMem(None, None, map[], [])
  }

  /** A memory that tells the truth about phase `p` of the feed: remembered rounds are the feed's, the remembered
      last round is that of a closed phase, and every index in the coverage is in memory. */
  ghost predicate Truthful(feed: Feed, p: nat, m: PhaseMem) {
    && (forall i | i in m.rounds :: feed.At(p, i) == Some(m.rounds[i]))
    && (m.first.Some? ==> feed.At(p, 1) == m.first)
    && (m.lastRound.Some? ==> p < feed.Top() && m.lastRound.value == feed.Length(p) < PROBE_LIMIT)
    && Separated(m.coverage)
    && (forall x: nat | Covers(m.coverage, x) :: x in m.rounds)
  }

  /** A truthful memory stays truthful while the feed only appends. */
  lemma TruthSurvivesAppends(feed: Feed, later: Feed, p: nat, m: PhaseMem)
    requires Truthful(feed, p, m) && Appends(feed, later)
    ensures Truthful(later, p, m)
  {
    if 1 <= p <= feed.Top() {
      assert feed.phases[p - 1] <= later.phases[p - 1];
    }
  }

  // ---------------------------------------------------------------- powers of two

  function Pow2(k: nat): nat {
    if k == 0 then 1 else 2 * Pow2(k - 1)
  }

  lemma {:induction false} Pow2Mono(j: nat, k: nat)
    requires j < k
    ensures 2 * Pow2(j) <= Pow2(k)
  {
    if j < k - 1 { Pow2Mono(j, k - 1); }
  }

  /** A power of two at most the limit either is the limit or has its double within it. */
  lemma DoubleOrLimit(k: nat)
    requires Pow2(k) <= PROBE_LIMIT
    ensures Pow2(k) == PROBE_LIMIT || 2 * Pow2(k) <= PROBE_LIMIT
  {
    LimitIsPow2();
    if k < 40 { Pow2Mono(k, 40); } else if 40 < k { Pow2Mono(40, k); }
  }

  lemma LimitIsPow2()
    ensures Pow2(40) == PROBE_LIMIT
  {
    assert Pow2(10) == 1024;
    Pow2Adds(10, 10);
    Pow2Adds(20, 20);
  }

  lemma StepsInOrder(i: int, j: int, interval: nat)
    requires i <= j
    ensures i * interval <= j * interval
  {
  }

  lemma DoubledProduct(a: int, b: int)
    ensures a * (2 * b) == 2 * (a * b)
  {
  }

  lemma {:induction false} Pow2Adds(j: nat, k: nat)
    ensures Pow2(j + k) == Pow2(j) * Pow2(k)
  {
    if k > 0 {
      Pow2Adds(j, k - 1);
      DoubledProduct(Pow2(j), Pow2(k - 1));
    }
  }

  // ---------------------------------------------------------------- what the searches look for

  /** The round a phase's history gives for `t`, cut off at index `hi`. */
  ghost predicate IsLatestBy(feed: Feed, p: nat, hi: nat, t: nat, idx: nat) {
    && 1 <= idx <= hi && idx <= feed.Length(p)
    && feed.At(p, idx).value.updatedAt <= t
    && (forall j | idx < j <= hi && j <= feed.Length(p) :: feed.At(p, j).value.updatedAt > t)
  }

  /** In the serving phase, the latest round by `t` is the price at `t`. */
  lemma LatestByIsPrice(feed: Feed, p: nat, t: nat, idx: nat)
    requires feed.Valid() && p == ServingPhase(feed.phases, t) && p > 0
    requires IsLatestBy(feed, p, feed.Length(p), t, idx)
    ensures PriceAt(feed.phases, t) == feed.At(p, idx)
  {
    ServingPhaseServes(feed.phases, t);
    var rounds := feed.phases[p - 1];
    forall j | idx <= j < |rounds|
      ensures rounds[j].updatedAt > t
    {
      assert feed.At(p, j + 1).value == rounds[j];
    }
    CountByUnique(rounds, t, idx);
  }

  // ---------------------------------------------------------------- sampling results

  datatype Sample = Sample(t: nat, round: Round)

  /** Every sample is at its time and carries the price the definition gives. */
  predicate Agrees(feed: Feed, out: seq<Sample>, times: seq<nat>)
  {
    && |out| == |times|
    && forall i | 0 <= i < |out| :: out[i].t == times[i] && PriceAt(feed.phases, times[i]) == Some(out[i].round)
  }

  /** The phase that serves the time is closed, and longer than the probe for its last round goes. */
  predicate TooLongToProbe(feed: Feed, t: nat) {
    var p := ServingPhase(feed.phases, t);
    0 < p < feed.Top() && feed.Length(p) >= PROBE_LIMIT
  }

  /** The samples come exactly when every time has a price in a phase whose end can be found; otherwise the refusal
      names a time that has none, or, if all have one, a phase too long that serves one of them. */
  ghost predicate Answered(feed: Feed, times: seq<nat>, r: Result<seq<Sample>, FeedError>) {
    && (r.Ok? <==> forall t | t in times :: PriceAt(feed.phases, t).Some? && !TooLongToProbe(feed, t))
    && match r
       case Ok(out) => Agrees(feed, out, times)
       case Err(WindowPredatesFeed(t)) => t in times && PriceAt(feed.phases, t) == None
       case Err(ProbeOverflow(p)) =>
         && (forall t | t in times :: PriceAt(feed.phases, t).Some?)
         && exists t :: t in times && TooLongToProbe(feed, t) && ServingPhase(feed.phases, t) == p
       case _ => false
  }

  /** The times of a window: `start`, `start + interval`, … up to `end`. */
  function Times(start: nat, interval: nat, n: nat): seq<nat> {
    if n == 0 then [] else Times(start, interval, n - 1) + [start + (n - 1) * interval]
  }

  /** Times that one phase serves. */
  datatype Group = Group(phase: nat, times: seq<nat>)

  function Flatten(groups: seq<Group>): seq<nat> {
    if groups == [] then [] else Flatten(groups[..|groups| - 1]) + groups[|groups| - 1].times
  }

  predicate Increasing(ts: seq<nat>) {
    forall i, j | 0 <= i <= j < |ts| :: ts[i] <= ts[j]
  }

  /** One group: a real phase, some times in order, all served by it. */
  predicate GroupOk(feed: Feed, g: Group) {
    g.phase > 0 && g.times != [] && Increasing(g.times)
    && forall i | 0 <= i < |g.times| :: ServingPhase(feed.phases, g.times[i]) == g.phase
  }

  // ---------------------------------------------------------------- library calls on the rounds in memory

  /** The remembered rounds with an index in `lo..=hi`, in order. */
  function InRange(rounds: map<nat, Round>, lo: nat, hi: nat): seq<Round>
    decreases hi
  {
    if hi < lo then []
    else if hi == 0 then (if 0 in rounds then [rounds[0]] else [])
    else InRange(rounds, lo, hi - 1) + (if hi in rounds then [rounds[hi]] else [])
  }

  /** A range is complete exactly when it has as many rounds as indices; then it lists them all. */
  lemma {:induction false} InRangeComplete(rounds: map<nat, Round>, lo: nat, hi: nat)
    requires 1 <= lo <= hi + 1
    ensures |InRange(rounds, lo, hi)| <= hi - lo + 1
    ensures |InRange(rounds, lo, hi)| == hi - lo + 1 ==>
              forall i | lo <= i <= hi :: i in rounds && InRange(rounds, lo, hi)[i - lo] == rounds[i]
    decreases hi
  {
    if lo <= hi { InRangeComplete(rounds, lo, hi - 1); }
  }

  /** How many leading rounds are at or before `t`. */
  function PartitionPoint(rounds: seq<Round>, t: nat): nat {
    if rounds == [] || rounds[0].updatedAt > t then 0 else 1 + PartitionPoint(rounds[1..], t)
  }

  lemma {:induction false} PartitionPointIs(rounds: seq<Round>, t: nat)
    ensures var c := PartitionPoint(rounds, t);
            && c <= |rounds|
            && (forall i | 0 <= i < c :: rounds[i].updatedAt <= t)
            && (c < |rounds| ==> rounds[c].updatedAt > t)
  {
    if rounds != [] && rounds[0].updatedAt <= t { PartitionPointIs(rounds[1..], t); }
  }

  // ---------------------------------------------------------------- the client

  class Chainlink {
    var mem: map<nat, PhaseMem>

    constructor ()
      ensures mem == map[]
    {
      mem := map[];
    }

    ghost predicate Valid(feed: Feed)
      reads this
    {
      feed.Valid() && forall p | p in mem :: Truthful(feed, p, mem[p])
    }

    /** The cache stays right whatever the feed appends between calls. */
    lemma StaysValid(feed: Feed, later: Feed)
      requires Valid(feed) && Appends(feed, later) && later.Valid()
      ensures Valid(later)
    {
      forall p | p in mem
        ensures Truthful(later, p, mem[p])
      {
        TruthSurvivesAppends(feed, later, p, mem[p]);
      }
    }

    function Mem(p: nat): PhaseMem
      reads this
    {
      if p in mem then mem[p] else EmptyMem()
    }

    lemma MemTruthful(feed: Feed, p: nat)
      requires Valid(feed)
      ensures Truthful(feed, p, Mem(p))
    {
    }

    /** A remembered round, or the feed's, remembered from then on. */
    method GetRound(feed: Feed, p: nat, idx: nat) returns (r: Option<Round>)
      requires Valid(feed)
      modifies this
      ensures Valid(feed)
      ensures r == feed.At(p, idx)
      ensures forall i | i in old(Mem(p)).rounds :: i in Mem(p).rounds
    {
      MemTruthful(feed, p);
      var m := Mem(p);
      if idx in m.rounds {
        return Some(m.rounds[idx]);
      }
      r := feed.Answer(p, idx);
      if r.Some? && r.value.updatedAt == 0 {
        r := None;
      }
      AnswerFiltered(feed, p, idx);
      if r.Some? {
        mem := mem[p := m.(rounds := m.rounds[idx := r.value], first := if idx == 1 then r else m.first)];
      }
    }

    lemma AnswerFiltered(feed: Feed, p: nat, idx: nat)
      requires feed.Valid()
      ensures feed.At(p, idx).Some? ==> feed.Answer(p, idx) == feed.At(p, idx) && feed.At(p, idx).value.updatedAt > 0
      ensures feed.At(p, idx).None? && feed.Answer(p, idx).Some? ==> feed.Answer(p, idx).value.updatedAt == 0
    {
    }

    method First(feed: Feed, p: nat) returns (r: Option<Round>)
      requires Valid(feed)
      modifies this
      ensures Valid(feed)
      ensures r == feed.At(p, 1)
    {
      MemTruthful(feed, p);
      if Mem(p).first.Some? {
        return Mem(p).first;
      }
      r := GetRound(feed, p, 1);
    }

    /** The highest existing round of a phase: the latest for the current one, found once and remembered for a
        closed one. Gives up exactly on closed phases of at least `PROBE_LIMIT` rounds. */
    method Last(feed: Feed, p: nat, latest: Round) returns (r: Result<nat, FeedError>)
      requires Valid(feed) && latest == feed.Latest()
      modifies this
      ensures Valid(feed)
      ensures r == if 1 <= p < feed.Top() && feed.Length(p) >= PROBE_LIMIT then Err(ProbeOverflow(p))
                   else Ok(feed.Length(p))
    {
      if p == latest.phase {
        return Ok(latest.aggRound);
      }
      MemTruthful(feed, p);
      if Mem(p).lastRound.Some? {
        return Ok(Mem(p).lastRound.value);
      }
      var first := GetRound(feed, p, 1);
      if first.None? {
        return Ok(0);
      }
      var bounds := Probe(feed, p);
      if bounds.None? {
        return Err(ProbeOverflow(p));
      }
      var (lo, hi) := bounds.value;
      while hi - lo > 1
        invariant Valid(feed)
        invariant 1 <= lo <= feed.Length(p) < hi <= PROBE_LIMIT
        decreases hi - lo
      {
        var mid := lo + (hi - lo) / 2;
        var found := GetRound(feed, p, mid);
        if found.Some? { lo := mid; } else { hi := mid; }
      }
      MemTruthful(feed, p);
      mem := mem[p := Mem(p).(lastRound := Some(lo))];
      return Ok(lo);
    }

    /** Doubles past the end of a phase that has a first round. */
    method Probe(feed: Feed, p: nat) returns (bounds: Option<(nat, nat)>)
      requires Valid(feed) && feed.Length(p) >= 1
      modifies this
      ensures Valid(feed)
      ensures bounds.None? <==> feed.Length(p) >= PROBE_LIMIT
      ensures bounds.Some? ==> 1 <= bounds.value.0 <= feed.Length(p) < bounds.value.1 <= PROBE_LIMIT
    {
      var lo, hi := 1, 2;
      ghost var k := 1;
      assert Pow2(1) == 2;
      var found := GetRound(feed, p, hi);
      while found.Some?
        invariant Valid(feed)
        invariant 1 <= lo < hi <= PROBE_LIMIT && lo <= feed.Length(p) && hi == Pow2(k)
        invariant found == feed.At(p, hi)
        decreases feed.Length(p) - lo
      {
        DoubleOrLimit(k);
        lo := hi;
        hi, k := 2 * hi, k + 1;
        if hi > PROBE_LIMIT {
          return None;
        }
        found := GetRound(feed, p, hi);
      }
      return Some((lo, hi));
    }

    /** The largest round index in `1..=hi` at or before `t`, by binary search. */
    method Search(feed: Feed, p: nat, hi0: nat, t: nat) returns (r: Option<nat>)
      requires Valid(feed)
      modifies this
      ensures Valid(feed)
      ensures r.None? <==> feed.Length(p) == 0 || feed.At(p, 1).value.updatedAt > t || hi0 == 0
      ensures r.Some? ==> IsLatestBy(feed, p, hi0, t, r.value)
    {
      var first := GetRound(feed, p, 1);
      if first.None? {
        return None;
      }
      if first.value.updatedAt > t || hi0 == 0 {
        return None;
      }
      var lo, hi := 1, hi0;
      while lo < hi
        invariant Valid(feed)
        invariant 1 <= lo <= hi <= hi0 && lo <= feed.Length(p)
        invariant feed.At(p, lo).value.updatedAt <= t
        invariant forall j | hi < j <= hi0 && j <= feed.Length(p) :: feed.At(p, j).value.updatedAt > t
        decreases hi - lo
      {
        var mid := lo + (hi - lo + 1) / 2;
        var round := GetRound(feed, p, mid);
        if round.Some? && round.value.updatedAt <= t {
          lo := mid;
        } else {
          LaterStillLater(feed, p, mid, t);
          hi := mid - 1;
        }
      }
      return Some(lo);
    }

    lemma LaterStillLater(feed: Feed, p: nat, mid: nat, t: nat)
      requires feed.Valid() && mid >= 1
      requires feed.At(p, mid).Some? ==> feed.At(p, mid).value.updatedAt > t
      ensures forall j | mid <= j && j <= feed.Length(p) :: feed.At(p, j).value.updatedAt > t
    {
      if 1 <= p <= feed.Top() { assert Timed(feed.phases[p - 1]); }
    }

    /** The highest phase at or below `top` whose first round is at or before `t`. */
    method PhaseFor(feed: Feed, t: nat) returns (r: Option<nat>)
      requires Valid(feed)
      modifies this
      ensures Valid(feed)
      ensures r == if ServingPhase(feed.phases, t) == 0 then None else Some(ServingPhase(feed.phases, t))
    {
      var p := feed.Top();
      while p >= 1
        invariant Valid(feed) && 0 <= p <= |feed.phases|
        invariant forall q | p <= q < |feed.phases| :: feed.phases[q] == [] || feed.phases[q][0].updatedAt > t
        decreases p
      {
        var f := First(feed, p);
        if f.Some? && f.value.updatedAt <= t {
          ServingPhaseUnique(feed.phases, t, p);
          return Some(p);
        }
        p := p - 1;
      }
      ServingPhaseUnique(feed.phases, t, 0);
      return None;
    }

    /** The price at `t` is the one the definition gives; it is refused exactly when the definition has none, or when
        the serving phase is closed and too long to probe. */
    method PriceAtTime(feed: Feed, t: nat) returns (r: Result<Round, FeedError>)
      requires Valid(feed)
      modifies this
      ensures Valid(feed)
      ensures var p := ServingPhase(feed.phases, t);
              if p == 0 then r == Err(WindowPredatesFeed(t))
              else if p < feed.Top() && feed.Length(p) >= PROBE_LIMIT then r == Err(ProbeOverflow(p))
              else r.Ok? && PriceAt(feed.phases, t) == Some(r.value)
    {
      ServingPhaseServes(feed.phases, t);
      var phase := PhaseFor(feed, t);
      if phase.None? {
        return Err(WindowPredatesFeed(t));
      }
      var hi :- Last(feed, phase.value, feed.Latest());
      var round := LatestBy(feed, phase.value, hi, t);
      return Ok(round);
    }

    /** The latest round by a time its phase serves: a search, then a lookup that cannot miss. */
    method LatestBy(feed: Feed, p: nat, hi: nat, t: nat) returns (round: Round)
      requires Valid(feed) && p == ServingPhase(feed.phases, t) && p > 0 && hi == feed.Length(p)
      modifies this
      ensures Valid(feed)
      ensures PriceAt(feed.phases, t) == Some(round)
    {
      ServingPhaseServes(feed.phases, t);
      var idx := SearchServed(feed, p, hi, t);
      LatestByIsPrice(feed, p, t, idx);
      var found := GetRound(feed, p, idx);
      assert found.Some?;
      round := found.value;
    }

    // -------------------------------------------------------------- dense loading

    /** One chunk of a dense fetch: what came back, and how far it is unbroken from the chunk's start. Any call inside
        the batch may fail on its own (`drops`), leaving a hole. */
    method FetchChunk(feed: Feed, p: nat, a: nat, b: nat, drops: nat -> bool)
      returns (got: map<nat, Round>, contiguous: Option<nat>)
      requires feed.Valid() && a <= b
      ensures forall i | i in got :: a <= i <= b && feed.At(p, i) == Some(got[i])
      ensures contiguous.Some? ==> a <= contiguous.value <= b && forall i | a <= i <= contiguous.value :: i in got
      ensures contiguous.None? ==> a !in got
      ensures contiguous.Some? && contiguous.value < b ==> contiguous.value + 1 !in got
      ensures (forall i | a <= i <= b :: !drops(i) && feed.At(p, i).Some?) ==> forall i | a <= i <= b :: i in got
    {
      got, contiguous := map[], None;
      var idx := a;
      while idx <= b
        invariant a <= idx <= b + 1
        invariant forall i | i in got :: a <= i < idx && feed.At(p, i) == Some(got[i])
        invariant contiguous.Some? ==> a <= contiguous.value < idx && forall i | a <= i <= contiguous.value :: i in got
        invariant contiguous.None? ==> a !in got
        invariant contiguous.Some? ==> contiguous.value + 1 !in got
        invariant forall i | a <= i < idx && !drops(i) && feed.At(p, i).Some? :: i in got
      {
        var answer := if drops(idx) then None else feed.Answer(p, idx);
        AnswerFiltered(feed, p, idx);
        if answer.Some? && answer.value.updatedAt != 0 {
          got := got[idx := answer.value];
          if idx == a || contiguous == Some(idx - 1) {
            contiguous := Some(idx);
          }
        }
        idx := idx + 1;
      }
    }

    /** Every round of the range exists and no call for one fails. */
    static predicate Reachable(feed: Feed, p: nat, a: nat, b: nat, drops: nat -> bool) {
      forall i | a <= i <= b :: !drops(i) && feed.At(p, i).Some?
    }

    static ghost predicate CoverageKept(before: PhaseMem, after: PhaseMem) {
      forall x: nat | Covers(before.coverage, x) :: Covers(after.coverage, x)
    }

    /** Fetches `a..=b` in chunks, remembering what came back and covering what is unbroken. */
    method LoadRange(feed: Feed, p: nat, a: U64, b: U64, drops: nat -> bool)
      requires Valid(feed) && b < U64_MAX
      modifies this
      ensures Valid(feed)
      ensures forall i | i in old(Mem(p)).rounds :: i in Mem(p).rounds
      ensures CoverageKept(old(Mem(p)), Mem(p))
      ensures Reachable(feed, p, a, b, drops) ==> forall x: nat | a <= x <= b :: Covers(Mem(p).coverage, x)
    {
      var start: U64 := a;
      while start <= b
        invariant Valid(feed) && a <= start && (a <= b ==> start <= b + 1)
        invariant forall i | i in old(Mem(p)).rounds :: i in Mem(p).rounds
        invariant CoverageKept(old(Mem(p)), Mem(p))
        invariant Reachable(feed, p, a, b, drops) ==> forall x: nat | a <= x < start :: Covers(Mem(p).coverage, x)
        decreases b + 1 - start
      {
        var end: U64 := if start + MULTICALL_CHUNK - 1 < b then start + MULTICALL_CHUNK - 1 else b;
        var got, contiguous := FetchChunk(feed, p, start, end, drops);
        Remember(feed, p, got, start, contiguous);
        start := end + 1;
      }
    }

    /** Takes a fetched chunk into memory. */
    method Remember(feed: Feed, p: nat, got: map<nat, Round>, start: U64, contiguous: Option<nat>)
      requires Valid(feed)
      requires forall i | i in got :: feed.At(p, i) == Some(got[i])
      requires contiguous.Some? ==> contiguous.value <= U64_MAX && forall i | start <= i <= contiguous.value :: i in got
      modifies this
      ensures Valid(feed)
      ensures Mem(p).rounds == old(Mem(p)).rounds + got
      ensures forall x: nat ::
                Covers(Mem(p).coverage, x)
                <==> Covers(old(Mem(p)).coverage, x) || (contiguous.Some? && start <= x <= contiguous.value)
    {
      MemTruthful(feed, p);
      var m := Mem(p);
      var coverage := m.coverage;
      if contiguous.Some? {
        coverage := AddInterval(m.coverage, Interval(start, contiguous.value));
      }
      mem := mem[p := m.(rounds := m.rounds + got, coverage := coverage)];
    }

    /** Brings `lo..=hi` of a phase into memory, fetching only what the coverage misses. Unless a call inside a batch
        failed, all of it is then in memory and covered, so it is never fetched again. */
    method EnsureLoaded(feed: Feed, p: nat, lo: U64, hi: U64, drops: nat -> bool)
      requires Valid(feed) && hi < U64_MAX
      modifies this
      ensures Valid(feed)
      ensures CoverageKept(old(Mem(p)), Mem(p))
      ensures Reachable(feed, p, lo, hi, drops) ==>
        forall x: nat | lo <= x <= hi :: Covers(Mem(p).coverage, x) && x in Mem(p).rounds
    {
      MemTruthful(feed, p);
      ghost var before := Mem(p);
      var missing := MissingRanges(lo, hi, Mem(p).coverage);
      ghost var whole := Reachable(feed, p, lo, hi, drops);
      for k := 0 to |missing|
        invariant Valid(feed)
        invariant CoverageKept(before, Mem(p))
        invariant whole ==> forall x: nat | Covers(missing[..k], x) :: Covers(Mem(p).coverage, x)
      {
        LoadRange(feed, p, missing[k].lo, missing[k].hi, drops);
        forall x: nat | whole && Covers(missing[..k + 1], x)
          ensures Covers(Mem(p).coverage, x)
        {
          assert missing[..k + 1] == missing[..k] + [missing[k]];
          CoversLast(missing[..k], missing[k], x);
        }
      }
      assert missing[..|missing|] == missing;
      MemTruthful(feed, p);
      forall x: nat | whole && lo <= x <= hi
        ensures Covers(Mem(p).coverage, x)
      {
        assert Covers(missing, x) || Covers(before.coverage, x);
      }
    }

    // -------------------------------------------------------------- sampling

    /** Samples one time after another by search. */
    method SampleEach(feed: Feed, g: Group, hi: nat) returns (out: seq<Sample>)
      requires Valid(feed) && GroupOk(feed, g) && hi == feed.Length(g.phase)
      modifies this
      ensures Valid(feed)
      ensures Agrees(feed, out, g.times)
    {
      out := [];
      for i := 0 to |g.times|
        invariant Valid(feed)
        invariant Agrees(feed, out, g.times[..i])
      {
        var round := LatestBy(feed, g.phase, hi, g.times[i]);
        out := out + [Sample(g.times[i], round)];
      }
      assert g.times[..|g.times|] == g.times;
    }

    /** Samples from an unbroken list of the rounds `lo..=hi`, by position. */
    method SampleDense(feed: Feed, g: Group, rounds: seq<Round>, lo: nat, hi: nat) returns (out: seq<Sample>)
      requires Valid(feed) && GroupOk(feed, g) && lo <= hi && |rounds| == hi - lo + 1
      requires forall i | lo <= i <= hi :: feed.At(g.phase, i) == Some(rounds[i - lo])
      requires IsLatestBy(feed, g.phase, feed.Length(g.phase), g.times[0], lo)
      requires IsLatestBy(feed, g.phase, feed.Length(g.phase), g.times[|g.times| - 1], hi)
      ensures Agrees(feed, out, g.times)
    {
      out := [];
      for i := 0 to |g.times|
        invariant Agrees(feed, out, g.times[..i])
      {
        var t := g.times[i];
        var pos := PartitionPoint(rounds, t);
        DensePosition(feed, g, rounds, lo, hi, i);
        out := out + [Sample(t, rounds[pos - 1])];
      }
      assert g.times[..|g.times|] == g.times;
    }

    /** The partition point of the dense list is at the latest round by `t`, and never at its start. */
    lemma DensePosition(feed: Feed, g: Group, rounds: seq<Round>, lo: nat, hi: nat, i: nat)
      requires feed.Valid() && GroupOk(feed, g) && i < |g.times| && lo <= hi && |rounds| == hi - lo + 1
      requires forall j | lo <= j <= hi :: feed.At(g.phase, j) == Some(rounds[j - lo])
      requires IsLatestBy(feed, g.phase, feed.Length(g.phase), g.times[0], lo)
      requires IsLatestBy(feed, g.phase, feed.Length(g.phase), g.times[|g.times| - 1], hi)
      ensures var pos := PartitionPoint(rounds, g.times[i]);
              1 <= pos <= |rounds| && PriceAt(feed.phases, g.times[i]) == Some(rounds[pos - 1])
    {
      var t, pos := g.times[i], PartitionPoint(rounds, g.times[i]);
      PartitionPointIs(rounds, t);
      assert g.times[0] <= t <= g.times[|g.times| - 1];
      assert feed.At(g.phase, lo) == Some(rounds[0]);
      assert pos >= 1;
      var idx := lo + pos - 1;
      assert feed.At(g.phase, idx) == Some(rounds[idx - lo]);
      if pos < |rounds| {
        assert feed.At(g.phase, idx + 1) == Some(rounds[pos]);
        LaterStillLater(feed, g.phase, idx + 1, t);
      }
      LatestByIsPrice(feed, g.phase, t, idx);
    }

    /** One group of times, on whichever path its spread calls for. */
    method SampleGroup(feed: Feed, g: Group, drops: nat -> bool) returns (r: Result<seq<Sample>, FeedError>)
      requires Valid(feed) && GroupOk(feed, g)
      modifies this
      ensures Valid(feed)
      ensures r.Ok? ==> Agrees(feed, r.value, g.times)
      ensures r.Err? <==> g.phase < feed.Top() && feed.Length(g.phase) >= PROBE_LIMIT
      ensures r.Err? ==> r.error == ProbeOverflow(g.phase)
    {
      var hi :- Last(feed, g.phase, feed.Latest());
      var idxLo := SearchServed(feed, g.phase, hi, g.times[0]);
      var idxHi := SearchServed(feed, g.phase, hi, g.times[|g.times| - 1]);
      SearchMonotone(feed, g.phase, g.times[0], g.times[|g.times| - 1], idxLo, idxHi);
      var out;
      if idxHi - idxLo + 1 > |g.times| * 16 {
        out := SampleEach(feed, g, hi);
      } else {
        out := SampleLoaded(feed, g, hi, idxLo, idxHi, drops);
      }
      return Ok(out);
    }

    /** The search in the serving phase cannot come back empty. */
    method SearchServed(feed: Feed, p: nat, hi: nat, t: nat) returns (idx: nat)
      requires Valid(feed) && p == ServingPhase(feed.phases, t) && p > 0 && hi == feed.Length(p)
      modifies this
      ensures Valid(feed)
      ensures IsLatestBy(feed, p, hi, t, idx)
    {
      ServingPhaseServes(feed.phases, t);
      var found := Search(feed, p, hi, t);
      assert found.Some?;
      idx := found.value;
    }

    /** The dense path, falling back to one search per time when the loaded range has holes. */
    method SampleLoaded(feed: Feed, g: Group, hi: nat, idxLo: nat, idxHi: nat, drops: nat -> bool)
      returns (out: seq<Sample>)
      requires Valid(feed) && GroupOk(feed, g) && hi == feed.Length(g.phase) && idxLo <= idxHi
      requires IsLatestBy(feed, g.phase, hi, g.times[0], idxLo)
      requires IsLatestBy(feed, g.phase, hi, g.times[|g.times| - 1], idxHi)
      modifies this
      ensures Valid(feed)
      ensures Agrees(feed, out, g.times)
    {
      assert hi < U64_MAX by {
        assert hi == |feed.phases[g.phase - 1]|;
      }
      EnsureLoaded(feed, g.phase, idxLo, idxHi, drops);
      var rounds := InRange(Mem(g.phase).rounds, idxLo, idxHi);
      LoadedAreTheFeeds(feed, g.phase, idxLo, idxHi);
      if |rounds| == idxHi - idxLo + 1 {
        out := SampleDense(feed, g, rounds, idxLo, idxHi);
      } else {
        out := SampleEach(feed, g, hi);
      }
    }

    /** An unbroken list of remembered rounds is the feed's. */
    lemma LoadedAreTheFeeds(feed: Feed, p: nat, lo: nat, hi: nat)
      requires Valid(feed) && 1 <= lo <= hi
      ensures var rounds := InRange(Mem(p).rounds, lo, hi);
        |rounds| == hi - lo + 1 ==> forall i | lo <= i <= hi :: feed.At(p, i) == Some(rounds[i - lo])
    {
      MemTruthful(feed, p);
      InRangeComplete(Mem(p).rounds, lo, hi);
    }

    lemma SearchMonotone(feed: Feed, p: nat, t0: nat, t1: nat, i0: nat, i1: nat)
      requires t0 <= t1
      requires IsLatestBy(feed, p, feed.Length(p), t0, i0) && IsLatestBy(feed, p, feed.Length(p), t1, i1)
      ensures i0 <= i1
    {
    }

    /** Groups consecutive times by the phase that serves them. */
    method MakeGroups(feed: Feed, times: seq<nat>) returns (r: Result<seq<Group>, FeedError>)
      requires Valid(feed) && Increasing(times)
      modifies this
      ensures Valid(feed)
      ensures r.Ok? ==> Flatten(r.value) == times && forall i | 0 <= i < |r.value| :: GroupOk(feed, r.value[i])
      ensures r.Err? ==> r.error.WindowPredatesFeed? && r.error.t in times && PriceAt(feed.phases, r.error.t) == None
      ensures r.Ok? <==> forall i | 0 <= i < |times| :: PriceAt(feed.phases, times[i]).Some?
    {
      var groups: seq<Group> := [];
      for i := 0 to |times|
        invariant Valid(feed)
        invariant Flatten(groups) == times[..i]
        invariant forall j | 0 <= j < |groups| :: GroupOk(feed, groups[j])
        invariant forall j | 0 <= j < i :: PriceAt(feed.phases, times[j]).Some?
      {
        var t := times[i];
        var phase := PhaseFor(feed, t);
        if phase.None? {
          return Err(WindowPredatesFeed(t));
        }
        groups := PushTime(feed, groups, phase.value, t, times, i);
      }
      assert times[..|times|] == times;
      return Ok(groups);
    }

    method PushTime(feed: Feed, groups: seq<Group>, p: nat, t: nat, ghost times: seq<nat>, ghost i: nat)
      returns (more: seq<Group>)
      requires Increasing(times) && i < |times| && t == times[i]
      requires p > 0 && ServingPhase(feed.phases, t) == p
      requires Flatten(groups) == times[..i] && forall j | 0 <= j < |groups| :: GroupOk(feed, groups[j])
      ensures Flatten(more) == times[..i + 1] && forall j | 0 <= j < |more| :: GroupOk(feed, more[j])
    {
      if groups != [] && groups[|groups| - 1].phase == p {
        var last, init := groups[|groups| - 1], groups[..|groups| - 1];
        more := init + [Group(p, last.times + [t])];
        LastTimesBefore(groups, last, times, i);
        LastGroupGrows(groups, t);
      } else {
        more := groups + [Group(p, [t])];
        assert more[..|groups|] == groups;
      }
    }

    lemma LastTimesBefore(groups: seq<Group>, last: Group, times: seq<nat>, i: nat)
      requires Increasing(times) && i < |times| && Flatten(groups) == times[..i]
      requires groups != [] && groups[|groups| - 1] == last
      ensures forall j | 0 <= j < |last.times| :: last.times[j] <= times[i]
    {
      TailBefore(times, i, Flatten(groups[..|groups| - 1]), last.times);
    }

    lemma TailBefore(times: seq<nat>, i: nat, init: seq<nat>, tail: seq<nat>)
      requires Increasing(times) && i < |times| && times[..i] == init + tail
      ensures forall j | 0 <= j < |tail| :: tail[j] <= times[i]
    {
      forall j | 0 <= j < |tail|
        ensures tail[j] <= times[i]
      {
        var k := |init| + j;
        assert times[..i][k] == (init + tail)[k];
        assert times[k] == tail[j];
      }
    }

    lemma LastGroupGrows(groups: seq<Group>, t: nat)
      requires groups != []
      ensures var last, init := groups[|groups| - 1], groups[..|groups| - 1];
        Flatten(init + [Group(last.phase, last.times + [t])]) == Flatten(groups) + [t]
    {
      var last, init := groups[|groups| - 1], groups[..|groups| - 1];
      var more := init + [Group(last.phase, last.times + [t])];
      assert more[..|init|] == init;
      JoinAssoc(Flatten(init), last.times, [t]);
    }

    /** Samples the window at `start + i·interval`. Every sample is the price the definition gives, whichever of the
        three paths produced it and whatever the cache held; each refusal has its one stated cause. */
    method SampleWindow(feed: Feed, start: nat, end: nat, interval: nat, drops: (nat, nat) -> bool)
      returns (r: Result<seq<Sample>, FeedError>)
      requires Valid(feed)
      modifies this
      ensures Valid(feed)
      ensures interval == 0 ==> r == Err(ZeroInterval)
      ensures interval > 0 && end < start ==> r == Err(EndBeforeStart)
      ensures interval > 0 && start <= end && (end - start) / interval >= MAX_SAMPLES ==> r == Err(TooManySamples)
      ensures interval > 0 && start <= end && (end - start) / interval < MAX_SAMPLES ==>
                var times := Times(start, interval, (end - start) / interval + 1);
                Answered(feed, times, r)
    {
      if interval == 0 { return Err(ZeroInterval); }
      if end < start { return Err(EndBeforeStart); }
      var n := (end - start) / interval;
      if n >= MAX_SAMPLES { return Err(TooManySamples); }
      var times := Times(start, interval, n + 1);
      TimesIncrease(start, interval, n + 1);
      r := SampleTimes(feed, times, drops);
    }

    /** A group's first time is one of the times grouped. */
    lemma {:induction false} InFlatten(groups: seq<Group>, k: nat)
      requires k < |groups| && groups[k].times != []
      ensures groups[k].times[0] in Flatten(groups)
    {
      var init := groups[..|groups| - 1];
      if k < |init| {
        assert init[k] == groups[k];
        InFlatten(init, k);
      }
    }

    /** Groups the times by phase and samples group after group. */
    method SampleTimes(feed: Feed, times: seq<nat>, drops: (nat, nat) -> bool)
      returns (r: Result<seq<Sample>, FeedError>)
      requires Valid(feed) && Increasing(times)
      modifies this
      ensures Valid(feed)
      ensures Answered(feed, times, r)
    {
      var groups :- MakeGroups(feed, times);
      var out: seq<Sample> := [];
      for k := 0 to |groups|
        invariant Valid(feed)
        invariant Agrees(feed, out, Flatten(groups[..k]))
        invariant forall t | t in Flatten(groups[..k]) :: !TooLongToProbe(feed, t)
      {
        assert groups[..k + 1][..k] == groups[..k];
        var phase := groups[k].phase;
        var sampled := SampleGroup(feed, groups[k], (i: nat) => drops(phase, i));
        GroupTooLongIff(feed, groups[k]);
        if sampled.Err? {
          InFlatten(groups, k);
          return Err(sampled.error);
        }
        AgreesJoined(feed, out, Flatten(groups[..k]), sampled.value, groups[k].times);
        out := out + sampled.value;
      }
      assert groups[..|groups|] == groups;
      return Ok(out);
    }

    lemma AgreesJoined(feed: Feed, out: seq<Sample>, times: seq<nat>, more: seq<Sample>, moreTimes: seq<nat>)
      requires Agrees(feed, out, times) && Agrees(feed, more, moreTimes)
      ensures Agrees(feed, out + more, times + moreTimes)
    {
    }

    /** All the times of a group are too far into a long phase together. */
    lemma GroupTooLongIff(feed: Feed, g: Group)
      requires GroupOk(feed, g)
      ensures forall t | t in g.times ::
                TooLongToProbe(feed, t) <==> g.phase < feed.Top() && feed.Length(g.phase) >= PROBE_LIMIT
      ensures g.times[0] in g.times
    {
    }

    lemma {:induction false} TimesIncrease(start: nat, interval: nat, n: nat)
      ensures Increasing(Times(start, interval, n)) && |Times(start, interval, n)| == n
      ensures forall i | 0 <= i < n :: Times(start, interval, n)[i] == start + i * interval
    {
      if n > 0 {
        TimesIncrease(start, interval, n - 1);
        forall i | 0 <= i < n
          ensures Times(start, interval, n)[i] <= start + (n - 1) * interval
        {
          StepsInOrder(i, n - 1, interval);
        }
      }
    }
  }
}
