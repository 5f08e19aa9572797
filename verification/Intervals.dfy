/** Sets of round indices kept as inclusive intervals: merging them, and what a range still misses. */
module Intervals {

  const U64_MAX: nat := 0xFFFF_FFFF_FFFF_FFFF

  type U64 = n: nat | n <= U64_MAX

  /** An inclusive interval; empty when it starts after it ends. */
  datatype Interval = Interval(lo: U64, hi: U64)

  /** The successor, saturating at the largest 64-bit value. */
  function Next(x: U64): U64 {
    if x == U64_MAX then U64_MAX else x + 1
  }

  ghost predicate Covers(v: seq<Interval>, x: nat) {
    exists i | 0 <= i < |v| :: v[i].lo <= x <= v[i].hi
  }

  /** Non-empty intervals in order, with a gap between any two neighbours. */
  predicate Separated(v: seq<Interval>) {
    && (forall i | 0 <= i < |v| :: v[i].lo <= v[i].hi)
    && (forall i, j | 0 <= i < j < |v| :: v[i].hi + 1 < v[j].lo)
  }

  // ---------------------------------------------------------------- sorting

  predicate Before(a: Interval, b: Interval) {
    a.lo < b.lo || (a.lo == b.lo && a.hi <= b.hi)
  }

  predicate Sorted(v: seq<Interval>) {
    forall i, j | 0 <= i < j < |v| :: Before(v[i], v[j])
  }

  function Insert(v: seq<Interval>, iv: Interval): seq<Interval> {
    if v == [] || Before(iv, v[0]) then [iv] + v else [v[0]] + Insert(v[1..], iv)
  }

  /** The library sort: the same elements in lexicographic order. */
  function Sort(v: seq<Interval>): seq<Interval> {
    if v == [] then [] else Insert(Sort(v[1..]), v[0])
  }

  lemma {:induction false} InsertKeeps(v: seq<Interval>, iv: Interval)
    ensures multiset(Insert(v, iv)) == multiset(v) + multiset{iv}
  {
    if v != [] && !Before(iv, v[0]) {
      InsertKeeps(v[1..], iv);
      assert v == [v[0]] + v[1..];
    }
  }

  lemma {:induction false} InsertSorts(v: seq<Interval>, iv: Interval)
    requires Sorted(v)
    ensures Sorted(Insert(v, iv))
  {
    if v == [] || Before(iv, v[0]) {
      FirstSorts(iv, v);
    } else {
      var rest := Insert(v[1..], iv);
      InsertSorts(v[1..], iv);
      InsertKeeps(v[1..], iv);
      forall j | 0 <= j < |rest|
        ensures Before(v[0], rest[j])
      {
        assert rest[j] in multiset(rest);
        assert rest[j] in v[1..] || rest[j] == iv;
      }
      FirstSorts(v[0], rest);
    }
  }

  /** Before the first, or before all, of a sorted list. */
  lemma FirstSorts(iv: Interval, rest: seq<Interval>)
    requires Sorted(rest)
    requires (rest == [] || Before(iv, rest[0])) || forall j | 0 <= j < |rest| :: Before(iv, rest[j])
    ensures Sorted([iv] + rest)
  {
  }

  lemma {:induction false} SortSorts(v: seq<Interval>)
    ensures Sorted(Sort(v)) && multiset(Sort(v)) == multiset(v)
  {
    if v != [] {
      SortSorts(v[1..]);
      InsertSorts(Sort(v[1..]), v[0]);
      InsertKeeps(Sort(v[1..]), v[0]);
      assert v == [v[0]] + v[1..];
    }
  }

  function Retain(v: seq<Interval>): (r: seq<Interval>)
    ensures forall x :: x in r <==> x in v && x.lo <= x.hi
  {
    if v == [] then []
    else if v[0].lo <= v[0].hi then [v[0]] + Retain(v[1..])
    else Retain(v[1..])
  }

  lemma CoversIn(v: seq<Interval>, x: nat)
    ensures Covers(v, x) <==> exists iv | iv in v :: iv.lo <= x <= iv.hi
  {
  }

  lemma SameCover(v: seq<Interval>, w: seq<Interval>)
    requires forall x :: x in w <==> x in v && x.lo <= x.hi
    ensures forall x: nat :: Covers(w, x) <==> Covers(v, x)
  {
    forall x: nat
      ensures Covers(w, x) <==> Covers(v, x)
    {
      CoversIn(v, x);
      CoversIn(w, x);
    }
  }

  // ---------------------------------------------------------------- coalesce

  lemma CoversLast(v: seq<Interval>, iv: Interval, x: nat)
    ensures Covers(v + [iv], x) <==> Covers(v, x) || iv.lo <= x <= iv.hi
  {
    if Covers(v, x) {
      var i :| 0 <= i < |v| && v[i].lo <= x <= v[i].hi;
      assert (v + [iv])[i] == v[i];
    }
    if iv.lo <= x <= iv.hi {
      assert (v + [iv])[|v|] == iv;
    }
  }

  /** One merging step: absorb an interval that touches the last one, or start a new one after it. */
  method Absorb(out0: seq<Interval>, iv: Interval) returns (out: seq<Interval>)
    requires Separated(out0) && iv.lo <= iv.hi
    requires out0 != [] ==> out0[|out0| - 1].lo <= iv.lo
    ensures Separated(out) && out != [] && out[|out| - 1].lo <= iv.lo
    ensures forall x: nat :: Covers(out, x) <==> Covers(out0, x) || iv.lo <= x <= iv.hi
  {
    if out0 != [] && iv.lo <= Next(out0[|out0| - 1].hi) {
      var last, init := out0[|out0| - 1], out0[..|out0| - 1];
      var merged := Interval(last.lo, if last.hi < iv.hi then iv.hi else last.hi);
      assert out0 == init + [last];
      out := init + [merged];
      forall x: nat
        ensures Covers(out, x) <==> Covers(out0, x) || iv.lo <= x <= iv.hi
      {
        CoversLast(init, last, x);
        CoversLast(init, merged, x);
      }
    } else {
      out := out0 + [iv];
      forall x: nat
        ensures Covers(out, x) <==> Covers(out0, x) || iv.lo <= x <= iv.hi
      {
        CoversLast(out0, iv, x);
      }
    }
  }

  /** Merging keeps the set and leaves it in its one canonical form. */
  method Coalesce(v: seq<Interval>) returns (out: seq<Interval>)
    ensures forall x: nat :: Covers(out, x) <==> Covers(v, x)
    ensures Separated(out)
  {
    var w := Sort(Retain(v));
    SortedRetained(v, w);
    out := [];
    for k := 0 to |w|
      invariant Separated(out)
      invariant forall x: nat :: Covers(out, x) <==> Covers(w[..k], x)
      invariant out != [] && k < |w| ==> out[|out| - 1].lo <= w[k].lo
    {
      out := Absorb(out, w[k]);
      forall x: nat
        ensures Covers(out, x) <==> Covers(w[..k + 1], x)
      {
        assert w[..k + 1] == w[..k] + [w[k]];
        CoversLast(w[..k], w[k], x);
      }
      assert k + 1 < |w| ==> Before(w[k], w[k + 1]);
    }
    assert w[..|w|] == w;
  }

  lemma SortedRetained(v: seq<Interval>, w: seq<Interval>)
    requires w == Sort(Retain(v))
    ensures Sorted(w) && (forall k | 0 <= k < |w| :: w[k].lo <= w[k].hi)
    ensures forall x: nat :: Covers(w, x) <==> Covers(v, x)
  {
    var kept := Retain(v);
    SortSorts(kept);
    forall iv
      ensures iv in w <==> iv in kept
    {
      assert iv in w <==> iv in multiset(w);
      assert iv in kept <==> iv in multiset(kept);
    }
    SameCover(v, w);
  }

  method AddInterval(v: seq<Interval>, iv: Interval) returns (out: seq<Interval>)
    ensures forall x: nat :: Covers(out, x) <==> Covers(v, x) || iv.lo <= x <= iv.hi
    ensures Separated(out)
  {
    out := Coalesce(v + [iv]);
    forall x: nat
      ensures Covers(out, x) <==> Covers(v, x) || iv.lo <= x <= iv.hi
    {
      CoversLast(v, iv, x);
    }
  }

  /** The canonical form is unique: separated lists covering the same set are equal. */
  lemma {:induction false} SeparatedIsCanonical(v: seq<Interval>, w: seq<Interval>)
    requires Separated(v) && Separated(w)
    requires forall x: nat :: Covers(v, x) <==> Covers(w, x)
    ensures v == w
  {
    if v == [] {
      if w != [] { assert Covers(w, w[0].lo); }
    } else if w == [] {
      assert Covers(v, v[0].lo);
    } else {
      FirstIntervals(v, w);
      FirstIntervals(w, v);
      assert v[0] == w[0];
      forall x: nat
        ensures Covers(v[1..], x) <==> Covers(w[1..], x)
      {
        CoversTail(v, x);
        CoversTail(w, x);
      }
      SeparatedIsCanonical(v[1..], w[1..]);
    }
  }

  lemma GapAfterFirst(v: seq<Interval>)
    requires Separated(v) && v != []
    ensures !Covers(v, v[0].hi + 1)
  {
    forall i | 0 <= i < |v|
      ensures !(v[i].lo <= v[0].hi + 1 <= v[i].hi)
    {
      if i > 0 { assert Before(v[0], v[i]); }
    }
  }

  /** The first interval starts no later, and ends no earlier, than that of any list covering no more. */
  lemma FirstIntervals(v: seq<Interval>, w: seq<Interval>)
    requires Separated(v) && Separated(w) && v != [] && w != []
    requires forall x: nat :: Covers(v, x) <==> Covers(w, x)
    ensures v[0].lo <= w[0].lo
    ensures v[0].lo == w[0].lo ==> w[0].hi <= v[0].hi
  {
    assert Covers(w, w[0].lo);
    var i :| 0 <= i < |v| && v[i].lo <= w[0].lo <= v[i].hi;
    GapAfterFirst(v);
    assert !Covers(w, v[0].hi + 1);
    assert !(w[0].lo <= v[0].hi + 1 <= w[0].hi);
  }

  lemma CoversTail(v: seq<Interval>, x: nat)
    requires Separated(v) && v != []
    ensures Covers(v[1..], x) <==> Covers(v, x) && x > v[0].hi
  {
    if Covers(v[1..], x) {
      var i :| 0 <= i < |v[1..]| && v[1..][i].lo <= x <= v[1..][i].hi;
      assert v[i + 1] == v[1..][i];
    }
    if Covers(v, x) && x > v[0].hi {
      var i :| 0 <= i < |v| && v[i].lo <= x <= v[i].hi;
      assert v[1..][i - 1] == v[i];
    }
  }

  // ---------------------------------------------------------------- missing ranges

  /** Everything covered by the intervals already passed lies before the cursor, or is the largest value itself. */
  predicate Passed(cov: seq<Interval>, k: nat, cur: U64)
    requires k <= |cov|
  {
    forall j | 0 <= j < k :: cov[j].hi < cur || (cov[j].hi == U64_MAX && cur == U64_MAX)
  }

  /** What the sub-ranges returned cover: the part of `lo..=hi` outside the coverage, plus the largest 64-bit value
      whenever the range reaches it. */
  method MissingRanges(lo: U64, hi: U64, cov: seq<Interval>) returns (out: seq<Interval>)
    requires Separated(cov)
    ensures forall x: nat :: Covers(out, x) <==> lo <= x <= hi && (!Covers(cov, x) || x == U64_MAX)
    ensures forall i | 0 <= i < |out| :: lo <= out[i].lo <= out[i].hi <= hi
  {
    out := [];
    var cur: U64 := lo;
    var k := 0;
    while k < |cov|
      invariant 0 <= k <= |cov| && lo <= cur && Passed(cov, k, cur)
      invariant forall x: nat :: Covers(out, x) <==> lo <= x < cur && x <= hi && !Covers(cov, x)
      invariant forall i | 0 <= i < |out| :: lo <= out[i].lo <= out[i].hi <= hi
    {
      var iv := cov[k];
      if iv.hi < cur {
        k := k + 1;
        continue;
      }
      if iv.lo > hi {
        break;
      }
      out := SkipTo(out, lo, hi, cov, k, cur);
      cur := if cur < Next(iv.hi) then Next(iv.hi) else cur;
      k := k + 1;
      if cur > hi {
        break;
      }
    }
    ghost var before := out;
    if cur <= hi {
      out := out + [Interval(cur, hi)];
    }
    forall x: nat
      ensures Covers(out, x) <==> lo <= x <= hi && (!Covers(cov, x) || x == U64_MAX)
    {
      CoversLast(before, Interval(cur, hi), x);
      PassedUncovers(cov, k, cur, x);
    }
  }

  /** Records the gap before interval `k`, if there is one. */
  method SkipTo(out0: seq<Interval>, lo: U64, hi: U64, cov: seq<Interval>, k: nat, cur: U64)
    returns (out: seq<Interval>)
    requires Separated(cov) && k < |cov| && cov[k].lo <= hi && cov[k].hi >= cur && lo <= cur && Passed(cov, k, cur)
    requires forall x: nat :: Covers(out0, x) <==> lo <= x < cur && x <= hi && !Covers(cov, x)
    requires forall i | 0 <= i < |out0| :: lo <= out0[i].lo <= out0[i].hi <= hi
    ensures forall x: nat :: Covers(out, x) <==> lo <= x < Next(cov[k].hi) && x <= hi && !Covers(cov, x)
    ensures forall i | 0 <= i < |out| :: lo <= out[i].lo <= out[i].hi <= hi
  {
    out := out0;
    var iv := cov[k];
    if iv.lo > cur {
      out := out0 + [Interval(cur, iv.lo - 1)];
    }
    forall x: nat
      ensures Covers(out, x) <==> lo <= x < Next(iv.hi) && x <= hi && !Covers(cov, x)
    {
      if iv.lo > cur { CoversLast(out0, Interval(cur, iv.lo - 1), x); }
      if iv.lo <= x <= iv.hi { assert Covers(cov, x); }
      PassedUncovers(cov, k, cur, x);
    }
  }

  /** From the cursor up to the next interval nothing is covered, the largest value aside. */
  lemma PassedUncovers(cov: seq<Interval>, k: nat, cur: U64, x: nat)
    requires Separated(cov) && k <= |cov| && Passed(cov, k, cur)
    ensures cur <= x && x != U64_MAX && (k < |cov| ==> x < cov[k].lo) ==> !Covers(cov, x)
  {
    if Covers(cov, x) {
      var j :| 0 <= j < |cov| && cov[j].lo <= x <= cov[j].hi;
      if k < j { assert cov[k].hi + 1 < cov[j].lo; }
    }
  }

  /** The returned ranges are exactly what the range misses if and only if it does not reach a covered largest value. */
  lemma MissingIsExactIff(lo: U64, hi: U64, cov: seq<Interval>, out: seq<Interval>)
    requires forall x: nat :: Covers(out, x) <==> lo <= x <= hi && (!Covers(cov, x) || x == U64_MAX)
    ensures (forall x: nat :: Covers(out, x) <==> lo <= x <= hi && !Covers(cov, x))
        <==> !(hi == U64_MAX && Covers(cov, U64_MAX))
  {
    if hi == U64_MAX && Covers(cov, U64_MAX) {
      assert Covers(out, U64_MAX);
    }
  }

  /** The largest value, covered, is reported missing all the same. */
  method TopIsReportedMissing() returns (out: seq<Interval>)
    ensures Covers([Interval(U64_MAX, U64_MAX)], U64_MAX) && Covers(out, U64_MAX)
  {
    var cov := [Interval(U64_MAX, U64_MAX)];
    assert cov[0].lo <= U64_MAX <= cov[0].hi;
    out := MissingRanges(U64_MAX, U64_MAX, cov);
  }
}
