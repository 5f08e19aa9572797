/** Rounded integer arithmetic shared by every priced quantity: floor and ceiling quotients, the exact
    rational inequalities they stand for, and the floored square root. */
module Arith {

  /** The fixed-point scale of every variance, unit and fraction. */
  const WAD: nat := 1_000_000_000_000_000_000

  /** `floor(a·b/d)`. */
  function MulDiv(a: nat, b: nat, d: nat): nat
    requires d > 0
  {
    Floor(a * b, d)
  }

  /** `ceil(a·b/d)`, in the form `(a·b + d − 1)/d`. */
  function MulDivUp(a: nat, b: nat, d: nat): nat
    requires d > 0
  {
    Ceil(a * b, d)
  }

  /** The quotient rounded down, pinned by the two exact inequalities. */
  function Floor(a: nat, d: nat): (q: nat)
    requires d > 0
    ensures q * d <= a < q * d + d
  {
    FloorBounds(a, d);
    a / d
  }

  /** The quotient rounded up, pinned by the two exact inequalities. */
  function Ceil(a: nat, d: nat): (q: nat)
    requires d > 0
    ensures a <= q * d < a + d
  {
    FloorBounds(a + d - 1, d);
    (a + d - 1) / d
  }

  lemma FloorBounds(a: nat, d: nat)
    requires d > 0
    ensures 0 <= a / d && (a / d) * d <= a < (a / d) * d + d
  {
    assert a == d * (a / d) + a % d;
  }

  function Min(a: int, b: int): int {
    if a < b then a else b
  }

  function Max(a: int, b: int): int {
    if a > b then a else b
  }

  function Abs(a: int): nat {
    if a < 0 then -a else a
  }

  // ---------------------------------------------------------------- products

  lemma MulMono(a: int, b: int, c: int)
    requires a <= b && 0 <= c
    ensures a * c <= b * c && c * a <= c * b
  {
  }

  // ---------------------------------------------------------------- rounding

  /** `floor(a/d)` is the greatest `q` with `q·d <= a`. */
  lemma FloorIs(a: nat, d: nat, q: int)
    requires d > 0
    ensures q * d <= a <==> q <= Floor(a, d)
  {
    var f := Floor(a, d);
    if q <= f {
      MulMono(q, f, d);
    } else {
      MulMono(f + 1, q, d);
    }
  }

  /** `ceil(a/d)` is the least `q` with `a <= q·d`. */
  lemma CeilIs(a: nat, d: nat, q: int)
    requires d > 0
    ensures a <= q * d <==> Ceil(a, d) <= q
  {
    var c := Ceil(a, d);
    if c <= q {
      MulMono(c, q, d);
    } else {
      MulMono(q, c - 1, d);
    }
  }

  lemma FloorMono(a: nat, b: nat, d: nat)
    requires d > 0 && a <= b
    ensures Floor(a, d) <= Floor(b, d)
  {
    FloorIs(b, d, Floor(a, d));
  }

  lemma CeilMono(a: nat, b: nat, d: nat)
    requires d > 0 && a <= b
    ensures Ceil(a, d) <= Ceil(b, d)
  {
    CeilIs(a, d, Ceil(b, d));
  }

  lemma FloorBelowCeil(a: nat, d: nat)
    requires d > 0
    ensures Floor(a, d) <= Ceil(a, d) <= Floor(a, d) + 1
  {
    CeilIs(a, d, Floor(a, d) + 1);
    FloorIs(a, d, Ceil(a, d) + 1);
  }

  /** Rounding up the parts covers the whole; rounding up the whole covers one part up plus one down. */
  lemma CeilSum(a: nat, b: nat, d: nat)
    requires d > 0
    ensures Ceil(a + b, d) <= Ceil(a, d) + Ceil(b, d)
    ensures Floor(a, d) + Ceil(b, d) <= Ceil(a + b, d)
  {
    CeilIs(a + b, d, Ceil(a, d) + Ceil(b, d));
    var c := Ceil(a + b, d);
    CeilIs(b, d, c - Floor(a, d));
  }

  /** Rounding down the parts never exceeds rounding down the whole. */
  lemma FloorSum(a: nat, b: nat, d: nat)
    requires d > 0
    ensures Floor(a, d) + Floor(b, d) <= Floor(a + b, d)
    ensures Floor(a + b, d) <= Floor(a, d) + Floor(b, d) + 1
  {
    hide Floor;
    var f, g := Floor(a, d), Floor(b, d);
    assert (f + g) * d == f * d + g * d;
    FloorIs(a + b, d, f + g);
    FloorIs(a + b, d, f + g + 2);
  }

  // ---------------------------------------------------------------- square root

  /** `r` is the square root of `n` rounded down. */
  predicate IsRoot(n: nat, r: nat) {
    r * r <= n < (r + 1) * (r + 1)
  }

  /** The floored square root, by counting up; the reference both Newton iterations are held to. */
  ghost function FloorSqrt(n: nat): (r: nat)
    ensures IsRoot(n, r)
  {
    if n == 0 then 0
    else
      var r := FloorSqrt(n - 1);
      if (r + 1) * (r + 1) <= n then r + 1 else r
  }

  lemma SquareMono(a: nat, b: nat)
    ensures a <= b <==> a * a <= b * b
    ensures a < b <==> a * a < b * b
  {
    if a < b {
      MulMono(a, b, a);
      MulMono(a + 1, b, b);
    } else if b < a {
      MulMono(b, a, b);
      MulMono(b + 1, a, a);
    }
  }

  lemma RootUnique(n: nat, r: nat, s: nat)
    requires IsRoot(n, r) && IsRoot(n, s)
    ensures r == s
  {
    SquareMono(r, s + 1);
    SquareMono(s, r + 1);
  }

  /** A product of two numbers is at most the square of their mean. */
  lemma MeanBound(x: int, k: int, r: int)
    requires x + k == 2 * r
    ensures k * x <= r * r
  {
    var t := r - x;
    assert k * x == (r + t) * (r - t) == r * r - t * t;
    assert t * t >= 0;
  }

  /** One Newton step never lands below a number whose square fits: from `x` it reaches at least `r`. */
  lemma NewtonStaysAbove(n: nat, x: nat, r: nat)
    requires x > 0 && r * r <= n
    ensures r <= (x + Floor(n, x)) / 2
  {
    var q := Floor(n, x);
    if (x + q) / 2 < r {
      var k := 2 * r - x;
      MulMono(q + 1, k, x);
      MeanBound(x, k, r);
    }
  }

  /** A step that does not descend has reached a number whose square fits. */
  lemma NewtonStops(n: nat, x: nat)
    requires x > 0 && x <= (x + Floor(n, x)) / 2
    ensures x * x <= n
  {
    MulMono(x, Floor(n, x), x);
  }

  lemma RootPositive(n: nat, r: nat)
    requires n >= 1 && IsRoot(n, r)
    ensures 1 <= r <= n
  {
    MulMono(1, n, n);
    SquareMono(r, n);
  }

  /** Newton's iteration from above, stopping at the first step that does not descend. */
  method Isqrt(n: nat) returns (r: nat)
    ensures r == FloorSqrt(n)
  {
    ghost var root := FloorSqrt(n);
    if n < 2 {
      RootUnique(n, n, root);
      return n;
    }
    RootPositive(n, root);
    var x, y := n, (n + 1) / 2;
    assert Floor(n, n) == 1 by {
      FloorIs(n, n, 1);
      FloorIs(n, n, 2);
    }
    NewtonStaysAbove(n, n, root);
    while y < x
      invariant 1 <= root <= x && root <= y
      invariant y == (x + Floor(n, x)) / 2
      decreases x
    {
      x := y;
      y := (x + n / x) / 2;
      NewtonStaysAbove(n, x, root);
    }
    NewtonStops(n, x);
    SquareMono(root + 1, x + 1);
    RootUnique(n, x, root);
    r := x;
  }

  /** Newton's iteration from any seed, followed by an exact walk to the neighbour that fits. */
  method IsqrtFromSeed(n: nat, seed: nat) returns (r: nat)
    ensures r == FloorSqrt(n)
  {
    ghost var root := FloorSqrt(n);
    if n < 2 {
      RootUnique(n, n, root);
      return n;
    }
    RootPositive(n, root);
    var x := if seed == 0 then 1 else seed;
    var y := (x + n / x) / 2;
    NewtonStaysAbove(n, x, root);
    while y < x
      invariant x > 0 && 1 <= root <= y
      invariant y == (x + Floor(n, x)) / 2
      decreases x
    {
      x := y;
      y := (x + n / x) / 2;
      NewtonStaysAbove(n, x, root);
    }
    while x * x > n
      invariant x >= 0
      decreases x
    {
      x := x - 1;
    }
    while (x + 1) * (x + 1) <= n
      invariant x * x <= n
      decreases n - x
    {
      MulMono(1, x + 1, x + 1);
      x := x + 1;
    }
    RootUnique(n, x, root);
    r := x;
  }
}
