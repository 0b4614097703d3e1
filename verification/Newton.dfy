/** The fixed-point Newton iteration for 1/x, on integers with 40 fractional bits. */
module Newton {
  import opened Words

  /** 2^40, the fixed-point one. */
  const ONE: nat := 0x100_0000_0000

  // ----------------------------------------------------------------------
  // The iteration

  /** y0 = 3 - 2x' */
  function First(X: nat): nat
    requires X <= ONE
  {
    3 * ONE - 2 * X
  }

  /** y (2 - x' y), each product cut to 40 fractional bits. */
  function Next(X: nat, Y: nat): int {
    Y * (2 * ONE - X * Y / ONE) / ONE
  }

  /** ONE^2 - X Y: how far Y is from the reciprocal of X. */
  function Gap(X: nat, Y: nat): int {
    ONE * ONE - X * Y
  }

  /** The gap is at most k ONE either way. */
  ghost predicate Near(X: nat, Y: nat, k: nat) {
    0 - k * ONE <= Gap(X, Y) <= k * ONE
  }

  // ----------------------------------------------------------------------
  // One step squares the gap

  lemma GapIdentity(f: nat, X: nat, Y: nat, A: int, a: int, Z: int, b: int)
    requires X * Y == f * A + a && Y * (2 * f - A) == f * Z + b
    ensures f * f * (f * f - X * Z) == (f * f - X * Y) * (f * f - X * Y) - X * Y * a + f * X * b
  {
    var P := X * Y;
    assert f * f * (X * Z) == f * X * (f * Z);
    assert f * X * (f * Z) == f * X * (Y * (2 * f - A)) - f * X * b by {
      assert f * Z == Y * (2 * f - A) - b;
      Distributes(f * X, Y * (2 * f - A), b);
    }
    assert f * X * (Y * (2 * f - A)) == P * (2 * f * f - f * A) by {
      assert f * X * (Y * (2 * f - A)) == P * (f * (2 * f - A));
    }
    assert f * A == P - a;
    Expand(f * f, P, a);
  }

  lemma Distributes(c: int, x: int, y: int)
    ensures c * (x - y) == c * x - c * y
  {
  }

  lemma Expand(s: int, P: int, a: int)
    ensures s * s - P * (2 * s - P + a) == (s - P) * (s - P) - P * a
  {
  }

  lemma ScaleLess(c: int, x: int, y: int)
    requires c > 0 && x < y
    ensures c * x < c * y
  {
  }

  lemma ScaleAtMost(c: int, x: int, y: int)
    requires c >= 0 && x <= y
    ensures c * x <= c * y
  {
  }

  lemma SquareBound(e: int, c: int)
    requires 0 - c <= e <= c
    ensures e * e <= c * c
  {
    if e >= 0 {
      ScaleAtMost(e, e, c);
      ScaleAtMost(c, e, c);
    } else {
      ScaleAtMost(-e, -e, c);
      ScaleAtMost(c, -e, c);
    }
  }

  lemma Cancel(c: int, x: int, y: int)
    requires c > 0 && c * x <= c * y
    ensures x <= y
  {
    if y < x {
      ScaleLess(c, y, x);
    }
  }

  lemma UpperTerms(f: nat, k: nat)
    ensures (k * f) * (k * f) + f * f * f == f * f * (k * k + f)
  {
    assert (k * f) * (k * f) == f * f * (k * k);
    assert f * f * (k * k + f) == f * f * (k * k) + f * f * f;
  }

  lemma LowerTerms(f: nat, k: nat)
    ensures (f * f + k * f) * f == f * f * (f + k)
    ensures f * f * (0 - (f + k)) == 0 - f * f * (f + k)
  {
  }

  /** X Y a is at most (f^2 + k f) f. */
  lemma LostByFirst(f: nat, k: nat, P: nat, a: nat)
    requires P <= f * f + k * f && a < f
    ensures 0 <= P * a <= (f * f + k * f) * f
  {
    ScaleAtMost(P, a, f);
    ScaleAtMost(f, P, f * f + k * f);
  }

  lemma LostBySecond(f: nat, X: nat, b: nat)
    requires X <= f && b < f
    ensures 0 <= f * X * b <= f * f * f
  {
    ScaleAtMost(f, X, f);
    ScaleAtMost(f * X, b, f);
    ScaleAtMost(f, f * X, f * f);
  }

  /** The gap after a step: the square of the old one, and less than one unit of rounding either way. */
  lemma GapBounds(f: nat, X: nat, P: nat, k: nat, a: nat, b: nat, g: int, h: int)
    requires 0 < X <= f && a < f && b < f && g == f * f - P && 0 - k * f <= g <= k * f
    requires f * f * h == g * g - P * a + f * X * b
    ensures 0 - (f + k) <= h <= k * k + f
  {
    SquareBound(g, k * f);
    LostByFirst(f, k, P, a);
    LostBySecond(f, X, b);
    UpperTerms(f, k);
    LowerTerms(f, k);
    assert g * g >= 0;
    Cancel(f * f, h, k * k + f);
    Cancel(f * f, 0 - (f + k), h);
  }

  lemma RangeOf(f: nat, X: nat, Y: nat, k: nat)
    requires f > 0 && f <= 2 * X && k <= f && X * Y <= f * f + k * f
    ensures X * Y <= 2 * f * f && Y <= 4 * f
  {
    hide Times;
    TimesLaws(X, Y, f, k);
    if 4 * f + 1 <= Y {
      TimesGrows(X, 4 * f + 1, Y);
    }
  }

  /** a b, kept folded in the bounds below. */
  function Times(a: int, b: int): int {
    a * b
  }

  lemma TimesGrows(c: nat, a: nat, b: nat)
    requires a <= b
    ensures Times(c, a) <= Times(c, b)
  {
    ScaleAtMost(c, a, b);
  }

  lemma TimesLaws(X: nat, Y: nat, f: nat, k: nat)
    requires k <= f && f <= 2 * X
    ensures X * Y == Times(X, Y) && f * f == Times(f, f) && k * f <= Times(f, f) && 2 * f * f == 2 * Times(f, f)
    ensures Times(X, 4 * f + 1) >= 2 * Times(f, f) + X
  {
    ScaleAtMost(f, k, f);
    ScaleAtMost(f, f, 2 * X);
    FourTimes(X, f);
  }

  lemma FourTimes(X: nat, f: nat)
    ensures X * (4 * f + 1) == 2 * (f * (2 * X)) + X
  {
  }

  /** Half a unit of X keeps Y below four units, and the factor 2 - x'y stays positive. */
  lemma NearRange(X: nat, Y: nat, k: nat)
    requires ONE <= 2 * X && X <= ONE && Near(X, Y, k) && k <= ONE
    ensures X * Y / ONE <= 2 * ONE && Y <= 4 * ONE
  {
    RangeOf(ONE, X, Y, k);
  }

  lemma StepGap(X: nat, Y: nat, k: nat)
    requires ONE <= 2 * X && X <= ONE && Near(X, Y, k) && k <= ONE
    ensures Next(X, Y) >= 0
    ensures -(ONE + k) <= Gap(X, Next(X, Y)) <= k * k + ONE
  {
    NearRange(X, Y, k);
    var A, Z := X * Y / ONE, Next(X, Y);
    var a, b := X * Y % ONE, Y * (2 * ONE - A) % ONE;
    ScaleAtMost(Y, 0, 2 * ONE - A);
    GapIdentity(ONE, X, Y, A, a, Z, b);
    GapBounds(ONE, X, X * Y, k, a, b, Gap(X, Y), Gap(X, Z));
  }

  // ----------------------------------------------------------------------
  // The run

  lemma FirstProduct(f: nat, X: nat)
    requires f <= 2 * X && X <= f
    ensures f * f - X * (3 * f - 2 * X) == (f - X) * (f - 2 * X)
    ensures 0 - f * f <= 8 * ((f - X) * (f - 2 * X)) <= 0
  {
    var d := 4 * X - 3 * f;
    var u, v := f - X, 2 * X - f;
    assert d == v - 2 * u && f == v + 2 * u;
    assert d * d >= 0;
    assert f * f - d * d == 8 * (u * v);
    ScaleAtMost(u, 0, v);
    assert u * (f - 2 * X) == 0 - u * v;
  }

  /** The first guess is within one eighth. */
  lemma FirstGap(X: nat)
    requires ONE <= 2 * X && X <= ONE
    ensures Near(X, First(X), ONE / 8)
  {
    FirstProduct(ONE, X);
  }

  function Iterate(X: nat, t: nat): int
    requires X <= ONE
  {
    if t == 0 then First(X) else if Iterate(X, t - 1) < 0 then 0 else Next(X, Iterate(X, t - 1))
  }

  /** The bound on the gap after t steps, in units of ONE. */
  function Bound(t: nat): nat {
    if t == 0 then ONE / 8
    else if t == 1 then 0x4_0000_0001
    else if t == 2 then 0x1000_0002
    else if t == 3 then 0x1_0002
    else 2
  }

  lemma BoundStep(t: nat, h: int)
    requires -(ONE + Bound(t)) <= h <= Bound(t) * Bound(t) + ONE
    ensures -(Bound(t + 1) * ONE) <= h <= Bound(t + 1) * ONE
    ensures t >= 3 ==> -(ONE + 0x2_0000) <= h <= ONE + 0x2_0000_0000
  {
  }

  /** From the fourth step on the gap is one unit, up to 2^33. */
  lemma {:induction false} IterateGap(X: nat, t: nat)
    requires ONE <= 2 * X && X <= ONE
    ensures Iterate(X, t) >= 0 && Near(X, Iterate(X, t), Bound(t))
    ensures t >= 4 ==> -(ONE + 0x2_0000) <= Gap(X, Iterate(X, t)) <= ONE + 0x2_0000_0000
  {
    if t == 0 {
      FirstGap(X);
    } else {
      IterateGap(X, t - 1);
      var Y := Iterate(X, t - 1);
      StepGap(X, Y, Bound(t - 1));
      BoundStep(t - 1, Gap(X, Next(X, Y)));
    }
  }

  // ----------------------------------------------------------------------
  // Range reduction and rescaling

  /** p is the smallest power with 2^p >= x. */
  ghost predicate IsMagnitude(x: nat, p: nat) {
    x <= Pow2(p) && (p == 0 || Pow2(p - 1) < x)
  }

  /** x / 2^p with 40 fractional bits, rounded down when x has more bits than that. */
  function Reduced(x: nat, p: nat): nat {
    if p <= 40 then x * Pow2(40 - p) else Div(x, Pow2(p - 40))
  }

  function Reciprocal(x: nat, p: nat, t: nat): int
    requires Reduced(x, p) <= ONE
  {
    Iterate(Reduced(x, p), t) / Pow2(p)
  }

  /** ONE = 2^(40-p) 2^p, or 2^p = 2^(p-40) ONE. */
  lemma Scales(p: nat)
    ensures p <= 40 ==> Pow2(40 - p) * Pow2(p) == ONE
    ensures p > 40 ==> Pow2(p - 40) * ONE == Pow2(p)
  {
    hide Pow2;
    Pow2At64();
    if p <= 40 {
      Pow2Adds(40 - p, p);
    } else {
      Pow2Adds(p - 40, 40);
    }
  }

  lemma Halves(p: nat)
    requires p > 0
    ensures Pow2(p) == 2 * Pow2(p - 1)
  {
  }

  /** The reduced input lies in [1/2, 1]. */
  lemma ReducedRange(x: nat, p: nat)
    requires x >= 1 && IsMagnitude(x, p)
    ensures ONE <= 2 * Reduced(x, p) && Reduced(x, p) <= ONE
  {
    hide Pow2;
    Scales(p);
    if p <= 40 {
      var s := Pow2(40 - p);
      ScaleAtMost(s, x, Pow2(p));
      if p > 0 {
        Halves(p);
        ScaleAtMost(s, Pow2(p - 1), x);
      } else {
        ScaleAtMost(s, 1, x);
        Pow2Zero();
      }
    } else {
      var m := Pow2(p - 40);
      Halves(p);
      DivideBound(x, m, ONE, Pow2(p));
    }
  }

  lemma Pow2Zero()
    ensures Pow2(0) == 1
  {
  }

  lemma DivideBound(x: nat, m: nat, f: nat, q: nat)
    requires m > 0 && m * f == q && x <= q && q < 2 * x && f % 2 == 0
    ensures f <= 2 * (x / m) && x / m <= f
  {
    var h := f / 2;
    assert m * f == 2 * (m * h);
    assert x == m * (x / m) + x % m;
    if f < x / m {
      ScaleAtMost(m, f + 1, x / m);
    }
    if x / m < h {
      ScaleAtMost(m, x / m + 1, h);
    }
  }

  lemma ProductParts(s: nat, q: nat, x: nat, r: nat, c: nat)
    ensures (x * s) * (q * r + c) == (s * q) * (r * x) + (x * s) * c
  {
    Distributes(x * s, q * r, 0 - c);
    assert (x * s) * (q * r) == (s * q) * (r * x);
  }

  lemma LostByRescale(s: nat, q: nat, x: nat, c: nat)
    requires c < q
    ensures 0 <= (x * s) * c <= x * (s * q) - x * s
  {
    ScaleAtMost(x * s, c, q - 1);
    Distributes(x * s, q, 1);
  }

  /** From the gap to the result: linear in f, R = r x and L = X c. */
  lemma GapToResult(f: nat, R: nat, x: nat, X: nat, L: nat, g: int)
    requires f > 0 && f * (f - R) == g + L && L <= x * f - X && f <= 2 * X
    requires 0 - 2 * f < g && 2 * g < 3 * f
    ensures R <= f + 1 && R + x >= f
  {
    if f + 2 <= R {
      ScaleAtMost(f, f - R, 0 - 2);
    }
    Distributes(f, x, 0 - 1);
    if R + x < f {
      ScaleAtMost(f, x + 1, f - R);
    }
  }

  /** The rescaled result when nothing was cut off by the reduction. */
  lemma RescaleExact(f: nat, s: nat, q: nat, x: nat, r: nat, c: nat, g: int)
    requires f > 0 && f == s * q && c < q && g == f * f - (x * s) * (q * r + c) && f <= 2 * (x * s)
    requires 0 - 2 * f < g && 2 * g < 3 * f
    ensures r * x <= f + 1 && (r + 1) * x >= f
  {
    ProductParts(s, q, x, r, c);
    LostByRescale(s, q, x, c);
    Distributes(f, f, r * x);
    GapToResult(f, r * x, x, x * s, (x * s) * c, g);
    Distributes(x, r, 0 - 1);
  }

  lemma CutProduct(f: nat, m: nat, X: nat, Y: nat, r: nat)
    requires f > 1 && Y >= m * f * r && X * Y < f * f + 2 * f
    ensures X * m * r <= f + 1
  {
    ScaleAtMost(X, m * f * r, Y);
    assert X * (m * f * r) == f * (X * m * r);
    Distributes(f, f, 0 - 2);
    if f + 2 <= X * m * r {
      ScaleAtMost(f, f + 2, X * m * r);
    }
  }

  /** And when the input has more than 40 bits: the result is 0, or 1 for 2^40 + 1 alone. */
  lemma RescaleCut(f: nat, m: nat, x: nat, X: nat, Y: nat, r: nat)
    requires (m == 2 || m >= 4) && X == x / m && Y >= m * f * r && X * Y < f * f + 2 * f
    requires f % 2 == 0 && f > 1 && f <= 2 * X && f < x
    ensures r * x <= f + 1 && (r + 1) * x >= f
  {
    Distributes(x, r, 0 - 1);
    if r >= 1 {
      CutProduct(f, m, X, Y, r);
      CutCases(f, m, x, X, r);
    }
  }

  lemma CutCases(f: nat, m: nat, x: nat, X: nat, r: nat)
    requires r >= 1 && m > 0 && (m == 2 || m >= 4) && X == x / m && X * m * r <= f + 1 && f % 2 == 0 && f > 1 && f <= 2 * X
    ensures r * x <= f + 1
  {
    if m >= 4 {
      ScaleAtMost(X, 4, m);
      ScaleAtMost(X * m, 1, r);
    } else {
      assert X * m * r == 2 * (X * r);
      if r >= 2 {
        ScaleAtMost(X, 2, r);
      }
    }
  }

  /**
   * From four iterations on, the reciprocal of every x in [1, 2^63] is
   * 2^40/x up to one unit: it never exceeds (2^40 + 1)/x, and adding one
   * unit reaches 2^40/x.
   */
  lemma ReciprocalBound(x: nat, p: nat, t: nat)
    requires 1 <= x && IsMagnitude(x, p) && t >= 4
    ensures Reduced(x, p) <= ONE && Reciprocal(x, p, t) >= 0
    ensures Reciprocal(x, p, t) * x <= 0x100_0000_0000 + 1
    ensures (Reciprocal(x, p, t) + 1) * x >= 0x100_0000_0000
  {
    hide Pow2, Iterate, Reduced, Gap, Near, IsMagnitude;
    ReducedRange(x, p);
    var X := Reduced(x, p);
    IterateGap(X, t);
    var Y: nat := Iterate(X, t);
    Rescale(x, p, X, Y);
    assert Reciprocal(x, p, t) == Y / Pow2(p);
  }

  lemma Divide(Y: nat, q: nat) returns (r: nat, c: nat)
    requires q > 0
    ensures r == Y / q && Y == q * r + c && c < q
  {
    r, c := Y / q, Y % q;
  }

  lemma Rescale(x: nat, p: nat, X: nat, Y: nat)
    requires 1 <= x && IsMagnitude(x, p) && X == Reduced(x, p) && ONE <= 2 * X
    requires -(ONE + 0x2_0000) <= Gap(X, Y) <= ONE + 0x2_0000_0000
    ensures Y / Pow2(p) >= 0
    ensures Y / Pow2(p) * x <= ONE + 1 && (Y / Pow2(p) + 1) * x >= ONE
  {
    hide Pow2, IsMagnitude;
    var q := Pow2(p);
    var r, c := Divide(Y, q);
    Scales(p);
    if p <= 40 {
      RescaleExact(ONE, Pow2(40 - p), q, x, r, c, Gap(X, Y));
    } else {
      var m := Pow2(p - 40);
      MagnitudeAboveOne(x, p);
      Associate(m, ONE, r);
      RescaleCut(ONE, m, x, X, Y, r);
    }
  }

  lemma Associate(m: nat, f: nat, r: nat)
    ensures m * f * r == (m * f) * r
  {
  }

  lemma MagnitudeAboveOne(x: nat, p: nat)
    requires IsMagnitude(x, p) && p > 40
    ensures x > ONE && (Pow2(p - 40) == 2 || Pow2(p - 40) >= 4)
  {
    hide Pow2;
    Pow2At64();
    Pow2Monotone(40, p - 1);
    Pow2Zero();
    Halves(p - 40);
    if p > 41 {
      Halves(p - 41);
    }
  }
}
