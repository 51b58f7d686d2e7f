/** The semivariance kernels of skgstat/models.py and the `variogram` wrapper
    that maps a kernel over a sequence of lags.

    Every kernel is `gamma(h) = b + c0 * f(h / a)` where `h` is the lag, `r`
    the effective range, `c0` the sill, `b` the nugget and `a` the family's
    range parameter derived from `r`. Arithmetic is over `real`; `exp` and the
    real power are not definable here and are taken as function parameters,
    with the facts a statement relies on (`exp(0) = 1`, `0^s = 0`) stated as
    its hypotheses.

    The source divides by the range parameter without checking it; the
    `requires` of each kernel excludes exactly the inputs on which that
    division would raise ZeroDivisionError. */
module Models {

  // ---------------------------------------------------------------------------
  // Natural powers and the real arithmetic the kernel proofs need
  // ---------------------------------------------------------------------------

  /** `x ** n` for a natural exponent. */
  function Pow(x: real, n: nat): (p: real)
    ensures x != 0.0 ==> p != 0.0
  {
    if n == 0 then 1.0 else x * Pow(x, n - 1)
  }

  lemma PowSmall(x: real)
    ensures Pow(x, 2) == x * x
    ensures Pow(x, 3) == x * x * x
    ensures Pow(x, 5) == x * x * x * x * x
    ensures Pow(x, 7) == x * x * x * x * x * x * x
  {
    assert Pow(x, 1) == x;
  }

  lemma {:induction false} PowProduct(x: real, y: real, n: nat)
    ensures Pow(x, n) * Pow(y, n) == Pow(x * y, n)
  {
    if n > 0 {
      PowProduct(x, y, n - 1);
      var px, py := Pow(x, n - 1), Pow(y, n - 1);
      assert (x * px) * (y * py) == (x * y) * (px * py);
    }
  }

  lemma DivOfProduct(x: real, y: real)
    requires y != 0.0
    ensures (x * y) / y == x
  {}

  /** `h ** n / a ** n == (h / a) ** n`: a kernel written with separate powers
      is a polynomial in `h / a`. */
  lemma PowQuotient(h: real, a: real, n: nat)
    requires a != 0.0
    ensures Pow(h, n) / Pow(a, n) == Pow(h / a, n)
  {
    var t := h / a;
    assert t * a == h;
    PowProduct(t, a, n);
    DivOfProduct(Pow(t, n), Pow(a, n));
  }

  lemma MulLe(c: real, x: real, y: real)
    requires c >= 0.0 && x <= y
    ensures c * x <= c * y
  {
    assert c * y - c * x == c * (y - x);
  }

  lemma UnitProduct(x: real, y: real)
    requires 0.0 <= x <= 1.0 && 0.0 <= y <= 1.0
    ensures 0.0 <= x * y <= 1.0
    ensures x * y <= x
  {
    MulLe(x, y, 1.0);
    MulLe(x, 0.0, y);
  }

  lemma SquareNonNegative(x: real)
    ensures x * x >= 0.0
  {
    if x < 0.0 { MulLe(-x, 0.0, -x); } else { MulLe(x, 0.0, x); }
  }

  lemma SelfQuotient(h: real, a: real)
    requires a != 0.0
    ensures h == a ==> h / a == 1.0
    ensures h == 0.0 ==> h / a == 0.0
  {}

  lemma QuotientInUnit(h: real, a: real)
    requires 0.0 <= h <= a && a != 0.0
    ensures 0.0 <= h / a <= 1.0
  {}

  lemma QuotientMonotone(h1: real, h2: real, a: real)
    requires 0.0 <= h1 <= h2 <= a && a > 0.0
    ensures 0.0 <= h1 / a <= h2 / a <= 1.0
  {}

  lemma QuotientOrder(h1: real, h2: real, a: real)
    requires 0.0 <= h1 <= h2 && a > 0.0
    ensures 0.0 <= h1 / a <= h2 / a
  {}

  lemma RangeRatio(r: real, k: real)
    requires r != 0.0 && k != 0.0
    ensures r / (r / k) == k
  {}

  // ---------------------------------------------------------------------------
  // Range parameters: how each family derives `a` from the effective range
  // ---------------------------------------------------------------------------

  function SphericalRange(r: real): real { r / 1.0 }
  function ExponentialRange(r: real): real { r / 3.0 }
  function GaussianRange(r: real): real { r / 2.0 }
  function CubicRange(r: real): real { r / 1.0 }

  /** `a = r / 3^(1/s)` with the real power opaque. */
  function StableRange(pow: (real, real) -> real, r: real, s: real): real
    requires s != 0.0 && pow(3.0, 1.0 / s) != 0.0
  {
    r / pow(3.0, 1.0 / s)
  }

  // ---------------------------------------------------------------------------
  // Spherical
  // ---------------------------------------------------------------------------

  /** The spherical polynomial `1.5 t - 0.5 t^3` on `t = h / a`. */
  function SphericalShape(t: real): real {
    1.5 * t - 0.5 * Pow(t, 3)
  }

  lemma SphericalShapeEnds()
    ensures SphericalShape(0.0) == 0.0 && SphericalShape(1.0) == 1.0
  {
    PowSmall(0.0); PowSmall(1.0);
  }

  /** Spherical model: the polynomial up to and including the effective
      range, the flat sill `b + c0` beyond it. The two pieces meet at `h = r`
      because 1.5 - 0.5 = 1, and the nugget is the value at lag zero. */
  function Spherical(h: real, r: real, c0: real, b: real): (g: real)
    requires h > r || r != 0.0
    ensures h > r ==> g == b + c0
    ensures h == r ==> g == b + c0
    ensures h == 0.0 && r > 0.0 ==> g == b
  {
    var a := SphericalRange(r);
    if h <= r then
      SphericalShapeEnds(); SelfQuotient(h, a);
      b + c0 * SphericalShape(h / a)
    else b + c0
  }

  /** 1 - (1.5 t - 0.5 t^3) == 0.5 (t - 1)^2 (t + 2). */
  lemma SphericalGap(t: real)
    ensures 1.0 - (1.5 * t - 0.5 * (t * t * t)) == 0.5 * ((t - 1.0) * (t - 1.0)) * (t + 2.0)
  {}

  lemma SphericalShapeInUnit(t: real)
    requires 0.0 <= t <= 1.0
    ensures 0.0 <= SphericalShape(t) <= 1.0
  {
    PowSmall(t);
    SphericalPolyInUnit(t);
  }

  lemma SphericalPolyInUnit(t: real)
    requires 0.0 <= t <= 1.0
    ensures 0.0 <= 1.5 * t - 0.5 * (t * t * t) <= 1.0
  {
    UnitProduct(t, t);
    UnitProduct(t * t, t);
    SphericalGap(t);
    SquareNonNegative(t - 1.0);
    MulLe(0.5 * ((t - 1.0) * (t - 1.0)), 0.0, t + 2.0);
  }

  /** The docstring promises that the spherical model never exceeds
      `b + c0`; for a non-negative lag and sill the lemma also proves it
      never drops below the nugget `b`. */
  lemma SphericalBounded(h: real, r: real, c0: real, b: real)
    requires 0.0 <= h && 0.0 <= c0
    requires h > r || r != 0.0
    ensures b <= Spherical(h, r, c0, b) <= b + c0
  {
    if h <= r {
      var a := SphericalRange(r);
      var t := h / a;
      assert Spherical(h, r, c0, b) == b + c0 * SphericalShape(t);
      QuotientInUnit(h, a);
      SphericalShapeInUnit(t);
      MulLe(c0, SphericalShape(t), 1.0);
      MulLe(c0, 0.0, SphericalShape(t));
      assert c0 * SphericalShape(t) <= c0;
      assert b + c0 * SphericalShape(t) <= b + c0;
    }
  }

  /** u^3 - t^3 == (u - t) (t^2 + t u + u^2). */
  lemma CubeDifference(t: real, u: real)
    ensures u * u * u - t * t * t == (u - t) * (t * t + t * u + u * u)
  {}

  lemma SphericalShapeMonotone(t: real, u: real)
    requires 0.0 <= t <= u <= 1.0
    ensures SphericalShape(t) <= SphericalShape(u)
  {
    PowSmall(t); PowSmall(u);
    SphericalPolyMonotone(t, u);
  }

  lemma SphericalPolyMonotone(t: real, u: real)
    requires 0.0 <= t <= u <= 1.0
    ensures 1.5 * t - 0.5 * (t * t * t) <= 1.5 * u - 0.5 * (u * u * u)
  {
    UnitProduct(t, t); UnitProduct(t, u); UnitProduct(u, u);
    var s := t * t + t * u + u * u;
    assert s <= 3.0;
    CubeDifference(t, u);
    MulLe(u - t, s, 3.0);
  }

  /** With a non-negative sill the spherical model never decreases with lag. */
  lemma SphericalMonotone(h1: real, h2: real, r: real, c0: real, b: real)
    requires 0.0 <= h1 <= h2 && 0.0 <= c0 && r > 0.0
    ensures Spherical(h1, r, c0, b) <= Spherical(h2, r, c0, b)
  {
    if h2 > r {
      SphericalBounded(h1, r, c0, b);
    } else {
      var a := SphericalRange(r);
      assert Spherical(h1, r, c0, b) == b + c0 * SphericalShape(h1 / a);
      assert Spherical(h2, r, c0, b) == b + c0 * SphericalShape(h2 / a);
      QuotientMonotone(h1, h2, a);
      SphericalShapeMonotone(h1 / a, h2 / a);
      MulLe(c0, SphericalShape(h1 / a), SphericalShape(h2 / a));
    }
  }

  // ---------------------------------------------------------------------------
  // Exponential and Gaussian
  // ---------------------------------------------------------------------------

  /** Exponential model with range parameter `a = r / 3`: at the effective
      range the exponent is -3, where 95% of the sill is reached. */
  function Exponential(exp: real -> real, h: real, r: real, c0: real, b: real): (g: real)
    requires r != 0.0
    ensures h == 0.0 && exp(0.0) == 1.0 ==> g == b
    ensures h == r ==> g == b + c0 * (1.0 - exp(-3.0))
  {
    var a := ExponentialRange(r);
    RangeRatio(r, 3.0);
    b + c0 * (1.0 - exp(-(h / a)))
  }

  lemma GaussianExponent(h: real, r: real)
    requires r != 0.0
    ensures h == 0.0 ==> Pow(h, 2) / Pow(GaussianRange(r), 2) == 0.0
    ensures h == r ==> Pow(h, 2) / Pow(GaussianRange(r), 2) == 4.0
  {
    var a := GaussianRange(r);
    PowQuotient(h, a, 2);
    PowSmall(h / a);
    if h == r { RangeRatio(r, 2.0); }
  }

  /** Gaussian model with range parameter `a = r / 2`: at the effective range
      the exponent is -(r / a)^2 = -4. */
  function Gaussian(exp: real -> real, h: real, r: real, c0: real, b: real): (g: real)
    requires r != 0.0
    ensures h == 0.0 && exp(0.0) == 1.0 ==> g == b
    ensures h == r ==> g == b + c0 * (1.0 - exp(-4.0))
  {
    var a := GaussianRange(r);
    GaussianExponent(h, r);
    b + c0 * (1.0 - exp(-(Pow(h, 2) / Pow(a, 2))))
  }

  /** The facts about `exp` the bounds below rest on: on non-positive
      arguments it lies in (0, 1]. */
  ghost predicate DecaysOnNegatives(exp: real -> real) {
    forall x: real :: x <= 0.0 ==> 0.0 < exp(x) <= 1.0
  }

  /** `f` never decreases (true of `exp`, and of `x ** s` on x >= 0 for s > 0). */
  ghost predicate Increasing(f: real -> real) {
    forall x: real, y: real :: x <= y ==> f(x) <= f(y)
  }

  /** The shared tail of the exponential-type kernels: for a decay factor in
      (0, 1] the value `b + c0 (1 - e)` lies between the nugget and `b + c0`. */
  lemma DecayBounded(e: real, c0: real, b: real)
    requires 0.0 < e <= 1.0 && 0.0 <= c0
    ensures b <= b + c0 * (1.0 - e) <= b + c0
  {
    MulLe(c0, 0.0, 1.0 - e);
    MulLe(c0, 1.0 - e, 1.0);
  }

  /** A smaller decay factor gives a larger semivariance. */
  lemma DecayMonotone(e1: real, e2: real, c0: real, b: real)
    requires e2 <= e1 && 0.0 <= c0
    ensures b + c0 * (1.0 - e1) <= b + c0 * (1.0 - e2)
  {
    MulLe(c0, 1.0 - e1, 1.0 - e2);
  }

  /** For a non-negative lag and sill the exponential model stays between the
      nugget and `b + c0`. */
  lemma ExponentialBounded(exp: real -> real, h: real, r: real, c0: real, b: real)
    requires DecaysOnNegatives(exp)
    requires 0.0 <= h && 0.0 < r && 0.0 <= c0
    ensures b <= Exponential(exp, h, r, c0, b) <= b + c0
  {
    var a := ExponentialRange(r);
    QuotientOrder(0.0, h, a);
    DecayBounded(exp(-(h / a)), c0, b);
  }

  /** With an increasing `exp` and a non-negative sill the exponential model
      never decreases with lag. */
  lemma ExponentialMonotone(exp: real -> real, h1: real, h2: real, r: real, c0: real, b: real)
    requires Increasing(exp)
    requires 0.0 <= h1 <= h2 && 0.0 < r && 0.0 <= c0
    ensures Exponential(exp, h1, r, c0, b) <= Exponential(exp, h2, r, c0, b)
  {
    var a := ExponentialRange(r);
    QuotientOrder(h1, h2, a);
    assert Exponential(exp, h1, r, c0, b) == b + c0 * (1.0 - exp(-(h1 / a)));
    assert Exponential(exp, h2, r, c0, b) == b + c0 * (1.0 - exp(-(h2 / a)));
    assert -(h2 / a) <= -(h1 / a);
    assert exp(-(h2 / a)) <= exp(-(h1 / a));
    DecayMonotone(exp(-(h1 / a)), exp(-(h2 / a)), c0, b);
  }

  /** The Gaussian exponent `h^2 / a^2` is the square of `h / a`. */
  lemma GaussianRatio(h: real, r: real)
    requires r != 0.0
    ensures Pow(h, 2) / Pow(GaussianRange(r), 2) == (h / GaussianRange(r)) * (h / GaussianRange(r))
    ensures Pow(h, 2) / Pow(GaussianRange(r), 2) >= 0.0
  {
    var a := GaussianRange(r);
    PowQuotient(h, a, 2);
    PowSmall(h / a);
    SquareNonNegative(h / a);
  }

  /** For a non-negative sill the Gaussian model stays between the nugget and
      `b + c0`, for every lag. */
  lemma GaussianBounded(exp: real -> real, h: real, r: real, c0: real, b: real)
    requires DecaysOnNegatives(exp)
    requires r != 0.0 && 0.0 <= c0
    ensures b <= Gaussian(exp, h, r, c0, b) <= b + c0
  {
    var a := GaussianRange(r);
    GaussianRatio(h, r);
    DecayBounded(exp(-(Pow(h, 2) / Pow(a, 2))), c0, b);
  }

  /** On non-negative lags the Gaussian exponent grows with the lag. */
  lemma GaussianRatioMonotone(h1: real, h2: real, r: real)
    requires 0.0 <= h1 <= h2 && 0.0 < r
    ensures Pow(h1, 2) / Pow(GaussianRange(r), 2) <= Pow(h2, 2) / Pow(GaussianRange(r), 2)
  {
    var a := GaussianRange(r);
    var t1, t2 := h1 / a, h2 / a;
    QuotientOrder(h1, h2, a);
    MulLe(t1, t1, t2);
    MulLe(t2, t1, t2);
    assert t1 * t1 <= t2 * t2;
    GaussianRatio(h1, r);
    GaussianRatio(h2, r);
    assert Pow(h1, 2) / Pow(a, 2) == t1 * t1;
    assert Pow(h2, 2) / Pow(a, 2) == t2 * t2;
  }

  /** With an increasing `exp` and a non-negative sill the Gaussian model
      never decreases with lag. */
  lemma GaussianMonotone(exp: real -> real, h1: real, h2: real, r: real, c0: real, b: real)
    requires Increasing(exp)
    requires 0.0 <= h1 <= h2 && 0.0 < r && 0.0 <= c0
    ensures Gaussian(exp, h1, r, c0, b) <= Gaussian(exp, h2, r, c0, b)
  {
    var a := GaussianRange(r);
    var x1, x2 := Pow(h1, 2) / Pow(a, 2), Pow(h2, 2) / Pow(a, 2);
    GaussianRatioMonotone(h1, h2, r);
    assert exp(-x2) <= exp(-x1);
    DecayMonotone(exp(-x1), exp(-x2), c0, b);
  }

  // ---------------------------------------------------------------------------
  // Cubic
  // ---------------------------------------------------------------------------

  /** The cubic polynomial `7 t^2 - 35/4 t^3 + 7/2 t^5 - 3/4 t^7`. */
  function CubicShape(t: real): real {
    7.0 * Pow(t, 2) - (35.0 / 4.0) * Pow(t, 3) + (7.0 / 2.0) * Pow(t, 5) - (3.0 / 4.0) * Pow(t, 7)
  }

  lemma CubicShapeEnds()
    ensures CubicShape(0.0) == 0.0 && CubicShape(1.0) == 1.0
  {
    PowSmall(0.0); PowSmall(1.0);
  }

  /** The source's term-by-term form `h ** k / a ** k`, which is the cubic
      polynomial at `h / a`. */
  function CubicTerms(h: real, a: real): (v: real)
    requires a != 0.0
    ensures v == CubicShape(h / a)
  {
    PowQuotient(h, a, 2); PowQuotient(h, a, 3); PowQuotient(h, a, 5); PowQuotient(h, a, 7);
    (7.0 * (Pow(h, 2) / Pow(a, 2)))
    - ((35.0 / 4.0) * (Pow(h, 3) / Pow(a, 3)))
    + ((7.0 / 2.0) * (Pow(h, 5) / Pow(a, 5)))
    - ((3.0 / 4.0) * (Pow(h, 7) / Pow(a, 7)))
  }

  /** Cubic model: the polynomial up to and including the effective range,
      the flat sill beyond it. The pieces meet at `h = r` because
      7 - 35/4 + 7/2 - 3/4 = 1. */
  function Cubic(h: real, r: real, c0: real, b: real): (g: real)
    requires h > r || r != 0.0
    ensures h > r ==> g == b + c0
    ensures h == r ==> g == b + c0
    ensures h == 0.0 && r > 0.0 ==> g == b
  {
    var a := CubicRange(r);
    if h <= r then
      CubicShapeEnds(); SelfQuotient(h, a);
      b + c0 * CubicTerms(h, a)
    else b + c0
  }

  /** The cubic polynomial written with plain products. */
  function CubicPoly(t: real): real {
    7.0 * (t * t) - (35.0 / 4.0) * (t * t * t)
    + (7.0 / 2.0) * (t * t * t * t * t) - (3.0 / 4.0) * (t * t * t * t * t * t * t)
  }

  /** 4 (1 - q(t)) == (1 - t)^4 (4 + 16 t + 12 t^2 + 3 t^3). */
  lemma CubicGap(t: real)
    ensures 4.0 * (1.0 - CubicPoly(t))
         == ((1.0 - t) * (1.0 - t)) * ((1.0 - t) * (1.0 - t))
            * (4.0 + 16.0 * t + 12.0 * (t * t) + 3.0 * (t * t * t))
  {}

  /** 4 q(t) == t^2 (4 + (1 - t) (24 - 11 t - 11 t^2 + 3 t^3 + 3 t^4)). */
  lemma CubicFloor(t: real)
    ensures 4.0 * CubicPoly(t)
         == (t * t) * (4.0 + (1.0 - t) * (24.0 - 11.0 * t - 11.0 * (t * t)
                                          + 3.0 * (t * t * t) + 3.0 * (t * t * t * t)))
  {}

  lemma CubicShapeInUnit(t: real)
    requires 0.0 <= t <= 1.0
    ensures 0.0 <= CubicShape(t) <= 1.0
  {
    PowSmall(t);
    assert CubicShape(t) == CubicPoly(t);
    CubicPolyInUnit(t);
  }

  lemma CubicPolyInUnit(t: real)
    requires 0.0 <= t <= 1.0
    ensures 0.0 <= CubicPoly(t) <= 1.0
  {
    CubicPolyAtMostOne(t);
    CubicPolyNonNegative(t);
  }

  /** From the first factorisation: `(1 - t)^4` and the cofactor are both
      non-negative on [0, 1]. */
  lemma CubicPolyAtMostOne(t: real)
    requires 0.0 <= t <= 1.0
    ensures CubicPoly(t) <= 1.0
  {
    var u := 1.0 - t;
    UnitProduct(t, t);
    UnitProduct(t * t, t);
    SquareNonNegative(u);
    SquareNonNegative(u * u);
    CubicGap(t);
    MulLe((u * u) * (u * u), 0.0, 4.0 + 16.0 * t + 12.0 * (t * t) + 3.0 * (t * t * t));
  }

  /** From the second factorisation: the inner cofactor is at least 2 on
      [0, 1], so the whole product is non-negative. */
  lemma CubicPolyNonNegative(t: real)
    requires 0.0 <= t <= 1.0
    ensures 0.0 <= CubicPoly(t)
  {
    UnitProduct(t, t);
    UnitProduct(t * t, t);
    UnitProduct(t * t * t, t);
    var u := 1.0 - t;
    var p := 24.0 - 11.0 * t - 11.0 * (t * t) + 3.0 * (t * t * t) + 3.0 * (t * t * t * t);
    assert p >= 2.0;
    MulLe(u, 0.0, p);
    CubicFloor(t);
    MulLe(t * t, 0.0, 4.0 + u * p);
  }

  /** The docstring promises that the cubic model never exceeds `b + c0`;
      for a non-negative lag and sill the lemma also proves it never drops
      below the nugget `b`. */
  lemma CubicBounded(h: real, r: real, c0: real, b: real)
    requires 0.0 <= h && 0.0 <= c0
    requires h > r || r != 0.0
    ensures b <= Cubic(h, r, c0, b) <= b + c0
  {
    if h <= r {
      var a := CubicRange(r);
      var t := h / a;
      assert Cubic(h, r, c0, b) == b + c0 * CubicShape(t);
      QuotientInUnit(h, a);
      CubicShapeInUnit(t);
      MulLe(c0, CubicShape(t), 1.0);
      MulLe(c0, 0.0, CubicShape(t));
      assert c0 * CubicShape(t) <= c0;
    }
  }

  // ---------------------------------------------------------------------------
  // Stable
  // ---------------------------------------------------------------------------

  /** Stable model with range parameter `a = r / 3^(1/s)`:
      `b + c0 * (1 - exp(-(h / a)^s))`. When the power behaves like the real
      power (`(3^(1/s))^s = 3`), the exponent at the effective range is -3. */
  function Stable(exp: real -> real, pow: (real, real) -> real,
                  h: real, r: real, c0: real, s: real, b: real): (g: real)
    requires s != 0.0 && pow(3.0, 1.0 / s) != 0.0 && r != 0.0
    ensures h == 0.0 && exp(0.0) == 1.0 && pow(0.0, s) == 0.0 ==> g == b
    ensures h == r && pow(pow(3.0, 1.0 / s), s) == 3.0 ==> g == b + c0 * (1.0 - exp(-3.0))
  {
    var a := StableRange(pow, r, s);
    RangeRatio(r, pow(3.0, 1.0 / s));
    b + c0 * (1.0 - exp(-pow(h / a, s)))
  }

  /** For a non-negative lag, range and sill the stable model stays between
      the nugget and `b + c0` when `exp` decays on non-positive numbers, the
      power maps non-negative bases to non-negative values, and `3 ** (1/s)`
      is positive. */
  lemma StableBounded(exp: real -> real, pow: (real, real) -> real,
                      h: real, r: real, c0: real, s: real, b: real)
    requires DecaysOnNegatives(exp)
    requires forall x: real :: 0.0 <= x ==> 0.0 <= pow(x, s)
    requires s != 0.0 && 0.0 < pow(3.0, 1.0 / s) && 0.0 < r && 0.0 <= c0
    requires 0.0 <= h
    ensures b <= Stable(exp, pow, h, r, c0, s, b) <= b + c0
  {
    var a := StableRange(pow, r, s);
    QuotientOrder(0.0, h, a);
    assert 0.0 <= pow(h / a, s);
    DecayBounded(exp(-pow(h / a, s)), c0, b);
  }

  /** With an increasing `exp`, a power increasing in its base on
      non-negative bases, a positive range parameter and a non-negative sill,
      the stable model never decreases with lag. */
  lemma StableMonotone(exp: real -> real, pow: (real, real) -> real,
                       h1: real, h2: real, r: real, c0: real, s: real, b: real)
    requires Increasing(exp)
    requires forall x: real, y: real :: 0.0 <= x <= y ==> pow(x, s) <= pow(y, s)
    requires s != 0.0 && 0.0 < pow(3.0, 1.0 / s) && 0.0 < r && 0.0 <= c0
    requires 0.0 <= h1 <= h2
    ensures Stable(exp, pow, h1, r, c0, s, b) <= Stable(exp, pow, h2, r, c0, s, b)
  {
    var a := StableRange(pow, r, s);
    QuotientOrder(h1, h2, a);
    assert Stable(exp, pow, h1, r, c0, s, b) == b + c0 * (1.0 - exp(-pow(h1 / a, s)));
    assert Stable(exp, pow, h2, r, c0, s, b) == b + c0 * (1.0 - exp(-pow(h2 / a, s)));
    assert pow(h1 / a, s) <= pow(h2 / a, s);
    assert exp(-pow(h2 / a, s)) <= exp(-pow(h1 / a, s));
    DecayMonotone(exp(-pow(h1 / a, s)), exp(-pow(h2 / a, s)), c0, b);
  }

  // ---------------------------------------------------------------------------
  // The `variogram` wrapper
  // ---------------------------------------------------------------------------

  /** The first argument of a wrapped kernel: one lag, or anything iterable. */
  datatype Lag = Scalar(h: real) | Lags(hs: seq<real>)

  /** What a wrapped kernel returns: one value, or an array of values. */
  datatype Semivariance = Value(g: real) | Values(gs: seq<real>)

  /** `map(lambda h: kernel(h, ...), lags)` collected in order. */
  function MapLags(kernel: real --> real, hs: seq<real>): (gs: seq<real>)
    requires forall i :: 0 <= i < |hs| ==> kernel.requires(hs[i])
    ensures |gs| == |hs|
    ensures forall i :: 0 <= i < |hs| ==> gs[i] == kernel(hs[i])
  {
    if hs == [] then [] else [kernel(hs[0])] + MapLags(kernel, hs[1..])
  }

  /** The `variogram` decorator. `kernel` is the scalar kernel with every
      argument after the lag already bound, so the same range, sill, shape
      and nugget reach every element. */
  function Variogram(kernel: real --> real, lag: Lag): (out: Semivariance)
    requires match lag
             case Scalar(h) => kernel.requires(h)
             case Lags(hs) => forall i :: 0 <= i < |hs| ==> kernel.requires(hs[i])
    ensures lag.Scalar? ==> out == Value(kernel(lag.h))
    ensures lag.Lags? ==> out.Values? && |out.gs| == |lag.hs|
    ensures lag.Lags? ==> forall i :: 0 <= i < |lag.hs| ==> out.gs[i] == kernel(lag.hs[i])
  {
    match lag
    case Scalar(h) => Value(kernel(h))
    case Lags(hs) => Values(MapLags(kernel, hs))
  }

  /** Evaluating a list of lags is evaluating each part on its own, in order:
      no element is dropped, added or moved. */
  lemma VariogramConcat(kernel: real --> real, xs: seq<real>, ys: seq<real>)
    requires forall i :: 0 <= i < |xs| ==> kernel.requires(xs[i])
    requires forall i :: 0 <= i < |ys| ==> kernel.requires(ys[i])
    ensures Variogram(kernel, Lags(xs + ys)).gs
         == Variogram(kernel, Lags(xs)).gs + Variogram(kernel, Lags(ys)).gs
  {
    var zs := xs + ys;
    forall i | 0 <= i < |zs| ensures kernel.requires(zs[i]) {
      if i < |xs| { assert zs[i] == xs[i]; } else { assert zs[i] == ys[i - |xs|]; }
    }
  }

  /** The vectorised spherical model agrees element by element with the
      scalar one; the same holds for every kernel, as `Variogram` is generic. */
  lemma SphericalVectorised(hs: seq<real>, r: real, c0: real, b: real)
    requires r != 0.0
    ensures var out := Variogram(h requires h > r || r != 0.0 => Spherical(h, r, c0, b), Lags(hs));
            |out.gs| == |hs| && forall i :: 0 <= i < |hs| ==> out.gs[i] == Spherical(hs[i], r, c0, b)
  {}
}
