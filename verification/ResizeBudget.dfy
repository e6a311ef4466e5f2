/** When the resized screen is within the pixel budget: with the default limits always, and for any
    limits exactly when a condition on a few multiples of the factor holds. */
module ResizeBudget {
  import opened Reals
  import opened Resize

  ghost predicate WithinBudget(r: Size, limits: Limits) {
    && IsMultiple(r.width, limits.factor) && r.width > 0.0
    && IsMultiple(r.height, limits.factor) && r.height > 0.0
    && limits.minPixels <= Pixels(r) <= limits.maxPixels
  }

  /** The greater limit leaves room for a factor, and for the smaller limit, at the longest shape. */
  ghost predicate Roomy(limits: Limits) {
    && limits.maxRatio >= 1.0
    && limits.maxPixels >= 4.0 * Times(limits.maxRatio, Times(limits.factor, limits.factor))
    && limits.maxPixels >= 4.0 * Times(limits.maxRatio, limits.minPixels)
  }

  lemma DefaultsRoomy()
    ensures Sensible(Defaults()) && Roomy(Defaults())
  {
  }

  lemma Square(a: real, b: real)
    requires 0.0 <= a <= b
    ensures Times(a, a) <= Times(a, b) <= Times(b, b)
  {
  }

  lemma Scaled(a: real, x: real, y: real)
    requires a > 0.0 && x < y
    ensures Times(a, x) < Times(a, y)
  {
    assert a * (y - x) > 0.0;
  }

  lemma SquareBack(a: real, b: real)
    requires a >= 0.0 && b >= 0.0 && Times(a, a) <= Times(b, b)
    ensures a <= b
  {
    if a > b {
      Scaled(a, b, a);
      Square(b, a);
    }
  }

  /** Scaling a screen that is not too long does not make it longer. */
  lemma ScaledShape(s: Size, t: Size, pixels: real, ratio: real)
    requires IsScreen(s) && !TooLong(s, ratio) && ScaledTo(s, t, pixels)
    ensures t.width <= Times(ratio, t.height) && t.height <= Times(ratio, t.width)
  {
    ScaledSide(s.width, s.height, t.width, t.height, ratio);
    ScaledSide(s.height, s.width, t.height, t.width, ratio);
  }

  lemma ScaledSide(a: real, b: real, x: real, y: real, ratio: real)
    requires a > 0.0 && b > 0.0 && x > 0.0 && y > 0.0 && Times(x, b) == Times(y, a)
    requires a <= Times(ratio, b)
    ensures x <= Times(ratio, y)
  {
    var d := Times(ratio, y) - x;
    assert d * b == (ratio * b - a) * y;
    assert (ratio * b - a) * y >= 0.0;
    CancelLess(b, 0.0, d);
  }

  lemma SideSquares(x: real, y: real, pixels: real, ratio: real)
    requires x > 0.0 && y > 0.0 && Times(x, y) == pixels && x <= Times(ratio, y) && y <= Times(ratio, x)
    ensures Times(x, x) <= Times(ratio, pixels) && pixels <= Times(ratio, Times(x, x))
  {
    assert x * (ratio * y - x) >= 0.0;
    assert x * (ratio * x - y) >= 0.0;
  }

  /** In the shrinking branch each side is at least two factors, so rounding down keeps more than a
      half of it. */
  lemma ShrunkSide(x: real, y: real, r: real, limits: Limits)
    requires Sensible(limits) && Roomy(limits) && x > 0.0 && y > 0.0 && Times(x, y) == limits.maxPixels
    requires x <= Times(limits.maxRatio, y) && y <= Times(limits.maxRatio, x) && x < r + limits.factor
    ensures 0.0 < x / 2.0 <= r
  {
    var f := limits.factor;
    SideSquares(x, y, limits.maxPixels, limits.maxRatio);
    assert Times(limits.maxRatio, 4.0 * Times(f, f)) <= Times(limits.maxRatio, Times(x, x));
    CancelLess(limits.maxRatio, 4.0 * Times(f, f), Times(x, x));
    assert Times(2.0 * f, 2.0 * f) == 4.0 * Times(f, f);
    SquareBack(2.0 * f, x);
  }

  lemma CancelLess(a: real, x: real, y: real)
    requires a > 0.0 && Times(a, x) <= Times(a, y)
    ensures x <= y
  {
    if x > y {
      Scaled(a, y, x);
    }
  }

  lemma ProductBound(a: real, b: real, x: real, y: real)
    requires 0.0 <= a <= x && 0.0 <= b <= y
    ensures Times(a, b) <= Times(x, y)
  {
    assert a * b <= x * b;
    assert x * b <= x * y;
  }

  lemma Halves(a: real, b: real)
    ensures Times(a / 2.0, b / 2.0) == Times(a, b) / 4.0
  {
  }

  lemma LimitsApart(limits: Limits)
    requires Sensible(limits) && Roomy(limits)
    ensures limits.minPixels <= limits.maxPixels / 4.0
  {
    ProductBound(1.0, limits.minPixels, limits.maxRatio, limits.minPixels);
  }

  lemma ShrunkWithin(s: Size, t: Size, r: Size, limits: Limits)
    requires IsScreen(s) && Sensible(limits) && Roomy(limits) && !TooLong(s, limits.maxRatio)
    requires ScaledTo(s, t, limits.maxPixels) && RoundedDown(t, r, limits.factor)
    ensures WithinBudget(r, limits)
  {
    ScaledShape(s, t, limits.maxPixels, limits.maxRatio);
    assert Times(t.height, t.width) == Times(t.width, t.height);
    ShrunkSide(t.width, t.height, r.width, limits);
    ShrunkSide(t.height, t.width, r.height, limits);
    ProductBound(r.width, r.height, t.width, t.height);
    ProductBound(t.width / 2.0, t.height / 2.0, r.width, r.height);
    Halves(t.width, t.height);
    LimitsApart(limits);
  }

  /** In the growing branch the greater of a side and a factor has a square of at most a quarter of the
      upper limit, and rounding up at most doubles it. */
  lemma GrownSide(x: real, y: real, r: real, limits: Limits) returns (m: real)
    requires Sensible(limits) && Roomy(limits) && x > 0.0 && y > 0.0 && Times(x, y) == limits.minPixels
    requires x <= Times(limits.maxRatio, y) && y <= Times(limits.maxRatio, x) && r - limits.factor < x
    ensures r <= m && 0.0 < m && Times(m, m) <= limits.maxPixels
  {
    var f := limits.factor;
    m := 2.0 * Max(x, f);
    SideSquares(x, y, limits.minPixels, limits.maxRatio);
    ProductBound(1.0, Times(f, f), limits.maxRatio, Times(f, f));
    assert Times(m, m) == 4.0 * Times(Max(x, f), Max(x, f));
  }

  lemma MeanBound(a: real, b: real, m: real)
    requires a > 0.0 && b > 0.0 && Times(a, a) <= m && Times(b, b) <= m
    ensures Times(a, b) <= m
  {
    if a <= b {
      Square(a, b);
    } else {
      Square(b, a);
    }
  }

  lemma GrownWithin(s: Size, t: Size, r: Size, limits: Limits)
    requires IsScreen(s) && Sensible(limits) && Roomy(limits) && !TooLong(s, limits.maxRatio)
    requires ScaledTo(s, t, limits.minPixels) && RoundedUp(t, r, limits.factor)
    ensures WithinBudget(r, limits)
  {
    ScaledShape(s, t, limits.minPixels, limits.maxRatio);
    assert Times(t.height, t.width) == Times(t.width, t.height);
    var a := GrownSide(t.width, t.height, r.width, limits);
    var b := GrownSide(t.height, t.width, r.height, limits);
    MeanBound(a, b, limits.maxPixels);
    ProductBound(r.width, r.height, a, b);
    ProductBound(t.width, t.height, r.width, r.height);
  }

  /** Whatever branch was taken, the result is two positive multiples of the factor within the budget. */
  lemma ResizeWithinBudget(s: Size, r: Size, limits: Limits)
    requires IsScreen(s) && Sensible(limits) && Roomy(limits) && !TooLong(s, limits.maxRatio) && IsResize(s, r, limits)
    ensures WithinBudget(r, limits)
  {
    var rounded: Size :| Rounded(s, rounded, limits.factor) && ResizedFrom(s, rounded, r, limits);
    if Pixels(rounded) > limits.maxPixels {
      var t: Size :| ScaledTo(s, t, limits.maxPixels) && RoundedDown(t, r, limits.factor);
      ShrunkWithin(s, t, r, limits);
    } else if Pixels(rounded) < limits.minPixels {
      var t: Size :| ScaledTo(s, t, limits.minPixels) && RoundedUp(t, r, limits.factor);
      GrownWithin(s, t, r, limits);
    }
  }

  /** With the default limits: two positive multiples of 28 with 3136 to 1003520 pixels. */
  lemma DefaultBudget(s: Size, r: Size)
    requires IsScreen(s) && !TooLong(s, MAX_RATIO) && IsResize(s, r, Defaults())
    ensures IsMultiple(r.width, 28.0) && IsMultiple(r.height, 28.0) && r.width > 0.0 && r.height > 0.0
    ensures 3136.0 <= Pixels(r) <= 1003520.0
  {
    DefaultsRoomy();
    ResizeWithinBudget(s, r, Defaults());
  }

  // ---- what holds for all limits ----

  /** Shrinking never leaves more pixels than the upper limit, and growing never fewer than the lower
      one: a limit can only be broken by the branch that was to keep the other. */
  lemma OneLimitKept(s: Size, rounded: Size, r: Size, limits: Limits)
    requires Sensible(limits) && Rounded(s, rounded, limits.factor) && ResizedFrom(s, rounded, r, limits)
    ensures Pixels(rounded) > limits.maxPixels ==> Pixels(r) <= limits.maxPixels
    ensures Pixels(rounded) <= limits.maxPixels ==> r.width > 0.0 && r.height > 0.0 && Pixels(r) >= limits.minPixels
    ensures limits.minPixels <= Pixels(rounded) <= limits.maxPixels ==> WithinBudget(r, limits)
  {
    if Pixels(rounded) > limits.maxPixels {
      var t: Size :| ScaledTo(s, t, limits.maxPixels) && RoundedDown(t, r, limits.factor);
      var j := NotBelowZero(t.width, r.width, limits.factor);
      var k := NotBelowZero(t.height, r.height, limits.factor);
      ProductBound(r.width, r.height, t.width, t.height);
    } else if Pixels(rounded) < limits.minPixels {
      var t: Size :| ScaledTo(s, t, limits.minPixels) && RoundedUp(t, r, limits.factor);
      ProductBound(t.width, t.height, r.width, r.height);
    }
  }

  lemma MultipleSign(j: int, factor: real)
    requires factor > 0.0
    ensures j > 0 ==> Multiple(j, factor) >= factor
    ensures j == 0 ==> Multiple(j, factor) == 0.0
    ensures j < 0 ==> Multiple(j, factor) <= -factor
  {
    if j > 0 {
      ProductBound(1.0, factor, j as real, factor);
    } else if j < 0 {
      ProductBound(1.0, factor, (-j) as real, factor);
      assert Times((-j) as real, factor) == -Multiple(j, factor);
    }
  }

  /** A positive number rounded down is a non-negative number of factors. */
  lemma NotBelowZero(x: real, r: real, factor: real) returns (k: nat)
    requires factor > 0.0 && x > 0.0 && IsMultiple(r, factor) && r <= x < r + factor
    ensures r == Multiple(k, factor) && r >= 0.0
  {
    var j: int :| r == Multiple(j, factor);
    MultipleSign(j, factor);
    k := j;
  }

  /** A positive number rounded up is a positive number of factors. */
  lemma AboveZero(x: real, r: real, factor: real) returns (k: nat)
    requires factor > 0.0 && x > 0.0 && IsMultiple(r, factor) && r - factor < x <= r
    ensures r == Multiple(k, factor) && k > 0 && r >= factor
  {
    var j: int :| r == Multiple(j, factor);
    MultipleSign(j, factor);
    k := j;
  }

  // ---- the exact condition ----

  /** Some shape no longer than `ratio` with exactly `pixels` is rounded down to `x` by `y`. */
  ghost predicate ReachedDown(f: real, ratio: real, pixels: real, x: real, y: real) {
    && Times(x, y) <= pixels < Times(x + f, y + f)
    && Times(x, x) <= Times(ratio, pixels) && Times(y, y) <= Times(ratio, pixels)
    && pixels < Times(ratio, Times(x + f, x + f)) && pixels < Times(ratio, Times(y + f, y + f))
  }

  /** Some shape no longer than `ratio` with exactly `pixels` is rounded up to `x` by `y`. */
  ghost predicate ReachedUp(f: real, ratio: real, pixels: real, x: real, y: real) {
    && Times(x - f, y - f) < pixels <= Times(x, y)
    && Times(x - f, x - f) < Times(ratio, pixels) && Times(y - f, y - f) < Times(ratio, pixels)
    && pixels <= Times(ratio, Times(x, x)) && pixels <= Times(ratio, Times(y, y))
  }

  /** The multiples reached by rounding down are positive and keep the lower limit. */
  ghost predicate ShrinkSafe(limits: Limits) {
    var f := limits.factor;
    forall j: nat, k: nat ::
      ReachedDown(f, limits.maxRatio, limits.maxPixels, Multiple(j, f), Multiple(k, f)) ==>
        j > 0 && k > 0 && Times(Multiple(j, f), Multiple(k, f)) >= limits.minPixels
  }

  /** No screen is grown, or the multiples reached by rounding up keep the upper limit. */
  ghost predicate GrowSafe(limits: Limits) {
    var f := limits.factor;
    Times(f, f) < limits.minPixels && Times(f, f) <= limits.maxPixels ==>
      forall j: nat, k: nat ::
        j > 0 && k > 0 && ReachedUp(f, limits.maxRatio, limits.minPixels, Multiple(j, f), Multiple(k, f)) ==>
          Times(Multiple(j, f), Multiple(k, f)) <= limits.maxPixels
  }

  /** A shape no longer than `ratio` with exactly `pixels`. */
  ghost predicate IsShape(t: Size, ratio: real, pixels: real) {
    && t.width > 0.0 && t.height > 0.0 && Pixels(t) == pixels
    && t.width <= Times(ratio, t.height) && t.height <= Times(ratio, t.width)
  }

  lemma StrictProduct(a: real, b: real, x: real, y: real)
    requires 0.0 <= a < x && 0.0 <= b < y
    ensures Times(a, b) < Times(x, y)
  {
    ProductBound(a, b, a, y);
    Longer(a, x, y);
  }

  lemma ShapeSquares(t: Size, ratio: real, pixels: real)
    requires IsShape(t, ratio, pixels)
    ensures Times(t.width, t.width) <= Times(ratio, pixels) && pixels <= Times(ratio, Times(t.width, t.width))
    ensures Times(t.height, t.height) <= Times(ratio, pixels) && pixels <= Times(ratio, Times(t.height, t.height))
  {
    SideSquares(t.width, t.height, pixels, ratio);
    assert Times(t.height, t.width) == Times(t.width, t.height);
    SideSquares(t.height, t.width, pixels, ratio);
  }

  /** What a shape is rounded down to meets the condition on multiples. */
  lemma DownIsReached(t: Size, r: Size, f: real, ratio: real, pixels: real)
    requires f > 0.0 && ratio >= 1.0 && IsShape(t, ratio, pixels)
    requires 0.0 <= r.width <= t.width < r.width + f && 0.0 <= r.height <= t.height < r.height + f
    ensures ReachedDown(f, ratio, pixels, r.width, r.height)
  {
    ShapeSquares(t, ratio, pixels);
    ProductBound(r.width, r.height, t.width, t.height);
    StrictProduct(t.width, t.height, r.width + f, r.height + f);
    ProductBound(r.width, r.width, t.width, t.width);
    ProductBound(r.height, r.height, t.height, t.height);
    StrictProduct(t.width, t.width, r.width + f, r.width + f);
    StrictProduct(t.height, t.height, r.height + f, r.height + f);
    Scaled(ratio, Times(t.width, t.width), Times(r.width + f, r.width + f));
    Scaled(ratio, Times(t.height, t.height), Times(r.height + f, r.height + f));
  }

  lemma UpIsReached(t: Size, r: Size, f: real, ratio: real, pixels: real)
    requires f > 0.0 && ratio >= 1.0 && IsShape(t, ratio, pixels)
    requires 0.0 <= r.width - f < t.width <= r.width && 0.0 <= r.height - f < t.height <= r.height
    ensures ReachedUp(f, ratio, pixels, r.width, r.height)
  {
    ShapeSquares(t, ratio, pixels);
    ProductBound(t.width, t.height, r.width, r.height);
    StrictProduct(r.width - f, r.height - f, t.width, t.height);
    StrictProduct(r.width - f, r.width - f, t.width, t.width);
    StrictProduct(r.height - f, r.height - f, t.height, t.height);
    ProductBound(t.width, t.width, r.width, r.width);
    ProductBound(t.height, t.height, r.height, r.height);
    ProductBound(ratio, Times(t.width, t.width), ratio, Times(r.width, r.width));
    ProductBound(ratio, Times(t.height, t.height), ratio, Times(r.height, r.height));
  }

  // ---- shapes for the multiples that are reached ----

  /** The short side of the longest shape. */
  lemma ShortSide(sqrt: real -> real, ratio: real, pixels: real) returns (q: real)
    requires IsSqrt(sqrt) && ratio >= 1.0 && pixels > 0.0
    ensures q > 0.0 && Times(ratio, Times(q, q)) == pixels && q <= Times(ratio, q)
  {
    assert pixels / ratio > 0.0;
    q := sqrt(pixels / ratio);
    assert ratio * (pixels / ratio) == pixels;
    ProductBound(1.0, q, ratio, q);
  }

  /** A side between the short and the long one belongs to a shape. */
  lemma SideShape(a: real, q: real, ratio: real, pixels: real) returns (b: real)
    requires ratio >= 1.0 && q > 0.0 && Times(ratio, Times(q, q)) == pixels && q <= a <= Times(ratio, q)
    ensures b > 0.0 && Times(a, b) == pixels && IsShape(Size(a, b), ratio, pixels)
  {
    b := pixels / a;
    assert a * b == pixels;
    ProductBound(q, q, a, a);
    ProductBound(ratio, Times(q, q), ratio, Times(a, a));
    assert Times(a, Times(ratio, a)) == Times(ratio, Times(a, a));
    CancelLess(a, b, Times(ratio, a));
    LongSide(a, q, ratio);
    assert Times(a, Times(ratio, b)) == Times(ratio, Times(a, b));
    CancelLess(a, a, Times(ratio, b));
  }

  lemma LongSide(a: real, q: real, ratio: real)
    requires 0.0 < a <= Times(ratio, q) && q > 0.0 && ratio > 0.0
    ensures Times(a, a) <= Times(ratio, Times(ratio, Times(q, q)))
  {
    Square(a, Times(ratio, q));
    assert Times(Times(ratio, q), Times(ratio, q)) == Times(ratio, Times(ratio, Times(q, q)));
  }

  /** A multiple whose square is at most that of the long side is no longer than it. */
  lemma BelowLong(x: real, q: real, ratio: real, pixels: real)
    requires x >= 0.0 && q > 0.0 && ratio >= 1.0 && Times(ratio, Times(q, q)) == pixels
    ensures Times(x, x) <= Times(ratio, pixels) ==> x <= Times(ratio, q)
    ensures Times(x, x) < Times(ratio, pixels) ==> x < Times(ratio, q)
  {
    var long := Times(ratio, q);
    assert Times(long, long) == Times(ratio, pixels);
    ProductBound(1.0, q, ratio, q);
    if Times(x, x) <= Times(ratio, pixels) {
      SquareBack(x, long);
    }
  }

  /** A multiple whose square is more than that of the short side is longer than it. */
  lemma AboveShort(x: real, q: real, ratio: real, pixels: real)
    requires x >= 0.0 && q > 0.0 && ratio >= 1.0 && Times(ratio, Times(q, q)) == pixels
    ensures pixels < Times(ratio, Times(x, x)) ==> q < x
    ensures pixels <= Times(ratio, Times(x, x)) ==> q <= x
  {
    if pixels <= Times(ratio, Times(x, x)) {
      CancelLess(ratio, Times(q, q), Times(x, x));
      SquareBack(q, x);
    }
  }

  lemma CancelStrict(a: real, x: real, y: real)
    requires a > 0.0 && Times(a, x) < Times(a, y)
    ensures x < y
  {
    CancelLess(a, x, y);
  }

  lemma Quotient(p: real, y: real) returns (s: real)
    requires p > 0.0 && y > 0.0
    ensures s > 0.0 && Times(y, s) == p && Times(s, y) == p
  {
    s := p / y;
    assert s * y == p;
  }

  /** A side from `x` to below `x + f` whose partner is from `y` to below `y + f`. */
  lemma DownSide(q: real, f: real, ratio: real, pixels: real, x: real, y: real) returns (a: real)
    requires f > 0.0 && q > 0.0 && q <= Times(ratio, q) && x >= 0.0 && y >= 0.0
    requires Times(q, Times(ratio, q)) == pixels
    requires x <= Times(ratio, q) && y <= Times(ratio, q) && q < x + f && q < y + f
    requires Times(x, y) <= pixels < Times(x + f, y + f)
    ensures q <= a <= Times(ratio, q) && x <= a < x + f
    ensures Times(a, y) <= pixels < Times(a, y + f)
  {
    var low, long := Max(x, q), Times(ratio, q);
    ScaledAtMost(q, y, long);
    if Times(low, y + f) > pixels {
      a := low;
    } else {
      ScaledAtMost(q, q, y + f);
      a := DownBetween(low, long, f, pixels, x, y, q);
    }
  }

  lemma ScaledAtMost(a: real, x: real, y: real)
    requires a > 0.0 && x <= y
    ensures Times(a, x) <= Times(a, y) && Times(x, a) <= Times(y, a)
  {
    if x < y {
      Scaled(a, x, y);
      Longer(x, y, a);
    }
  }

  lemma DownBetween(low: real, long: real, f: real, pixels: real, x: real, y: real, q: real) returns (a: real)
    requires f > 0.0 && q > 0.0 && y >= 0.0 && x >= 0.0 && low > 0.0 && long > 0.0 && low <= long && q < y + f
    requires Times(q, long) == pixels && Times(low, y + f) <= pixels < Times(x + f, y + f)
    ensures low <= a <= long && a < x + f && Times(a, y) <= pixels < Times(a, y + f)
  {
    var s := Quotient(pixels, y + f);
    TimesCommutes(low, y + f);
    TimesCommutes(x + f, y + f);
    CancelLess(y + f, low, s);
    CancelStrict(y + f, s, x + f);
    Longer(q, y + f, long);
    TimesCommutes(long, y + f);
    CancelStrict(y + f, s, long);
    Scaled(s, y, y + f);
    var u := Min(long, x + f);
    if Times(u, y) <= pixels {
      a := Between(s, u);
      LongerAtMost(a, u, y);
    } else {
      assert y > 0.0;
      var v := Quotient(pixels, y);
      TimesCommutes(s, y);
      CancelStrict(y, s, v);
      TimesCommutes(u, y);
      CancelStrict(y, v, u);
      a := Between(s, v);
      Longer(a, v, y);
    }
    Longer(s, a, y + f);
  }

  lemma LongerAtMost(x: real, y: real, factor: real)
    requires factor >= 0.0 && x <= y
    ensures Times(x, factor) <= Times(y, factor)
  {
    if factor > 0.0 {
      ScaledAtMost(factor, x, y);
    }
  }

  lemma Between(s: real, u: real) returns (a: real)
    requires s < u
    ensures s < a < u
  {
    a := (s + u) / 2.0;
  }

  /** A side above `x` up to `x + f` whose partner is above `y` up to `y + f`. */
  lemma UpSide(q: real, f: real, ratio: real, pixels: real, x: real, y: real) returns (a: real)
    requires f > 0.0 && q > 0.0 && q <= Times(ratio, q) && x >= 0.0 && y >= 0.0
    requires Times(q, Times(ratio, q)) == pixels
    requires x < Times(ratio, q) && y < Times(ratio, q) && q <= x + f && q <= y + f
    requires Times(x, y) < pixels <= Times(x + f, y + f)
    ensures q <= a <= Times(ratio, q) && x < a <= x + f
    ensures Times(a, y) < pixels <= Times(a, y + f)
  {
    var long := Times(ratio, q);
    var high := Min(x + f, long);
    ScaledAtMost(long, q, y + f);
    TimesCommutes(q, long);
    if Times(high, y) < pixels {
      a := high;
    } else {
      a := UpBetween(high, long, f, pixels, x, y, q);
    }
  }

  lemma UpBetween(high: real, long: real, f: real, pixels: real, x: real, y: real, q: real) returns (a: real)
    requires f > 0.0 && q > 0.0 && y >= 0.0 && x >= 0.0 && high > 0.0 && y < long && pixels > 0.0
    requires Times(q, long) == pixels && Times(x, y) < pixels <= Times(high, y)
    ensures q <= a <= high && x < a && Times(a, y) < pixels <= Times(a, y + f)
  {
    assert y > 0.0;
    var v := Quotient(pixels, y);
    var s := Quotient(pixels, y + f);
    TimesCommutes(high, y);
    CancelLess(y, v, high);
    TimesCommutes(x, y);
    CancelStrict(y, x, v);
    Scaled(q, y, long);
    TimesCommutes(q, y);
    CancelStrict(y, q, v);
    Scaled(s, y, y + f);
    TimesCommutes(s, y);
    CancelStrict(y, s, v);
    a := Between(Max(Max(x, q), s), v);
    Longer(a, v, y);
    Longer(s, a, y + f);
  }

  lemma DownShape(sqrt: real -> real, f: real, ratio: real, pixels: real, x: real, y: real) returns (t: Size)
    requires IsSqrt(sqrt) && f > 0.0 && ratio >= 1.0 && pixels > 0.0 && x >= 0.0 && y >= 0.0
    requires ReachedDown(f, ratio, pixels, x, y)
    ensures IsShape(t, ratio, pixels) && x <= t.width < x + f && y <= t.height < y + f
  {
    var q := ShortSide(sqrt, ratio, pixels);
    AboveShort(x + f, q, ratio, pixels);
    AboveShort(y + f, q, ratio, pixels);
    BelowLong(x, q, ratio, pixels);
    BelowLong(y, q, ratio, pixels);
    ShortTimesLong(q, ratio);
    var a := DownSide(q, f, ratio, pixels, x, y);
    var b := SideShape(a, q, ratio, pixels);
    CancelLess(a, y, b);
    CancelStrict(a, b, y + f);
    t := Size(a, b);
  }

  lemma ShortTimesLong(q: real, ratio: real)
    ensures Times(q, Times(ratio, q)) == Times(ratio, Times(q, q))
  {
  }

  lemma UpShape(sqrt: real -> real, f: real, ratio: real, pixels: real, x: real, y: real) returns (t: Size)
    requires IsSqrt(sqrt) && f > 0.0 && ratio >= 1.0 && pixels > 0.0 && x >= f && y >= f
    requires ReachedUp(f, ratio, pixels, x, y)
    ensures IsShape(t, ratio, pixels) && x - f < t.width <= x && y - f < t.height <= y
  {
    var q := ShortSide(sqrt, ratio, pixels);
    AboveShort(x, q, ratio, pixels);
    AboveShort(y, q, ratio, pixels);
    BelowLong(x - f, q, ratio, pixels);
    BelowLong(y - f, q, ratio, pixels);
    ShortTimesLong(q, ratio);
    assert x - f + f == x && y - f + f == y;
    var a := UpSide(q, f, ratio, pixels, x - f, y - f);
    var b := SideShape(a, q, ratio, pixels);
    CancelStrict(a, y - f, b);
    CancelLess(a, b, y);
    t := Size(a, b);
  }

  // ---- screens for a shape ----

  ghost predicate Accepted(s: Size, limits: Limits) {
    IsScreen(s) && !TooLong(s, limits.maxRatio)
  }

  function Blown(t: Size, c: real): Size {
    Size(Times(c, t.width), Times(c, t.height))
  }

  /** Scaling keeps the shape. */
  lemma BlownShape(t: Size, c: real, limits: Limits, pixels: real)
    requires IsShape(t, limits.maxRatio, pixels) && c > 0.0
    ensures Accepted(Blown(t, c), limits) && ScaledTo(Blown(t, c), t, pixels)
    ensures Blown(t, c).width > 0.0 && Blown(t, c).height > 0.0
  {
    Scaled(c, 0.0, t.width);
    Scaled(c, 0.0, t.height);
    ScaledAtMost(c, t.width, Times(limits.maxRatio, t.height));
    ScaledAtMost(c, t.height, Times(limits.maxRatio, t.width));
    assert Times(c, Times(limits.maxRatio, t.height)) == Times(limits.maxRatio, Times(c, t.height));
    assert Times(c, Times(limits.maxRatio, t.width)) == Times(limits.maxRatio, Times(c, t.width));
    assert Times(t.width, Times(c, t.height)) == Times(t.height, Times(c, t.width));
    ShapeRatio(t, limits.maxRatio, pixels);
    ScaledAtMost(Times(c, t.width), 1.0, limits.maxRatio);
    ScaledAtMost(Times(c, t.height), 1.0, limits.maxRatio);
  }

  lemma ShapeRatio(t: Size, ratio: real, pixels: real)
    requires IsShape(t, ratio, pixels)
    ensures ratio >= 1.0
  {
    if ratio < 1.0 {
      Longer(ratio, 1.0, t.width);
      Longer(ratio, 1.0, t.height);
    }
  }

  /** A large screen of the shape is shrunk to it. */
  lemma ScreenToShrink(t: Size, r: Size, limits: Limits) returns (s: Size)
    requires Sensible(limits) && IsShape(t, limits.maxRatio, limits.maxPixels) && RoundedDown(t, r, limits.factor)
    ensures Accepted(s, limits) && IsResize(s, r, limits)
  {
    var f := limits.factor;
    var u := Quotient(limits.maxPixels, f);
    var c := Quotient(u + f, t.width);
    s := Blown(t, c);
    BlownShape(t, c, limits, limits.maxPixels);
    var rounded := Size(Max(f, RoundByFactor(s.width, f)), Max(f, RoundByFactor(s.height, f)));
    RoundSide(s.width, f);
    RoundSide(s.height, f);
    LargeProduct(u, f, rounded.width, rounded.height);
    assert Rounded(s, rounded, f) && ResizedFrom(s, rounded, r, limits);
  }

  lemma LargeProduct(u: real, f: real, w: real, h: real)
    requires 0.0 < u < w && 0.0 < f <= h
    ensures Times(w, h) > Times(u, f)
  {
    Longer(u, w, f);
    ScaledAtMost(w, f, h);
  }

  /** A tiny screen of the shape is grown to it. */
  lemma ScreenToGrow(t: Size, r: Size, limits: Limits) returns (s: Size)
    requires Sensible(limits) && IsShape(t, limits.maxRatio, limits.minPixels) && RoundedUp(t, r, limits.factor)
    requires Times(limits.factor, limits.factor) < limits.minPixels
    requires Times(limits.factor, limits.factor) <= limits.maxPixels
    ensures Accepted(s, limits) && IsResize(s, r, limits)
  {
    var f := limits.factor;
    var c := Quotient(f, t.width + t.height);
    s := Blown(t, c);
    BlownShape(t, c, limits, limits.minPixels);
    Scaled(c, t.width, t.width + t.height);
    Scaled(c, t.height, t.width + t.height);
    assert f == Multiple(1, f);
    assert Rounded(s, Size(f, f), f) && ResizedFrom(s, Size(f, f), r, limits);
  }

  // ---- the results ----

  /** What is accepted is scaled to a shape. */
  lemma AcceptedShape(s: Size, t: Size, limits: Limits, pixels: real)
    requires Accepted(s, limits) && ScaledTo(s, t, pixels)
    ensures IsShape(t, limits.maxRatio, pixels) && limits.maxRatio >= 1.0
  {
    ScaledShape(s, t, pixels, limits.maxRatio);
    ShapeRatio(t, limits.maxRatio, pixels);
  }

  /** Every accepted screen gets two positive multiples of the factor within the budget. */
  ghost predicate AlwaysWithin(limits: Limits) {
    forall s, r :: Accepted(s, limits) && IsResize(s, r, limits) ==> WithinBudget(r, limits)
  }

  lemma SafeWithin(s: Size, r: Size, limits: Limits)
    requires Sensible(limits) && ShrinkSafe(limits) && GrowSafe(limits) && Accepted(s, limits) && IsResize(s, r, limits)
    ensures WithinBudget(r, limits)
  {
    var f := limits.factor;
    var rounded: Size :| Rounded(s, rounded, f) && ResizedFrom(s, rounded, r, limits);
    OneLimitKept(s, rounded, r, limits);
    if Pixels(rounded) > limits.maxPixels {
      var t: Size :| ScaledTo(s, t, limits.maxPixels) && RoundedDown(t, r, f);
      AcceptedShape(s, t, limits, limits.maxPixels);
      var j := NotBelowZero(t.width, r.width, f);
      var k := NotBelowZero(t.height, r.height, f);
      DownIsReached(t, r, f, limits.maxRatio, limits.maxPixels);
      MultipleSign(j, f);
      MultipleSign(k, f);
    } else if Pixels(rounded) < limits.minPixels {
      var t: Size :| ScaledTo(s, t, limits.minPixels) && RoundedUp(t, r, f);
      AcceptedShape(s, t, limits, limits.minPixels);
      var j := AboveZero(t.width, r.width, f);
      var k := AboveZero(t.height, r.height, f);
      UpIsReached(t, r, f, limits.maxRatio, limits.minPixels);
      ProductBound(f, f, rounded.width, rounded.height);
    }
  }

  lemma UnsafeShrink(sqrt: real -> real, limits: Limits) returns (s: Size, r: Size)
    requires IsSqrt(sqrt) && Sensible(limits) && limits.maxRatio >= 1.0 && !ShrinkSafe(limits)
    ensures Accepted(s, limits) && IsResize(s, r, limits) && !WithinBudget(r, limits)
  {
    var f := limits.factor;
    var j: nat, k: nat :|
      && ReachedDown(f, limits.maxRatio, limits.maxPixels, Multiple(j, f), Multiple(k, f))
      && !(j > 0 && k > 0 && Times(Multiple(j, f), Multiple(k, f)) >= limits.minPixels);
    MultipleSign(j, f);
    MultipleSign(k, f);
    r := Size(Multiple(j, f), Multiple(k, f));
    var t := DownShape(sqrt, f, limits.maxRatio, limits.maxPixels, r.width, r.height);
    s := ScreenToShrink(t, r, limits);
  }

  lemma UnsafeGrow(sqrt: real -> real, limits: Limits) returns (s: Size, r: Size)
    requires IsSqrt(sqrt) && Sensible(limits) && limits.maxRatio >= 1.0 && !GrowSafe(limits)
    ensures Accepted(s, limits) && IsResize(s, r, limits) && !WithinBudget(r, limits)
  {
    var f := limits.factor;
    var j: nat, k: nat :|
      && j > 0 && k > 0
      && ReachedUp(f, limits.maxRatio, limits.minPixels, Multiple(j, f), Multiple(k, f))
      && Times(Multiple(j, f), Multiple(k, f)) > limits.maxPixels;
    MultipleSign(j, f);
    MultipleSign(k, f);
    r := Size(Multiple(j, f), Multiple(k, f));
    var t := UpShape(sqrt, f, limits.maxRatio, limits.minPixels, r.width, r.height);
    s := ScreenToGrow(t, r, limits);
  }

  lemma NothingAccepted(s: Size, limits: Limits)
    requires limits.maxRatio < 1.0
    ensures !Accepted(s, limits)
  {
    if Accepted(s, limits) {
      Longer(limits.maxRatio, 1.0, Min(s.width, s.height));
    }
  }

  /** For any limits: every accepted screen is resized to two positive multiples within the budget, if
      and only if none is accepted or all multiples that the two branches reach are safe.  Only
      finitely many multiples are reached, as their squares are bounded. */
  lemma BudgetExactly(sqrt: real -> real, limits: Limits)
    requires IsSqrt(sqrt) && Sensible(limits)
    ensures AlwaysWithin(limits) <==> limits.maxRatio < 1.0 || (ShrinkSafe(limits) && GrowSafe(limits))
  {
    if limits.maxRatio < 1.0 {
      forall s
        ensures !Accepted(s, limits)
      {
        NothingAccepted(s, limits);
      }
    } else if !ShrinkSafe(limits) {
      var s, r := UnsafeShrink(sqrt, limits);
    } else if !GrowSafe(limits) {
      var s, r := UnsafeGrow(sqrt, limits);
    } else {
      forall s, r | Accepted(s, limits) && IsResize(s, r, limits)
        ensures WithinBudget(r, limits)
      {
        SafeWithin(s, r, limits);
      }
    }
  }

  /** No accepted screen loses a side. */
  ghost predicate AlwaysPositive(limits: Limits) {
    forall s, r :: Accepted(s, limits) && IsResize(s, r, limits) ==> r.width > 0.0 && r.height > 0.0
  }

  lemma SidesStayPositive(s: Size, r: Size, limits: Limits)
    requires Sensible(limits) && limits.maxPixels >= Times(limits.maxRatio, Times(limits.factor, limits.factor))
    requires Accepted(s, limits) && IsResize(s, r, limits)
    ensures r.width > 0.0 && r.height > 0.0
  {
    var f := limits.factor;
    var rounded: Size :| Rounded(s, rounded, f) && ResizedFrom(s, rounded, r, limits);
    OneLimitKept(s, rounded, r, limits);
    if Pixels(rounded) > limits.maxPixels {
      var t: Size :| ScaledTo(s, t, limits.maxPixels) && RoundedDown(t, r, f);
      AcceptedShape(s, t, limits, limits.maxPixels);
      ShapeSquares(t, limits.maxRatio, limits.maxPixels);
      CancelLess(limits.maxRatio, Times(f, f), Times(t.width, t.width));
      CancelLess(limits.maxRatio, Times(f, f), Times(t.height, t.height));
      SquareBack(f, t.width);
      SquareBack(f, t.height);
    }
  }

  /** The longest shape loses its short side when that is shorter than the factor. */
  lemma SideIsLost(sqrt: real -> real, limits: Limits) returns (s: Size, r: Size)
    requires IsSqrt(sqrt) && Sensible(limits) && limits.maxRatio >= 1.0
    requires limits.maxPixels < Times(limits.maxRatio, Times(limits.factor, limits.factor))
    ensures Accepted(s, limits) && IsResize(s, r, limits) && r.width == 0.0
  {
    var f := limits.factor;
    var q := ShortSide(sqrt, limits.maxRatio, limits.maxPixels);
    AboveShort(f, q, limits.maxRatio, limits.maxPixels);
    var b := SideShape(q, q, limits.maxRatio, limits.maxPixels);
    r := Size(0.0, FloorByFactor(b, f));
    MultipleSign(0, f);
    assert r.width == Multiple(0, f);
    s := ScreenToShrink(Size(q, b), r, limits);
  }

  /** No accepted screen loses a side if and only if none is accepted or the upper limit has room for
      the longest shape with the factor as its short side. */
  lemma PositiveExactly(sqrt: real -> real, limits: Limits)
    requires IsSqrt(sqrt) && Sensible(limits)
    ensures AlwaysPositive(limits) <==>
              limits.maxRatio < 1.0 || limits.maxPixels >= Times(limits.maxRatio, Times(limits.factor, limits.factor))
  {
    if limits.maxRatio < 1.0 {
      forall s
        ensures !Accepted(s, limits)
      {
        NothingAccepted(s, limits);
      }
    } else if limits.maxPixels < Times(limits.maxRatio, Times(limits.factor, limits.factor)) {
      var s, r := SideIsLost(sqrt, limits);
    } else {
      forall s, r | Accepted(s, limits) && IsResize(s, r, limits)
        ensures r.width > 0.0 && r.height > 0.0
      {
        SidesStayPositive(s, r, limits);
      }
    }
  }

  /** Limits that leave no room can be broken: a square of 100 by 100 for exactly 1000 pixels becomes
      28 by 28. */
  lemma NarrowLimitsBreak(r: Size)
    requires IsResize(Size(100.0, 100.0), r, Limits(2.5, 28.0, 1000.0, 1000.0))
    ensures r == Size(28.0, 28.0) && Pixels(r) < 1000.0
  {
    var s, limits := Size(100.0, 100.0), Limits(2.5, 28.0, 1000.0, 1000.0);
    var rounded: Size :| Rounded(s, rounded, limits.factor) && ResizedFrom(s, rounded, r, limits);
    ProductBound(86.0, 86.0, rounded.width, rounded.height);
    var t: Size :| ScaledTo(s, t, limits.maxPixels) && RoundedDown(t, r, limits.factor);
    assert t.width == t.height;
    assert 28.0 * 28.0 < 1000.0 < 56.0 * 56.0;
    SquareBack(28.0, t.width);
    SquareBack(t.width, 56.0);
    OneFactor(t.width, r.width);
    OneFactor(t.height, r.height);
  }

  lemma OneFactor(x: real, r: real)
    requires 28.0 <= x <= 56.0 && Times(x, x) == 1000.0 && IsMultiple(r, 28.0) && r <= x < r + 28.0
    ensures r == 28.0
  {
    assert x != 56.0;
    var k: int :| r == Multiple(k, 28.0);
    assert 0 < k < 2;
  }
}
