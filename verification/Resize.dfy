/** `smartResizeForV15`: fitting a screen size to multiples of a factor within a pixel budget.  Numbers
    are reals; the square root is a parameter of which only its defining property is used. */
module Resize {
  import opened Wrappers
  import opened Reals

  const MAX_RATIO: real := 2.5
  const IMAGE_FACTOR: real := 28.0
  const MIN_PIXELS: real := 3136.0
  const MAX_PIXELS: real := 1003520.0

  datatype Size = Size(width: real, height: real)

  function Over(a: real, b: real): real
    requires b != 0.0
  {
    a / b
  }

  function Pixels(s: Size): real {
    Times(s.width, s.height)
  }

  function Max(a: real, b: real): real {
    if a >= b then a else b
  }

  function Min(a: real, b: real): real {
    if a <= b then a else b
  }

  // ---- rounding to a factor ----

  function Multiple(k: int, factor: real): real {
    Times(k as real, factor)
  }

  /** `x` is a whole number of factors. */
  ghost predicate IsMultiple(x: real, factor: real) {
    exists k: int :: x == Multiple(k, factor)
  }

  lemma QuotientBounds(num: real, factor: real, below: real, above: real)
    requires factor > 0.0 && below <= num / factor < above
    ensures Times(below, factor) <= num < Times(above, factor)
  {
    var q := num / factor;
    assert q * factor == num;
  }

  lemma Apart(k: real, d: real, factor: real)
    ensures Times(k + d, factor) == Times(k, factor) + Times(d, factor)
  {
  }

  /** The nearest multiple, the greater one of two equally near. */
  function RoundByFactor(num: real, factor: real): (r: real)
    requires factor > 0.0
    ensures IsMultiple(r, factor) && r - Times(0.5, factor) <= num < r + Times(0.5, factor)
  {
    var k := (num / factor + 0.5).Floor;
    QuotientBounds(num, factor, k as real - 0.5, k as real + 0.5);
    Apart(k as real, 0.5, factor);
    Apart(k as real, -0.5, factor);
    Multiple(k, factor)
  }

  /** The greatest multiple that is not above. */
  function FloorByFactor(num: real, factor: real): (r: real)
    requires factor > 0.0
    ensures IsMultiple(r, factor) && r <= num < r + factor
  {
    var k := (num / factor).Floor;
    QuotientBounds(num, factor, k as real, k as real + 1.0);
    Apart(k as real, 1.0, factor);
    Multiple(k, factor)
  }

  function Ceil(x: real): int {
    -(-x).Floor
  }

  lemma CeilBounds(x: real)
    ensures Ceil(x) as real - 1.0 < x <= Ceil(x) as real
  {
  }

  lemma Longer(x: real, y: real, factor: real)
    requires factor > 0.0 && x < y
    ensures Times(x, factor) < Times(y, factor)
  {
    assert (y - x) * factor > 0.0;
  }

  lemma Scale(k: real, q: real, factor: real)
    requires factor > 0.0 && k < q <= k + 1.0
    ensures Times(k, factor) < Times(q, factor) <= Times(k + 1.0, factor)
  {
    Longer(k, q, factor);
    if q < k + 1.0 {
      Longer(q, k + 1.0, factor);
    }
  }

  /** The least multiple that is not below. */
  function CeilByFactor(num: real, factor: real): (r: real)
    requires factor > 0.0
    ensures IsMultiple(r, factor) && r - factor < num <= r
  {
    var q, k := num / factor, Ceil(num / factor);
    assert q * factor == num;
    CeilBounds(q);
    Scale(k as real - 1.0, q, factor);
    Apart(k as real, -1.0, factor);
    Multiple(k, factor)
  }

  // ---- what a resized screen is ----

  datatype Limits = Limits(maxRatio: real, factor: real, minPixels: real, maxPixels: real)

  function Defaults(): Limits {
    Limits(MAX_RATIO, IMAGE_FACTOR, MIN_PIXELS, MAX_PIXELS)
  }

  ghost predicate Sensible(limits: Limits) {
    limits.factor > 0.0 && limits.minPixels > 0.0 && limits.maxPixels > 0.0
  }

  ghost predicate IsScreen(s: Size) {
    s.width >= 0.0 && s.height >= 0.0 && s.width + s.height > 0.0
  }

  ghost predicate IsSqrt(sqrt: real -> real) {
    forall x :: x > 0.0 ==> sqrt(x) > 0.0 && Times(sqrt(x), sqrt(x)) == x
  }

  /** The long side is more than `maxRatio` times the short one. */
  ghost predicate TooLong(s: Size, maxRatio: real) {
    Min(s.width, s.height) <= 0.0 || Max(s.width, s.height) > Times(maxRatio, Min(s.width, s.height))
  }

  /** One side, rounded to the nearest multiple but to at least one factor. */
  ghost predicate RoundedSide(side: real, r: real, factor: real) {
    && IsMultiple(r, factor) && r >= factor
    && (r == factor || r - Times(0.5, factor) <= side)
    && side < r + Times(0.5, factor)
  }

  ghost predicate Rounded(s: Size, r: Size, factor: real) {
    RoundedSide(s.width, r.width, factor) && RoundedSide(s.height, r.height, factor)
  }

  /** `t` has the shape of `s` and exactly this many pixels. */
  ghost predicate ScaledTo(s: Size, t: Size, pixels: real) {
    && t.width > 0.0 && t.height > 0.0
    && Times(t.width, s.height) == Times(t.height, s.width)
    && Pixels(t) == pixels
  }

  ghost predicate RoundedDown(t: Size, r: Size, factor: real) {
    && IsMultiple(r.width, factor) && r.width <= t.width < r.width + factor
    && IsMultiple(r.height, factor) && r.height <= t.height < r.height + factor
  }

  ghost predicate RoundedUp(t: Size, r: Size, factor: real) {
    && IsMultiple(r.width, factor) && r.width - factor < t.width <= r.width
    && IsMultiple(r.height, factor) && r.height - factor < t.height <= r.height
  }

  /** `r` is the rounded screen if that is within the budget; otherwise the screen of the same shape
      that just meets the limit it broke, rounded to the inside of that limit. */
  ghost predicate IsResize(s: Size, r: Size, limits: Limits) {
    exists rounded: Size :: Rounded(s, rounded, limits.factor) && ResizedFrom(s, rounded, r, limits)
  }

  ghost predicate ResizedFrom(s: Size, rounded: Size, r: Size, limits: Limits) {
    if Pixels(rounded) > limits.maxPixels then
      exists t: Size :: ScaledTo(s, t, limits.maxPixels) && RoundedDown(t, r, limits.factor)
    else if Pixels(rounded) < limits.minPixels then
      exists t: Size :: ScaledTo(s, t, limits.minPixels) && RoundedUp(t, r, limits.factor)
    else
      r == rounded
  }

  // ---- the program ----

  lemma TooLongByRatio(s: Size, maxRatio: real)
    requires Min(s.width, s.height) > 0.0
    ensures TooLong(s, maxRatio) <==> Max(s.width, s.height) / Min(s.width, s.height) > maxRatio
  {
    var q, short := Max(s.width, s.height) / Min(s.width, s.height), Min(s.width, s.height);
    assert q * short == Max(s.width, s.height);
    if q > maxRatio {
      assert (q - maxRatio) * short > 0.0;
    } else {
      assert (maxRatio - q) * short >= 0.0;
    }
  }

  /** Whether the quotient of the sides, infinite for a side of 0, exceeds the ratio. */
  function ExceedsRatio(s: Size, maxRatio: real): (r: bool)
    requires IsScreen(s)
    ensures r <==> TooLong(s, maxRatio)
  {
    if Min(s.height, s.width) == 0.0 then true
    else
      TooLongByRatio(s, maxRatio);
      Max(s.height, s.width) / Min(s.height, s.width) > maxRatio
  }

  lemma RoundSide(side: real, factor: real)
    requires side > 0.0 && factor > 0.0
    ensures RoundedSide(side, Max(factor, RoundByFactor(side, factor)), factor)
  {
    assert factor == Multiple(1, factor);
  }

  /** Dividing both sides by the square root of the excess brings the pixels to the limit. */
  lemma DividedBy(s: Size, beta: real, pixels: real)
    requires s.width > 0.0 && s.height > 0.0 && pixels > 0.0 && beta > 0.0
    requires Times(beta, beta) == Times(s.height, s.width) / pixels
    ensures ScaledTo(s, Size(Over(s.width, beta), Over(s.height, beta)), pixels)
  {
    var u, v := Over(s.width, beta), Over(s.height, beta);
    Shape(s, u, v, beta);
    assert Times(s.height, s.width) == Times(beta, beta) * pixels;
    Squares(u, v, beta);
    Cancel(Times(beta, beta), Times(u, v), pixels);
  }

  lemma Shape(s: Size, u: real, v: real, beta: real)
    requires beta > 0.0 && u == Over(s.width, beta) && v == Over(s.height, beta) && s.width > 0.0 && s.height > 0.0
    ensures u > 0.0 && v > 0.0 && u * beta == s.width && v * beta == s.height && Times(u, s.height) == Times(v, s.width)
  {
    assert u * beta == s.width && v * beta == s.height;
    assert u * (v * beta) == v * (u * beta);
  }

  lemma Squares(u: real, v: real, beta: real)
    ensures Times(v * beta, u * beta) == Times(beta, beta) * Times(u, v)
  {
  }

  lemma Cancel(a: real, x: real, y: real)
    requires a > 0.0 && a * x == a * y
    ensures x == y
  {
    assert a * (x - y) == 0.0;
  }

  lemma MultipliedBy(s: Size, beta: real, pixels: real)
    requires s.width > 0.0 && s.height > 0.0 && pixels > 0.0 && beta > 0.0
    requires Times(beta, beta) == pixels / Times(s.height, s.width)
    ensures ScaledTo(s, Size(Times(s.width, beta), Times(s.height, beta)), pixels)
  {
    assert Times(s.width, beta) > 0.0 && Times(s.height, beta) > 0.0;
    assert Times(s.width, beta) * s.height == Times(s.height, beta) * s.width;
    Squares(s.height, s.width, beta);
    assert Times(beta, beta) * Times(s.height, s.width) == pixels;
  }

  lemma Shrunk(s: Size, rounded: Size, beta: real, limits: Limits)
    requires s.width > 0.0 && s.height > 0.0 && Sensible(limits) && Pixels(rounded) > limits.maxPixels
    requires beta > 0.0 && Times(beta, beta) == Times(s.height, s.width) / limits.maxPixels
    ensures ResizedFrom(s, rounded, Size(FloorByFactor(Over(s.width, beta), limits.factor),
                                         FloorByFactor(Over(s.height, beta), limits.factor)), limits)
  {
    DividedBy(s, beta, limits.maxPixels);
    var f, t := limits.factor, Size(Over(s.width, beta), Over(s.height, beta));
    assert RoundedDown(t, Size(FloorByFactor(t.width, f), FloorByFactor(t.height, f)), f);
  }

  lemma Grown(s: Size, rounded: Size, beta: real, limits: Limits)
    requires s.width > 0.0 && s.height > 0.0 && Sensible(limits) && Pixels(rounded) < limits.minPixels
    requires Pixels(rounded) <= limits.maxPixels
    requires beta > 0.0 && Times(beta, beta) == limits.minPixels / Times(s.height, s.width)
    ensures ResizedFrom(s, rounded, Size(CeilByFactor(Times(s.width, beta), limits.factor),
                                         CeilByFactor(Times(s.height, beta), limits.factor)), limits)
  {
    MultipliedBy(s, beta, limits.minPixels);
    var f, t := limits.factor, Size(Times(s.width, beta), Times(s.height, beta));
    assert RoundedUp(t, Size(CeilByFactor(t.width, f), CeilByFactor(t.height, f)), f);
  }

  lemma Excess(a: real, b: real, pixels: real)
    requires a > 0.0 && b > 0.0 && pixels > 0.0
    ensures Times(a, b) > 0.0 && Times(a, b) / pixels > 0.0 && pixels / Times(a, b) > 0.0
  {
  }

  method SmartResizeForV15(s: Size, limits: Limits, sqrt: real -> real) returns (r: Option<Size>)
    requires IsScreen(s) && Sensible(limits) && IsSqrt(sqrt)
    ensures r.None? <==> TooLong(s, limits.maxRatio)
    ensures r.Some? ==> IsResize(s, r.value, limits)
  {
    var height, width := s.height, s.width;
    if ExceedsRatio(s, limits.maxRatio) {
      return None;
    }
    var wBar := Max(limits.factor, RoundByFactor(width, limits.factor));
    var hBar := Max(limits.factor, RoundByFactor(height, limits.factor));
    RoundSide(width, limits.factor);
    RoundSide(height, limits.factor);
    ghost var rounded := Size(wBar, hBar);
    assert Rounded(s, rounded, limits.factor);
    Excess(height, width, limits.maxPixels);
    Excess(height, width, limits.minPixels);
    if Times(wBar, hBar) > limits.maxPixels {
      var beta := sqrt(Times(height, width) / limits.maxPixels);
      hBar := FloorByFactor(Over(height, beta), limits.factor);
      wBar := FloorByFactor(Over(width, beta), limits.factor);
      Shrunk(s, rounded, beta, limits);
      assert ResizedFrom(s, rounded, Size(wBar, hBar), limits);
    } else if Times(wBar, hBar) < limits.minPixels {
      var beta := sqrt(limits.minPixels / Times(height, width));
      hBar := CeilByFactor(Times(height, beta), limits.factor);
      wBar := CeilByFactor(Times(width, beta), limits.factor);
      Grown(s, rounded, beta, limits);
      assert ResizedFrom(s, rounded, Size(wBar, hBar), limits);
    }
    assert ResizedFrom(s, rounded, Size(wBar, hBar), limits);
    r := Some(Size(wBar, hBar));
  }
}
