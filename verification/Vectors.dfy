/** Vectors of reals: sums, weighted sums, distances, and the linear maps given by weighted arcs. */
module Vectors {
  import opened Reals

  function Sum(x: seq<real>): real {
    if x == [] then 0.0 else Sum(x[..|x| - 1]) + x[|x| - 1]
  }

  function Dot(x: seq<real>, y: seq<real>): real
    requires |x| == |y|
  {
    if x == [] then 0.0 else Dot(x[..|x| - 1], y[..|y| - 1]) + Times(x[|x| - 1], y[|y| - 1])
  }

  function Abs(r: real): real {
    if r < 0.0 then -r else r
  }

  function AbsAll(x: seq<real>): seq<real> {
    seq(|x|, i requires 0 <= i < |x| => Abs(x[i]))
  }

  function Minus(x: seq<real>, y: seq<real>): seq<real>
    requires |x| == |y|
  {
    seq(|x|, i requires 0 <= i < |x| => x[i] - y[i])
  }

  /** The sum of the absolute values. */
  function Norm(x: seq<real>): real {
    Sum(AbsAll(x))
  }

  /** The L1 distance. */
  function Apart(x: seq<real>, y: seq<real>): real
    requires |x| == |y|
  {
    Norm(Minus(x, y))
  }

  predicate NonNegative(x: seq<real>) {
    forall i :: 0 <= i < |x| ==> x[i] >= 0.0
  }

  function Zeros(n: nat): (z: seq<real>)
    ensures |z| == n
  {
    seq(n, i => 0.0)
  }

  function Pow(d: real, k: nat): real {
    if k == 0 then 1.0 else d * Pow(d, k - 1)
  }

  // ---- sums ----

  lemma {:induction false} SumUpdate(x: seq<real>, i: nat, r: real)
    requires i < |x|
    ensures Sum(x[i := r]) == Sum(x) - x[i] + r
  {
    var n := |x| - 1;
    if i == n {
      assert x[i := r][..n] == x[..n];
    } else {
      assert x[i := r][..n] == x[..n][i := r];
      SumUpdate(x[..n], i, r);
    }
  }

  lemma {:induction false} SumConstant(x: seq<real>, c: real)
    requires forall i :: 0 <= i < |x| ==> x[i] == c
    ensures Sum(x) == |x| as real * c
  {
    if x != [] {
      SumConstant(x[..|x| - 1], c);
      assert |x| as real * c == (|x| - 1) as real * c + c;
    }
  }

  lemma {:induction false} SumShift(x: seq<real>, y: seq<real>, c: real)
    requires |x| == |y| && forall i :: 0 <= i < |x| ==> y[i] == x[i] + c
    ensures Sum(y) == Sum(x) + |x| as real * c
  {
    if x != [] {
      var n := |x| - 1;
      SumShift(x[..n], y[..n], c);
      assert |x| as real * c == n as real * c + c;
    }
  }

  lemma {:induction false} SumBound(x: seq<real>, y: seq<real>)
    requires |x| == |y| && forall i :: 0 <= i < |x| ==> x[i] <= y[i]
    ensures Sum(x) <= Sum(y)
  {
    if x != [] {
      SumBound(x[..|x| - 1], y[..|x| - 1]);
    }
  }

  lemma {:induction false} SumStrictBound(x: seq<real>, y: seq<real>, i: nat)
    requires |x| == |y| && (forall i :: 0 <= i < |x| ==> x[i] <= y[i]) && i < |x| && x[i] < y[i]
    ensures Sum(x) < Sum(y)
  {
    var n := |x| - 1;
    if i == n {
      SumBound(x[..n], y[..n]);
    } else {
      SumStrictBound(x[..n], y[..n], i);
    }
  }

  /** `x` with `c` added at position `i`. */
  function Bump(x: seq<real>, i: nat, c: real): (r: seq<real>)
    requires i < |x|
    ensures |r| == |x|
  {
    x[i := x[i] + c]
  }

  lemma {:induction false} SumBump(x: seq<real>, i: nat, c: real)
    requires i < |x|
    ensures Sum(Bump(x, i, c)) == Sum(x) + c
  {
    SumUpdate(x, i, x[i] + c);
  }

  lemma NormBump(x: seq<real>, i: nat, c: real)
    requires i < |x|
    ensures Norm(Bump(x, i, c)) <= Norm(x) + Abs(c)
  {
    assert AbsAll(Bump(x, i, c)) == AbsAll(x)[i := Abs(x[i] + c)];
    SumUpdate(AbsAll(x), i, Abs(x[i] + c));
  }

  /** A vector of norm 0 is 0. */
  lemma {:induction false} NormZero(x: seq<real>)
    requires Norm(x) <= 0.0
    ensures forall i :: 0 <= i < |x| ==> x[i] == 0.0
  {
    if x != [] {
      var n := |x| - 1;
      assert AbsAll(x)[..n] == AbsAll(x[..n]);
      NormNonNegative(x[..n]);
      NormZero(x[..n]);
      assert forall i :: 0 <= i < n ==> x[i] == x[..n][i];
    }
  }

  lemma {:induction false} NormNonNegative(x: seq<real>)
    ensures Norm(x) >= 0.0
  {
    SumConstant(Zeros(|x|), 0.0);
    SumBound(Zeros(|x|), AbsAll(x));
  }

  lemma NormZeros(n: nat)
    ensures Norm(Zeros(n)) == 0.0
  {
    SumConstant(AbsAll(Zeros(n)), 0.0);
  }

  // ---- products ----

  lemma TimesAbs(x: real, z: real)
    requires z >= 0.0
    ensures Abs(Times(x, z)) == Times(Abs(x), z)
  {
  }

  // ---- weighted sums ----

  lemma {:induction false} DotBump(x: seq<real>, y: seq<real>, i: nat, g: real)
    requires |x| == |y| && i < |x|
    ensures Dot(x, Bump(y, i, g)) == Dot(x, y) + Times(x[i], g)
  {
    var n := |x| - 1;
    if i == n {
      assert Bump(y, i, g)[..n] == y[..n];
      TimesPlus(x[n], y[n], g);
    } else {
      assert Bump(y, i, g)[..n] == Bump(y[..n], i, g);
      DotBump(x[..n], y[..n], i, g);
    }
  }

  lemma {:induction false} DotZeros(x: seq<real>)
    ensures Dot(x, Zeros(|x|)) == 0.0
  {
    if x != [] {
      assert Zeros(|x|)[..|x| - 1] == Zeros(|x| - 1);
      DotZeros(x[..|x| - 1]);
    }
  }

  /** A weighted sum of non-negative numbers, with weights of at most `c`. */
  lemma {:induction false} DotBound(x: seq<real>, y: seq<real>, c: real)
    requires |x| == |y| && NonNegative(x) && forall i :: 0 <= i < |y| ==> y[i] <= c
    ensures Dot(x, y) <= Times(c, Sum(x))
  {
    if x != [] {
      var n := |x| - 1;
      DotBound(x[..n], y[..n], c);
      TimesBound(x[n], y[n], c);
      TimesPlus(c, Sum(x[..n]), x[n]);
    }
  }

  lemma {:induction false} DotStrict(x: seq<real>, y: seq<real>, c: real, i: nat)
    requires |x| == |y| && NonNegative(x) && forall i :: 0 <= i < |y| ==> y[i] <= c
    requires i < |x| && x[i] > 0.0 && y[i] < c
    ensures Dot(x, y) < Times(c, Sum(x))
  {
    var n := |x| - 1;
    TimesBound(x[n], y[n], c);
    TimesPlus(c, Sum(x[..n]), x[n]);
    if i == n {
      DotBound(x[..n], y[..n], c);
    } else {
      DotStrict(x[..n], y[..n], c, i);
    }
  }

  lemma {:induction false} DotConstant(x: seq<real>, y: seq<real>, c: real)
    requires |x| == |y| && forall i :: 0 <= i < |y| ==> y[i] == c
    ensures Dot(x, y) == Times(c, Sum(x))
  {
    if x != [] {
      var n := |x| - 1;
      DotConstant(x[..n], y[..n], c);
      TimesPlus(c, Sum(x[..n]), x[n]);
      assert Times(x[n], y[n]) == Times(c, x[n]);
    }
  }

  lemma {:induction false} DotPlus(x: seq<real>, y: seq<real>, z: seq<real>, w: seq<real>)
    requires |x| == |y| == |z| == |w| && forall i :: 0 <= i < |y| ==> w[i] == y[i] + z[i]
    ensures Dot(x, w) == Dot(x, y) + Dot(x, z)
  {
    if x != [] {
      var n := |x| - 1;
      DotPlus(x[..n], y[..n], z[..n], w[..n]);
      TimesPlus(x[n], y[n], z[n]);
    }
  }

  lemma {:induction false} DotMinus(x: seq<real>, y: seq<real>, z: seq<real>)
    requires |x| == |y| == |z|
    ensures Dot(Minus(x, y), z) == Dot(x, z) - Dot(y, z)
  {
    if x != [] {
      var n := |x| - 1;
      assert Minus(x, y)[..n] == Minus(x[..n], y[..n]);
      DotMinus(x[..n], y[..n], z[..n]);
      TimesPlus(z[n], x[n], y[n]);
    }
  }

  lemma {:induction false} DotAbs(x: seq<real>, z: seq<real>)
    requires |x| == |z| && NonNegative(z)
    ensures Abs(Dot(x, z)) <= Dot(AbsAll(x), z)
  {
    if x != [] {
      var n := |x| - 1;
      assert AbsAll(x)[..n] == AbsAll(x[..n]);
      DotAbs(x[..n], z[..n]);
      TimesAbs(x[n], z[n]);
    }
  }

  // ---- scattering along arcs ----

  /** A share `g` of what `from` holds goes to `to`. */
  datatype Arc = Arc(from: nat, to: nat, g: real)

  predicate ArcsIn(arcs: seq<Arc>, n: nat) {
    forall e :: 0 <= e < |arcs| ==> arcs[e].from < n && arcs[e].to < n
  }

  /** What the arc carries. */
  function Load(x: seq<real>, a: Arc): real
    requires a.from < |x|
  {
    Times(x[a.from], a.g)
  }

  /** `init` after the first `k` arcs have delivered their loads. */
  function Scatter(arcs: seq<Arc>, x: seq<real>, init: seq<real>, k: nat): (r: seq<real>)
    requires ArcsIn(arcs, |x|) && |init| == |x| && k <= |arcs|
    ensures |r| == |x|
  {
    if k == 0 then init
    else Bump(Scatter(arcs, x, init, k - 1), arcs[k - 1].to, Load(x, arcs[k - 1]))
  }

  /** For each node, the total share that the first `k` arcs take of what it holds. */
  function Shares(arcs: seq<Arc>, n: nat, k: nat): (r: seq<real>)
    requires ArcsIn(arcs, n) && k <= |arcs|
    ensures |r| == n
  {
    if k == 0 then Zeros(n)
    else Bump(Shares(arcs, n, k - 1), arcs[k - 1].from, arcs[k - 1].g)
  }

  /** What is scattered in all is each node's holding times its total share. */
  lemma DotLoad(x: seq<real>, y: seq<real>, a: Arc)
    requires |x| == |y| && a.from < |x|
    ensures Dot(x, Bump(y, a.from, a.g)) == Dot(x, y) + Load(x, a)
  {
    DotBump(x, y, a.from, a.g);
  }

  lemma {:induction false} ScatterSum(arcs: seq<Arc>, x: seq<real>, init: seq<real>, k: nat)
    requires ArcsIn(arcs, |x|) && |init| == |x| && k <= |arcs|
    ensures Sum(Scatter(arcs, x, init, k)) == Sum(init) + Dot(x, Shares(arcs, |x|, k))
  {
    if k == 0 {
      DotZeros(x);
    } else {
      var a := arcs[k - 1];
      ScatterSum(arcs, x, init, k - 1);
      SumBump(Scatter(arcs, x, init, k - 1), a.to, Load(x, a));
      DotLoad(x, Shares(arcs, |x|, k - 1), a);
    }
  }

  lemma LoadAbs(x: seq<real>, a: Arc)
    requires a.from < |x| && a.g >= 0.0
    ensures Abs(Load(x, a)) == Load(AbsAll(x), a)
  {
    TimesAbs(x[a.from], a.g);
  }

  lemma {:induction false} ScatterNorm(arcs: seq<Arc>, x: seq<real>, k: nat)
    requires ArcsIn(arcs, |x|) && k <= |arcs|
    requires forall e :: 0 <= e < |arcs| ==> arcs[e].g >= 0.0
    ensures Norm(Scatter(arcs, x, Zeros(|x|), k)) <= Dot(AbsAll(x), Shares(arcs, |x|, k))
  {
    if k == 0 {
      NormZeros(|x|);
      DotZeros(AbsAll(x));
    } else {
      var a, y := arcs[k - 1], AbsAll(x);
      var p := Scatter(arcs, x, Zeros(|x|), k - 1);
      var q := Shares(arcs, |x|, k - 1);
      ScatterNorm(arcs, x, k - 1);
      LoadAbs(x, a);
      assert Norm(Bump(p, a.to, Load(x, a))) <= Dot(y, q) + Load(y, a) by {
        NormBump(p, a.to, Load(x, a));
      }
      DotLoad(y, q, a);
    }
  }

  lemma LoadMinus(x: seq<real>, y: seq<real>, a: Arc)
    requires |x| == |y| && a.from < |x|
    ensures Load(Minus(x, y), a) == Load(x, a) - Load(y, a)
  {
    TimesPlus(a.g, x[a.from], y[a.from]);
  }

  lemma BumpMinus(x: seq<real>, y: seq<real>, i: nat, c: real, d: real)
    requires |x| == |y| && i < |x|
    ensures Minus(Bump(x, i, c), Bump(y, i, d)) == Bump(Minus(x, y), i, c - d)
  {
  }

  lemma {:induction false} ScatterMinus(arcs: seq<Arc>, x: seq<real>, y: seq<real>, init: seq<real>, k: nat)
    requires ArcsIn(arcs, |x|) && |x| == |y| == |init| && k <= |arcs|
    ensures Minus(Scatter(arcs, x, init, k), Scatter(arcs, y, init, k)) == Scatter(arcs, Minus(x, y), Zeros(|x|), k)
  {
    if k == 0 {
      assert Minus(init, init) == Zeros(|x|);
    } else {
      var a := arcs[k - 1];
      ScatterMinus(arcs, x, y, init, k - 1);
      LoadMinus(x, y, a);
      BumpMinus(Scatter(arcs, x, init, k - 1), Scatter(arcs, y, init, k - 1), a.to, Load(x, a), Load(y, a));
    }
  }

  lemma {:induction false} ScatterGrows(arcs: seq<Arc>, x: seq<real>, init: seq<real>, k: nat)
    requires ArcsIn(arcs, |x|) && |init| == |x| && k <= |arcs| && NonNegative(x)
    requires forall e :: 0 <= e < |arcs| ==> arcs[e].g >= 0.0
    ensures forall i :: 0 <= i < |x| ==> Scatter(arcs, x, init, k)[i] >= init[i]
  {
    if k > 0 {
      ScatterGrows(arcs, x, init, k - 1);
      TimesAbs(x[arcs[k - 1].from], arcs[k - 1].g);
    }
  }

  // ---- shifting all entries ----

  function AddAll(x: seq<real>, c: real): (r: seq<real>)
    ensures |r| == |x|
  {
    seq(|x|, i requires 0 <= i < |x| => x[i] + c)
  }

  lemma SumAddAll(x: seq<real>, c: real)
    ensures Sum(AddAll(x, c)) == Sum(x) + Times(|x| as real, c)
  {
    SumShift(x, AddAll(x, c), c);
  }

  lemma {:induction false} NormAddAll(x: seq<real>, c: real)
    ensures Norm(AddAll(x, c)) <= Norm(x) + Times(|x| as real, Abs(c))
  {
    SumBound(AbsAll(AddAll(x, c)), AddAll(AbsAll(x), Abs(c)));
    SumAddAll(AbsAll(x), Abs(c));
  }

  lemma AddAllMinus(x: seq<real>, y: seq<real>, c: real, d: real)
    requires |x| == |y|
    ensures Minus(AddAll(x, c), AddAll(y, d)) == AddAll(Minus(x, y), c - d)
  {
  }

  lemma {:induction false} DotNonNegative(x: seq<real>, z: seq<real>)
    requires |x| == |z| && NonNegative(x) && NonNegative(z)
    ensures Dot(x, z) >= 0.0
  {
    if x != [] {
      var n := |x| - 1;
      DotNonNegative(x[..n], z[..n]);
      TimesAbs(x[n], z[n]);
    }
  }

  /** A weighted sum is at least any of its parts. */
  lemma {:induction false} DotAtLeast(x: seq<real>, z: seq<real>, i: nat)
    requires |x| == |z| && NonNegative(x) && NonNegative(z) && i < |x|
    ensures Dot(x, z) >= Times(x[i], z[i])
  {
    var n := |x| - 1;
    if i == n {
      DotNonNegative(x[..n], z[..n]);
    } else {
      DotAtLeast(x[..n], z[..n], i);
      TimesAbs(x[n], z[n]);
    }
  }

  lemma {:induction false} DotScaled(x: seq<real>, y: seq<real>, c: real)
    requires |x| == |y|
    ensures Dot(x, ScaleAll(y, c)) == Times(c, Dot(x, y))
  {
    if x != [] {
      var n := |x| - 1;
      assert ScaleAll(y, c)[..n] == ScaleAll(y[..n], c);
      DotScaled(x[..n], y[..n], c);
      TimesPlus(c, Dot(x[..n], y[..n]), Times(x[n], y[n]));
      TimesScaled(x[n], y[n], c);
    }
  }

  function ScaleAll(y: seq<real>, c: real): (r: seq<real>)
    ensures |r| == |y|
  {
    seq(|y|, i requires 0 <= i < |y| => Times(c, y[i]))
  }
}
