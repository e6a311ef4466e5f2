/** PageRank by power iteration on a net of weighted edges, and its mass and contraction laws. */
module PageRank {
  import opened Reals
  import opened Vectors

  const EPS: real := 0.000000001

  // ---- one iteration ----

  /** What an iteration works with: the nodes below `n`, the edges with both ends below `n`, the
      out-weight of each node and the divisor used for it. */
  datatype Net = Net(n: nat, edges: seq<(nat, nat, real)>, out: seq<real>, div: seq<real>)

  ghost predicate NetOk(g: Net) {
    && g.n > 0 && |g.out| == |g.div| == g.n
    && forall e :: 0 <= e < |g.edges| ==> g.edges[e].0 < g.n && g.edges[e].1 < g.n && g.div[g.edges[e].0] > 0.0
  }

  /** The share of its rank that a node sends along an edge. */
  ghost function ArcOf(g: Net, d: real, e: (nat, nat, real)): Arc
    requires e.0 < |g.div| && g.div[e.0] > 0.0
  {
    Arc(e.0, e.1, d * e.2 / g.div[e.0])
  }

  ghost function Arcs(g: Net, d: real): (arcs: seq<Arc>)
    requires NetOk(g)
    ensures |arcs| == |g.edges| && ArcsIn(arcs, g.n)
  {
    seq(|g.edges|, e requires 0 <= e < |g.edges| => ArcOf(g, d, g.edges[e]))
  }

  /** 1 for the nodes without out-weight. */
  ghost function Dangling(g: Net): (z: seq<real>)
    requires |g.out| == g.n
    ensures |z| == g.n && NonNegative(z)
  {
    seq(g.n, i requires 0 <= i < g.n => if g.out[i] == 0.0 then 1.0 else 0.0)
  }

  /** What every node gets of the dangling mass. */
  ghost function DanglingShare(g: Net, d: real, rank: seq<real>): real
    requires NetOk(g) && |rank| == g.n
  {
    ShareOf(d, Dot(rank, Dangling(g)), g.n)
  }

  function ShareOf(d: real, mass: real, n: nat): real
    requires n > 0
  {
    d * mass / n as real
  }

  ghost function Base(g: Net, d: real): (b: seq<real>)
    requires g.n > 0
    ensures |b| == g.n
  {
    seq(g.n, i => (1.0 - d) / g.n as real)
  }

  ghost function Flow(g: Net, d: real, rank: seq<real>): (r: seq<real>)
    requires NetOk(g) && |rank| == g.n
    ensures |r| == g.n
  {
    Scatter(Arcs(g, d), rank, Base(g, d), |g.edges|)
  }

  /** One iteration; the dangling share is only added when it is positive. */
  ghost function Step(g: Net, d: real, rank: seq<real>): (r: seq<real>)
    requires NetOk(g) && |rank| == g.n
    ensures |r| == g.n
  {
    var share := DanglingShare(g, d, rank);
    if share > 0.0 then AddAll(Flow(g, d, rank), share) else Flow(g, d, rank)
  }

  ghost function Iterate(g: Net, d: real, rank: seq<real>, k: nat): (r: seq<real>)
    requires NetOk(g) && |rank| == g.n
    ensures |r| == g.n
  {
    if k == 0 then rank else Step(g, d, Iterate(g, d, rank, k - 1))
  }

  ghost function Uniform(n: nat): (u: seq<real>)
    requires n > 0
    ensures |u| == n && NonNegative(u)
  {
    seq(n, i => 1.0 / n as real)
  }

  /** The first `k` edges without those that have an end outside the nodes below `n`. */
  ghost function Within(raw: seq<(nat, nat, real)>, n: nat, k: nat): (r: seq<(nat, nat, real)>)
    requires k <= |raw|
    ensures |r| <= k
    ensures forall e :: 0 <= e < |r| ==> r[e].0 < n && r[e].1 < n
  {
    if k == 0 then []
    else Within(raw, n, k - 1) + (if raw[k - 1].0 < n && raw[k - 1].1 < n then [raw[k - 1]] else [])
  }

  lemma {:induction false} WithinPrefix(raw: seq<(nat, nat, real)>, n: nat, j: nat, k: nat)
    requires j <= k <= |raw|
    ensures Within(raw, n, j) <= Within(raw, n, k)
  {
    if j < k {
      WithinPrefix(raw, n, j, k - 1);
    }
  }

  /** `iterations` times one step on the `rank` and `next` buffers. */
  method PowerIteration(ghost g: Net, n: nat, raw: seq<(nat, nat, real)>, out: seq<real>, div: seq<real>,
                        d: real, iterations: nat)
    returns (rank: array<real>)
    requires NetOk(g) && g.n == n && g.out == out && g.div == div && g.edges == Within(raw, n, |raw|)
    ensures fresh(rank) && rank.Length == n && rank[..] == Iterate(g, d, Uniform(n), iterations)
  {
    var base := (1.0 - d) / n as real;
    rank := new real[n](i => 1.0 / n as real);
    var next := new real[n](i => 0.0);
    assert rank[..] == Uniform(n);
    for k := 0 to iterations
      invariant rank.Length == n && next.Length == n && fresh(rank) && fresh(next) && rank != next
      invariant rank[..] == Iterate(g, d, Uniform(n), k)
    {
      OneStep(g, raw, out, div, d, base, rank, next);
      CopyFrom(rank, next);
    }
  }

  method CopyFrom(rank: array<real>, next: array<real>)
    requires rank.Length == next.Length && rank != next
    modifies rank
    ensures rank[..] == next[..]
  {
    forall i | 0 <= i < rank.Length {
      rank[i] := next[i];
    }
  }

  method OneStep(ghost g: Net, raw: seq<(nat, nat, real)>, out: seq<real>, div: seq<real>,
                 d: real, base: real, rank: array<real>, next: array<real>)
    requires NetOk(g) && rank.Length == next.Length == g.n && rank != next
    requires g.out == out && g.div == div && g.edges == Within(raw, g.n, |raw|)
    requires base == (1.0 - d) / g.n as real
    modifies next
    ensures next[..] == Step(g, d, rank[..])
  {
    var n := rank.Length;
    forall i | 0 <= i < n {
      next[i] := base;
    }
    assert next[..] == Base(g, d);
    var danglingMass := DanglingMass(g, out, rank);
    var danglingShare := ShareOf(d, danglingMass, n);
    ghost var r := rank[..];
    assert danglingShare == DanglingShare(g, d, r);
    AlongEdges(g, raw, div, d, rank, next);
    ghost var flow := next[..];
    assert flow == Flow(g, d, r) && rank[..] == r;
    if danglingShare > 0.0 {
      forall i | 0 <= i < n {
        next[i] := next[i] + danglingShare;
      }
      assert next[..] == AddAll(flow, danglingShare);
    }
    assert rank[..] == r;
  }

  /** `next` after the first `e` edges of the list. */
  ghost function Delivered(g: Net, raw: seq<(nat, nat, real)>, d: real, r: seq<real>, e: nat): (x: seq<real>)
    requires NetOk(g) && |r| == g.n && g.edges == Within(raw, g.n, |raw|) && e <= |raw|
    ensures |x| == g.n
  {
    WithinPrefix(raw, g.n, e, |raw|);
    Scatter(Arcs(g, d), r, Base(g, d), |Within(raw, g.n, e)|)
  }

  /** The next edge of the list is left out, or is the next edge of the net. */
  lemma WithinNext(raw: seq<(nat, nat, real)>, n: nat, e: nat)
    requires e < |raw|
    ensures var before, all := Within(raw, n, e), Within(raw, n, |raw|);
            if raw[e].0 < n && raw[e].1 < n then
              |before| < |all| && all[|before|] == raw[e] && |Within(raw, n, e + 1)| == |before| + 1
            else
              Within(raw, n, e + 1) == before
  {
    WithinPrefix(raw, n, e + 1, |raw|);
    assert raw[e].0 < n && raw[e].1 < n ==> Within(raw, n, e + 1)[|Within(raw, n, e)|] == raw[e];
  }

  /** What the `k`-th edge of the net adds. */
  lemma DeliverNext(g: Net, d: real, r: seq<real>, k: nat)
    requires NetOk(g) && |r| == g.n && k < |g.edges|
    ensures var (from, to, w) := g.edges[k];
            Scatter(Arcs(g, d), r, Base(g, d), k + 1) ==
            Bump(Scatter(Arcs(g, d), r, Base(g, d), k), to, Term(d, r[from], w, g.div[from]))
  {
    LoadAsWritten(g, d, r, g.edges[k]);
  }

  lemma DeliverEdge(g: Net, raw: seq<(nat, nat, real)>, d: real, r: seq<real>, e: nat)
    requires NetOk(g) && |r| == g.n && g.edges == Within(raw, g.n, |raw|) && e < |raw|
    ensures raw[e].0 < g.n && raw[e].1 < g.n ==>
              && g.div[raw[e].0] > 0.0
              && Delivered(g, raw, d, r, e + 1) ==
                 Bump(Delivered(g, raw, d, r, e), raw[e].1, Term(d, r[raw[e].0], raw[e].2, g.div[raw[e].0]))
    ensures !(raw[e].0 < g.n && raw[e].1 < g.n) ==> Delivered(g, raw, d, r, e + 1) == Delivered(g, raw, d, r, e)
  {
    WithinNext(raw, g.n, e);
    var k := |Within(raw, g.n, e)|;
    if raw[e].0 < g.n && raw[e].1 < g.n {
      DeliverNext(g, d, r, k);
      assert Delivered(g, raw, d, r, e + 1) == Scatter(Arcs(g, d), r, Base(g, d), k + 1);
    }
  }

  method AlongEdges(ghost g: Net, raw: seq<(nat, nat, real)>, div: seq<real>,
                    d: real, rank: array<real>, next: array<real>)
    requires NetOk(g) && rank.Length == next.Length == g.n && rank != next
    requires g.div == div && g.edges == Within(raw, g.n, |raw|)
    requires next[..] == Base(g, d)
    modifies next
    ensures next[..] == Flow(g, d, rank[..])
  {
    ghost var r := rank[..];
    for e := 0 to |raw|
      invariant rank[..] == r
      invariant next[..] == Delivered(g, raw, d, r, e)
    {
      var (from, to, w) := raw[e];
      DeliverEdge(g, raw, d, r, e);
      if from < rank.Length && to < rank.Length {
        ghost var before := next[..];
        next[to] := next[to] + Term(d, rank[from], w, div[from]);
        assert next[..] == Bump(before, to, Term(d, r[from], w, div[from]));
      }
    }
  }

  method DanglingMass(ghost g: Net, out: seq<real>, rank: array<real>) returns (mass: real)
    requires |g.out| == g.n == rank.Length && g.out == out
    ensures mass == Dot(rank[..], Dangling(g))
  {
    mass := 0.0;
    for i := 0 to rank.Length
      invariant mass == Dot(rank[..i], Dangling(g)[..i])
    {
      assert rank[..i + 1][..i] == rank[..i] && Dangling(g)[..i + 1][..i] == Dangling(g)[..i];
      if out[i] == 0.0 {
        mass := mass + rank[i];
      }
    }
    assert rank[..rank.Length] == rank[..] && Dangling(g)[..rank.Length] == Dangling(g);
  }

  /** What a node of rank `r` sends along an edge of weight `w`, as the programs write it. */
  function Term(d: real, r: real, w: real, q: real): real
    requires q > 0.0
  {
    d * r * w / q
  }

  /** The term of the programs is the load of the arc. */
  lemma LoadAsWritten(g: Net, d: real, r: seq<real>, e: (nat, nat, real))
    requires e.0 < |g.div| == |r| && g.div[e.0] > 0.0
    ensures Term(d, r[e.0], e.2, g.div[e.0]) == Load(r, ArcOf(g, d, e))
  {
    Regroup(d, r[e.0], e.2, g.div[e.0]);
  }

  lemma Regroup(d: real, r: real, w: real, q: real)
    requires q > 0.0
    ensures Term(d, r, w, q) == Times(r, d * w / q)
  {
    assert d * r * w == r * (d * w);
    assert r * (d * w) / q == r * (d * w / q);
  }

  // ---- what a step hands to each node ----

  /** What the first `k` edges bring to `v`: of the rank of each one's start, damped, the part that its
      weight is of the start's divisor. */
  ghost function Inflow(g: Net, d: real, rank: seq<real>, v: nat, k: nat): real
    requires NetOk(g) && |rank| == g.n && k <= |g.edges|
  {
    if k == 0 then 0.0
    else
      var (from, to, w) := g.edges[k - 1];
      Inflow(g, d, rank, v, k - 1) + if to == v then d * rank[from] * w / g.div[from] else 0.0
  }

  /** The ranks of those of the first `k` nodes that have no out-weight. */
  ghost function Stranded(g: Net, rank: seq<real>, k: nat): real
    requires |g.out| == |rank| && k <= |rank|
  {
    if k == 0 then 0.0 else Stranded(g, rank, k - 1) + if g.out[k - 1] == 0.0 then rank[k - 1] else 0.0
  }

  /** What a step gives a node beyond what its incoming edges bring is the same for all nodes: of the
      undamped mass and of the damped rank of the nodes without out-weight, an equal part each. */
  lemma StepFormula(g: Net, d: real, rank: seq<real>, v: nat)
    requires NetOk(g) && |rank| == g.n && NonNegative(rank) && d >= 0.0 && v < g.n
    ensures Times(g.n as real, Step(g, d, rank)[v] - Inflow(g, d, rank, v, |g.edges|)) ==
            1.0 - d + Times(d, Stranded(g, rank, g.n))
  {
    StepAt(g, d, rank, v);
    FlowFormula(g, d, rank, v, |g.edges|);
    ShareFormula(g, d, rank);
    EqualParts(Step(g, d, rank)[v] - Inflow(g, d, rank, v, |g.edges|), d, Stranded(g, rank, g.n), g.n);
  }

  lemma StepAt(g: Net, d: real, rank: seq<real>, v: nat)
    requires NetOk(g) && |rank| == g.n && NonNegative(rank) && d >= 0.0 && v < g.n
    ensures Step(g, d, rank)[v] == Flow(g, d, rank)[v] + DanglingShare(g, d, rank)
  {
    StepIsSum(g, d, rank);
  }

  lemma EqualParts(x: real, d: real, mass: real, n: nat)
    requires n > 0 && x == (1.0 - d) / n as real + ShareOf(d, mass, n)
    ensures Times(n as real, x) == 1.0 - d + Times(d, mass)
  {
    TimesPlus(n as real, (1.0 - d) / n as real, ShareOf(d, mass, n));
    SplitEvenly(1.0 - d, n);
    ShareTimes(d, mass, n);
  }

  lemma ShareFormula(g: Net, d: real, rank: seq<real>)
    requires NetOk(g) && |rank| == g.n
    ensures DanglingShare(g, d, rank) == ShareOf(d, Stranded(g, rank, g.n), g.n)
  {
    StrandedIsDot(g, rank, g.n);
    assert rank[..g.n] == rank && Dangling(g)[..g.n] == Dangling(g);
  }

  lemma {:induction false} FlowFormula(g: Net, d: real, rank: seq<real>, v: nat, k: nat)
    requires NetOk(g) && |rank| == g.n && v < g.n && k <= |g.edges|
    ensures Scatter(Arcs(g, d), rank, Base(g, d), k)[v] == (1.0 - d) / g.n as real + Inflow(g, d, rank, v, k)
  {
    if k > 0 {
      FlowFormula(g, d, rank, v, k - 1);
      FlowNext(g, d, rank, v, k - 1);
    }
  }

  /** One more edge brings as much to the flow as to the formula. */
  lemma FlowNext(g: Net, d: real, rank: seq<real>, v: nat, k: nat)
    requires NetOk(g) && |rank| == g.n && v < g.n && k < |g.edges|
    ensures Scatter(Arcs(g, d), rank, Base(g, d), k + 1)[v] - Scatter(Arcs(g, d), rank, Base(g, d), k)[v] ==
            Inflow(g, d, rank, v, k + 1) - Inflow(g, d, rank, v, k)
  {
    var e := g.edges[k];
    var t := Term(d, rank[e.0], e.2, g.div[e.0]);
    InflowNext(g, d, rank, v, k, t);
    DeliverNext(g, d, rank, k);
    BumpAt(Scatter(Arcs(g, d), rank, Base(g, d), k), e.1, t, v);
  }

  lemma InflowNext(g: Net, d: real, rank: seq<real>, v: nat, k: nat, t: real)
    requires NetOk(g) && |rank| == g.n && k < |g.edges|
    requires var e := g.edges[k]; t == Term(d, rank[e.0], e.2, g.div[e.0])
    ensures Inflow(g, d, rank, v, k + 1) == Inflow(g, d, rank, v, k) + if g.edges[k].1 == v then t else 0.0
  {
  }

  lemma BumpAt(x: seq<real>, i: nat, t: real, v: nat)
    requires i < |x| && v < |x|
    ensures Bump(x, i, t)[v] == x[v] + if i == v then t else 0.0
  {
  }

  lemma {:induction false} StrandedIsDot(g: Net, rank: seq<real>, k: nat)
    requires |g.out| == g.n == |rank| && k <= g.n
    ensures Dot(rank[..k], Dangling(g)[..k]) == Stranded(g, rank, k)
  {
    if k > 0 {
      StrandedIsDot(g, rank, k - 1);
      assert rank[..k][..k - 1] == rank[..k - 1] && Dangling(g)[..k][..k - 1] == Dangling(g)[..k - 1];
    }
  }

  // ---- what a node sends away ----

  /** For each node, the weight of its first `k` edges in the net. */
  ghost function Sent(g: Net, k: nat): (r: seq<real>)
    requires NetOk(g) && k <= |g.edges|
    ensures |r| == g.n
  {
    if k == 0 then Zeros(g.n) else Bump(Sent(g, k - 1), g.edges[k - 1].0, g.edges[k - 1].2)
  }

  ghost function AllSent(g: Net): (r: seq<real>)
    requires NetOk(g)
    ensures |r| == g.n
  {
    Sent(g, |g.edges|)
  }

  /** No weight is negative, and a node's edges weigh no more than its out-weight, nor that more than
      its divisor. */
  ghost predicate Fair(g: Net) {
    && NetOk(g)
    && (forall e :: 0 <= e < |g.edges| ==> g.edges[e].2 >= 0.0)
    && (forall i :: 0 <= i < g.n ==> AllSent(g)[i] <= g.out[i] <= g.div[i])
  }

  /** Every node either has no out-weight or sends away all it divides by. */
  ghost predicate Conserving(g: Net)
    requires NetOk(g)
  {
    forall i :: 0 <= i < g.n ==> g.out[i] == 0.0 || AllSent(g)[i] == g.div[i]
  }

  /** The part of each node's rank that is passed on in one step, along edges or as dangling mass. */
  ghost function Passed(g: Net, d: real): (r: seq<real>)
    requires NetOk(g)
    ensures |r| == g.n
  {
    var shares, dangling := Shares(Arcs(g, d), g.n, |g.edges|), ScaleAll(Dangling(g), d);
    seq(g.n, i requires 0 <= i < g.n => shares[i] + dangling[i])
  }

  lemma {:induction false} SharesAreSent(g: Net, d: real, k: nat, i: nat)
    requires NetOk(g) && k <= |g.edges| && i < g.n
    ensures g.div[i] > 0.0 ==> Shares(Arcs(g, d), g.n, k)[i] == Ratio(d, Sent(g, k)[i], g.div[i])
    ensures g.div[i] <= 0.0 ==> Shares(Arcs(g, d), g.n, k)[i] == 0.0 && Sent(g, k)[i] == 0.0
  {
    if k > 0 {
      SharesAreSent(g, d, k - 1, i);
      var e := g.edges[k - 1];
      if e.0 == i {
        RatioPlus(d, Sent(g, k - 1)[i], e.2, g.div[i]);
      }
    }
  }

  ghost function Ratio(d: real, w: real, q: real): real
    requires q > 0.0
  {
    d * w / q
  }

  lemma RatioPlus(d: real, v: real, w: real, q: real)
    requires q > 0.0
    ensures Ratio(d, v + w, q) == Ratio(d, v, q) + d * w / q
  {
    assert d * (v + w) == d * v + d * w;
  }

  /** How far the ratio falls short of `d`. */
  lemma RatioGap(d: real, w: real, q: real)
    requires q > 0.0
    ensures (d - Ratio(d, w, q)) * q == Times(q - w, d)
    ensures Ratio(d, w, q) * q == Times(w, d)
  {
    var x := Ratio(d, w, q);
    assert x * q == d * w;
    assert (d - x) * q == d * q - x * q;
  }

  lemma RatioAtMost(d: real, w: real, q: real)
    requires d >= 0.0 && q > 0.0 && w <= q
    ensures Ratio(d, w, q) <= d
  {
    RatioGap(d, w, q);
    TimesSign(q - w, d);
    SignOfProduct(d - Ratio(d, w, q), q);
  }

  lemma RatioBelow(d: real, w: real, q: real)
    requires d > 0.0 && q > 0.0 && w < q
    ensures Ratio(d, w, q) < d
  {
    RatioGap(d, w, q);
    TimesSign(q - w, d);
    SignOfProduct(d - Ratio(d, w, q), q);
  }

  lemma RatioWhole(d: real, q: real)
    requires q > 0.0
    ensures Ratio(d, q, q) == d
  {
    RatioGap(d, q, q);
    SignOfProduct(d - Ratio(d, q, q), q);
  }

  lemma RatioSign(d: real, w: real, q: real)
    requires d >= 0.0 && q > 0.0 && w >= 0.0
    ensures Ratio(d, w, q) >= 0.0
    ensures w == 0.0 ==> Ratio(d, w, q) == 0.0
  {
    RatioGap(d, w, q);
    TimesSign(w, d);
    SignOfProduct(Ratio(d, w, q), q);
  }

  lemma {:induction false} SentNonNegative(g: Net, k: nat)
    requires NetOk(g) && k <= |g.edges| && forall e :: 0 <= e < |g.edges| ==> g.edges[e].2 >= 0.0
    ensures NonNegative(Sent(g, k))
  {
    if k > 0 {
      SentNonNegative(g, k - 1);
    }
  }

  /** A fair net passes on at most `d` of each node's rank, and exactly `d` where it conserves. */
  lemma PassedBound(g: Net, d: real, i: nat)
    requires Fair(g) && d >= 0.0 && i < g.n
    ensures 0.0 <= Passed(g, d)[i] <= d
    ensures g.out[i] == 0.0 || AllSent(g)[i] == g.div[i] ==> Passed(g, d)[i] == d
    ensures d > 0.0 && !(g.out[i] == 0.0 || AllSent(g)[i] == g.div[i]) ==> Passed(g, d)[i] < d
  {
    SentNonNegative(g, |g.edges|);
    SharesAreSent(g, d, |g.edges|, i);
    var s := AllSent(g)[i];
    assert 0.0 <= s <= g.out[i] <= g.div[i];
    assert ScaleAll(Dangling(g), d)[i] == if g.out[i] == 0.0 then d else 0.0;
    if g.div[i] > 0.0 {
      RatioAtMost(d, s, g.div[i]);
      RatioSign(d, s, g.div[i]);
      RatioWhole(d, g.div[i]);
      if d > 0.0 && s < g.div[i] {
        RatioBelow(d, s, g.div[i]);
      }
    }
  }

  // ---- mass ----

  lemma SplitEvenly(c: real, n: nat)
    requires n > 0
    ensures n as real * (c / n as real) == c
  {
  }

  lemma BaseMass(g: Net, d: real)
    requires g.n > 0
    ensures Sum(Base(g, d)) == 1.0 - d
  {
    SumConstant(Base(g, d), (1.0 - d) / g.n as real);
    SplitEvenly(1.0 - d, g.n);
  }

  lemma UniformMass(n: nat)
    requires n > 0
    ensures Sum(Uniform(n)) == 1.0
  {
    SumConstant(Uniform(n), 1.0 / n as real);
    SplitEvenly(1.0, n);
  }

  lemma FlowMass(g: Net, d: real, rank: seq<real>)
    requires NetOk(g) && |rank| == g.n
    ensures Sum(Flow(g, d, rank)) == 1.0 - d + Dot(rank, Shares(Arcs(g, d), g.n, |g.edges|))
  {
    ScatterSum(Arcs(g, d), rank, Base(g, d), |g.edges|);
    BaseMass(g, d);
  }

  function Clip(x: real): real {
    if x > 0.0 then x else 0.0
  }

  lemma ClipCloser(a: real, b: real)
    ensures Abs(Clip(a) - Clip(b)) <= Abs(a - b)
  {
  }

  /** A step adds the dangling share, cut off at 0, whatever the ranks are. */
  lemma StepIsClipped(g: Net, d: real, rank: seq<real>)
    requires NetOk(g) && |rank| == g.n
    ensures Step(g, d, rank) == AddAll(Flow(g, d, rank), Clip(DanglingShare(g, d, rank)))
  {
    assert AddAll(Flow(g, d, rank), 0.0) == Flow(g, d, rank);
  }

  /** On non-negative ranks nothing is cut off. */
  lemma StepIsSum(g: Net, d: real, rank: seq<real>)
    requires NetOk(g) && |rank| == g.n && NonNegative(rank) && d >= 0.0
    ensures DanglingShare(g, d, rank) >= 0.0
    ensures Step(g, d, rank) == AddAll(Flow(g, d, rank), DanglingShare(g, d, rank))
  {
    DotNonNegative(rank, Dangling(g));
    ShareSign(d, Dot(rank, Dangling(g)), g.n);
    StepIsClipped(g, d, rank);
  }

  lemma PassedDot(g: Net, d: real, rank: seq<real>)
    requires NetOk(g) && |rank| == g.n
    ensures Dot(rank, Passed(g, d)) ==
            Dot(rank, Shares(Arcs(g, d), g.n, |g.edges|)) + Dot(rank, ScaleAll(Dangling(g), d))
  {
    DotPlus(rank, Shares(Arcs(g, d), g.n, |g.edges|), ScaleAll(Dangling(g), d), Passed(g, d));
  }

  /** The mass after a step: what is handed out anew and what is passed on. */
  lemma StepMass(g: Net, d: real, rank: seq<real>)
    requires NetOk(g) && |rank| == g.n && NonNegative(rank) && d >= 0.0
    ensures Sum(Step(g, d, rank)) == 1.0 - d + Dot(rank, Passed(g, d))
  {
    var share := DanglingShare(g, d, rank);
    StepIsSum(g, d, rank);
    SumAddAll(Flow(g, d, rank), share);
    FlowMass(g, d, rank);
    PassedDot(g, d, rank);
    DotScaled(rank, Dangling(g), d);
    ShareTimes(d, Dot(rank, Dangling(g)), g.n);
  }

  lemma ShareTimes(d: real, mass: real, n: nat)
    requires n > 0
    ensures Times(n as real, ShareOf(d, mass, n)) == Times(d, mass)
  {
  }

  lemma ShareSign(d: real, mass: real, n: nat)
    requires n > 0 && d >= 0.0 && mass >= 0.0
    ensures ShareOf(d, mass, n) >= 0.0
  {
    assert d * mass >= 0.0;
  }

  lemma ArcsNonNegative(g: Net, d: real)
    requires Fair(g) && d >= 0.0
    ensures forall e :: 0 <= e < |g.edges| ==> Arcs(g, d)[e].g >= 0.0
  {
    forall e | 0 <= e < |g.edges|
      ensures Arcs(g, d)[e].g >= 0.0
    {
      var (f, t, w) := g.edges[e];
      assert d * w >= 0.0;
    }
  }

  /** A step of a net without negative weights keeps ranks non-negative, and hands every node its
      base share at least. */
  lemma StepFloor(g: Net, d: real, rank: seq<real>)
    requires Fair(g) && |rank| == g.n && NonNegative(rank) && 0.0 <= d <= 1.0
    ensures NonNegative(Step(g, d, rank))
    ensures forall i :: 0 <= i < g.n ==> Step(g, d, rank)[i] >= (1.0 - d) / g.n as real
  {
    StepIsSum(g, d, rank);
    ArcsNonNegative(g, d);
    ScatterGrows(Arcs(g, d), rank, Base(g, d), |g.edges|);
  }

  lemma {:induction false} IterateFloor(g: Net, d: real, k: nat)
    requires Fair(g) && 0.0 <= d <= 1.0
    ensures NonNegative(Iterate(g, d, Uniform(g.n), k))
    ensures forall i :: 0 <= i < g.n ==> Iterate(g, d, Uniform(g.n), k)[i] >= (1.0 - d) / g.n as real
  {
    if k > 0 {
      IterateFloor(g, d, k - 1);
      StepFloor(g, d, Iterate(g, d, Uniform(g.n), k - 1));
    }
  }

  lemma BasePositive(d: real, n: nat)
    requires d < 1.0 && n > 0
    ensures (1.0 - d) / n as real > 0.0
  {
  }

  lemma SharePositive(d: real, mass: real, n: nat)
    requires n > 0 && d > 0.0 && mass > 0.0
    ensures ShareOf(d, mass, n) > 0.0
  {
    assert d * mass > 0.0;
  }

  /** A dangling node gets a part of its own rank back. */
  lemma DanglingStep(g: Net, d: real, rank: seq<real>, i: nat)
    requires Fair(g) && |rank| == g.n && NonNegative(rank) && 0.0 <= d <= 1.0
    requires i < g.n && g.out[i] == 0.0 && rank[i] > 0.0
    ensures Step(g, d, rank)[i] > 0.0
  {
    StepIsSum(g, d, rank);
    ArcsNonNegative(g, d);
    ScatterGrows(Arcs(g, d), rank, Base(g, d), |g.edges|);
    assert Flow(g, d, rank)[i] >= (1.0 - d) / g.n as real;
    if d < 1.0 {
      BasePositive(d, g.n);
    } else {
      DotAtLeast(rank, Dangling(g), i);
      assert Times(rank[i], Dangling(g)[i]) == rank[i];
      SharePositive(d, Dot(rank, Dangling(g)), g.n);
    }
  }

  /** The rank of a node without out-weight stays positive, whatever the damping. */
  lemma {:induction false} DanglingStaysPositive(g: Net, d: real, k: nat, i: nat)
    requires Fair(g) && 0.0 <= d <= 1.0 && i < g.n && g.out[i] == 0.0
    ensures Iterate(g, d, Uniform(g.n), k)[i] > 0.0
  {
    if k > 0 {
      DanglingStaysPositive(g, d, k - 1, i);
      IterateFloor(g, d, k - 1);
      DanglingStep(g, d, Iterate(g, d, Uniform(g.n), k - 1), i);
    }
  }

  /** No iterate of a fair net has a mass of more than 1. */
  lemma {:induction false} MassAtMostOne(g: Net, d: real, k: nat)
    requires Fair(g) && 0.0 <= d <= 1.0
    ensures Sum(Iterate(g, d, Uniform(g.n), k)) <= 1.0
  {
    var rank := Iterate(g, d, Uniform(g.n), k);
    if k == 0 {
      UniformMass(g.n);
    } else {
      var before := Iterate(g, d, Uniform(g.n), k - 1);
      MassAtMostOne(g, d, k - 1);
      IterateFloor(g, d, k - 1);
      StepMass(g, d, before);
      forall i | 0 <= i < g.n
        ensures Passed(g, d)[i] <= d
      {
        PassedBound(g, d, i);
      }
      DotBound(before, Passed(g, d), d);
      TimesBound(d, Sum(before), 1.0);
    }
  }

  lemma StepKeepsMass(g: Net, d: real, rank: seq<real>)
    requires Fair(g) && Conserving(g) && d >= 0.0 && |rank| == g.n && NonNegative(rank) && Sum(rank) == 1.0
    ensures Sum(Step(g, d, rank)) == 1.0
  {
    StepMass(g, d, rank);
    forall i | 0 <= i < g.n
      ensures Passed(g, d)[i] == d
    {
      PassedBound(g, d, i);
    }
    DotConstant(rank, Passed(g, d), d);
  }

  /** A conserving net keeps the mass at exactly 1. */
  lemma {:induction false} MassIsOne(g: Net, d: real, k: nat)
    requires Fair(g) && Conserving(g) && 0.0 <= d <= 1.0
    ensures Sum(Iterate(g, d, Uniform(g.n), k)) == 1.0
  {
    if k == 0 {
      UniformMass(g.n);
    } else {
      var before := Iterate(g, d, Uniform(g.n), k - 1);
      MassIsOne(g, d, k - 1);
      IterateFloor(g, d, k - 1);
      StepKeepsMass(g, d, before);
    }
  }

  lemma StepOfSmallerMass(g: Net, d: real, rank: seq<real>)
    requires Fair(g) && 0.0 < d && |rank| == g.n && NonNegative(rank)
    requires Sum(rank) < 1.0 || (Sum(rank) == 1.0 && !Conserving(g) && forall i :: 0 <= i < g.n ==> rank[i] > 0.0)
    ensures Sum(Step(g, d, rank)) < 1.0
  {
    StepMass(g, d, rank);
    forall i | 0 <= i < g.n
      ensures Passed(g, d)[i] <= d
    {
      PassedBound(g, d, i);
    }
    TimesBound(d, Sum(rank), 1.0);
    if Sum(rank) < 1.0 {
      DotBound(rank, Passed(g, d), d);
    } else {
      var i :| 0 <= i < g.n && !(g.out[i] == 0.0 || AllSent(g)[i] == g.div[i]);
      PassedBound(g, d, i);
      DotStrict(rank, Passed(g, d), d, i);
    }
  }

  /** Any other fair net loses mass in the first step and never recovers it. */
  lemma {:induction false} MassIsLost(g: Net, d: real, k: nat)
    requires Fair(g) && !Conserving(g) && 0.0 < d <= 1.0 && k > 0
    ensures Sum(Iterate(g, d, Uniform(g.n), k)) < 1.0
  {
    if k == 1 {
      UniformMass(g.n);
      assert Iterate(g, d, Uniform(g.n), 0) == Uniform(g.n);
    } else {
      MassIsLost(g, d, k - 1);
      IterateFloor(g, d, k - 1);
    }
    StepOfSmallerMass(g, d, Iterate(g, d, Uniform(g.n), k - 1));
  }

  /** Without damping nothing is passed on, so nothing is lost. */
  lemma {:induction false} UndampedMass(g: Net, k: nat)
    requires Fair(g)
    ensures Sum(Iterate(g, 0.0, Uniform(g.n), k)) == 1.0
  {
    if k == 0 {
      UniformMass(g.n);
    } else {
      var before := Iterate(g, 0.0, Uniform(g.n), k - 1);
      IterateFloor(g, 0.0, k - 1);
      StepMass(g, 0.0, before);
      forall i | 0 <= i < g.n
        ensures Passed(g, 0.0)[i] == 0.0
      {
        PassedBound(g, 0.0, i);
      }
      DotConstant(before, Passed(g, 0.0), 0.0);
    }
  }

  /** The ranks sum to 1 if and only if the net conserves mass, or nothing could be lost yet. */
  lemma MassExactly(g: Net, d: real, k: nat)
    requires Fair(g) && 0.0 <= d <= 1.0
    ensures Sum(Iterate(g, d, Uniform(g.n), k)) == 1.0 <==> Conserving(g) || d == 0.0 || k == 0
  {
    if Conserving(g) {
      MassIsOne(g, d, k);
    } else if d == 0.0 {
      UndampedMass(g, k);
    } else if k == 0 {
      UniformMass(g.n);
    } else {
      MassIsLost(g, d, k);
    }
  }

  // ---- contraction ----

  /** One step brings any two rank vectors closer by the factor `d`, in L1 distance. */
  lemma StepContracts(g: Net, d: real, x: seq<real>, y: seq<real>)
    requires Fair(g) && |x| == |y| == g.n && d >= 0.0
    ensures Apart(Step(g, d, x), Step(g, d, y)) <= Times(d, Apart(x, y))
  {
    var z := Minus(x, y);
    var sx, sy := DanglingShare(g, d, x), DanglingShare(g, d, y);
    StepDifference(g, d, x, y);
    NormAddAll(Scatter(Arcs(g, d), z, Zeros(g.n), |g.edges|), Clip(sx) - Clip(sy));
    ClipCloser(sx, sy);
    TimesBound(g.n as real, Abs(Clip(sx) - Clip(sy)), Abs(sx - sy));
    TimesCommutes(g.n as real, Abs(sx - sy));
    ArcsNonNegative(g, d);
    ScatterNorm(Arcs(g, d), z, |g.edges|);
    DanglingDifference(g, d, x, y);
    PassedTotal(g, d, AbsAll(z));
  }

  /** The difference of two steps is the difference of the ranks, scattered, plus that of the shares. */
  lemma StepDifference(g: Net, d: real, x: seq<real>, y: seq<real>)
    requires NetOk(g) && |x| == |y| == g.n
    ensures Minus(Step(g, d, x), Step(g, d, y)) ==
            AddAll(Scatter(Arcs(g, d), Minus(x, y), Zeros(g.n), |g.edges|),
                   Clip(DanglingShare(g, d, x)) - Clip(DanglingShare(g, d, y)))
  {
    StepIsClipped(g, d, x);
    StepIsClipped(g, d, y);
    AddAllMinus(Flow(g, d, x), Flow(g, d, y), Clip(DanglingShare(g, d, x)), Clip(DanglingShare(g, d, y)));
    ScatterMinus(Arcs(g, d), x, y, Base(g, d), |g.edges|);
  }

  /** The dangling mass hands out at most what differs among the dangling nodes. */
  lemma DanglingDifference(g: Net, d: real, x: seq<real>, y: seq<real>)
    requires NetOk(g) && |x| == |y| == g.n && d >= 0.0
    ensures Times(g.n as real, Abs(DanglingShare(g, d, x) - DanglingShare(g, d, y)))
         <= Dot(AbsAll(Minus(x, y)), ScaleAll(Dangling(g), d))
  {
    var z := Minus(x, y);
    var mx, my := Dot(x, Dangling(g)), Dot(y, Dangling(g));
    DotMinus(x, y, Dangling(g));
    DotAbs(z, Dangling(g));
    DotScaled(AbsAll(z), Dangling(g), d);
    ShareDifference(d, mx, my, g.n);
    TimesBound(d, Abs(mx - my), Dot(AbsAll(z), Dangling(g)));
  }

  lemma ShareDifference(d: real, a: real, b: real, n: nat)
    requires n > 0 && d >= 0.0
    ensures Times(n as real, Abs(ShareOf(d, a, n) - ShareOf(d, b, n))) == Times(d, Abs(a - b))
  {
    var s := ShareOf(d, a, n) - ShareOf(d, b, n);
    ShareTimes(d, a, n);
    ShareTimes(d, b, n);
    TimesPlus(n as real, ShareOf(d, a, n), ShareOf(d, b, n));
    TimesPlus(d, a, b);
    assert Times(s, n as real) == Times(a - b, d);
    TimesAbs(s, n as real);
    TimesAbs(a - b, d);
    assert Times(n as real, Abs(s)) == Times(Abs(s), n as real);
    assert Times(d, Abs(a - b)) == Times(Abs(a - b), d);
  }

  lemma PassedTotal(g: Net, d: real, x: seq<real>)
    requires Fair(g) && |x| == g.n && NonNegative(x) && d >= 0.0
    ensures Dot(x, Shares(Arcs(g, d), g.n, |g.edges|)) + Dot(x, ScaleAll(Dangling(g), d)) <= Times(d, Sum(x))
  {
    PassedDot(g, d, x);
    forall i | 0 <= i < g.n
      ensures Passed(g, d)[i] <= d
    {
      PassedBound(g, d, i);
    }
    DotBound(x, Passed(g, d), d);
  }

  /** After `k` steps two rank vectors are at most `d` to the `k` times their first distance apart. */
  lemma {:induction false} IterateContracts(g: Net, d: real, x: seq<real>, y: seq<real>, k: nat)
    requires Fair(g) && |x| == |y| == g.n && d >= 0.0
    ensures Apart(Iterate(g, d, x, k), Iterate(g, d, y, k)) <= Times(Pow(d, k), Apart(x, y))
  {
    if k == 0 {
      assert Times(1.0, Apart(x, y)) == Apart(x, y);
    } else {
      var x', y' := Iterate(g, d, x, k - 1), Iterate(g, d, y, k - 1);
      IterateContracts(g, d, x, y, k - 1);
      StepContracts(g, d, x', y');
      var before, start := Apart(x', y'), Apart(x, y);
      PowStep(d, k, before, start);
    }
  }

  lemma PowStep(d: real, k: nat, a: real, b: real)
    requires d >= 0.0 && k > 0 && a <= Times(Pow(d, k - 1), b)
    ensures Times(d, a) <= Times(Pow(d, k), b)
  {
    TimesBound(d, a, Times(Pow(d, k - 1), b));
    var p := Pow(d, k - 1);
    assert (p * b) * d == (d * p) * b;
  }

  /** Whatever the ranks settle at, the iterates approach it at the rate `d`. */
  lemma FixedPointApproached(g: Net, d: real, p: seq<real>, k: nat)
    requires Fair(g) && |p| == g.n && d >= 0.0 && Step(g, d, p) == p
    ensures Apart(Iterate(g, d, Uniform(g.n), k), p) <= Times(Pow(d, k), Apart(Uniform(g.n), p))
  {
    FixedPointStays(g, d, p, k);
    IterateContracts(g, d, Uniform(g.n), p, k);
  }

  lemma {:induction false} FixedPointStays(g: Net, d: real, p: seq<real>, k: nat)
    requires NetOk(g) && |p| == g.n && Step(g, d, p) == p
    ensures Iterate(g, d, p, k) == p
  {
    if k > 0 {
      FixedPointStays(g, d, p, k - 1);
    }
  }

  /** Below a damping of 1 there is at most one fixed point. */
  lemma FixedPointUnique(g: Net, d: real, p: seq<real>, q: seq<real>)
    requires Fair(g) && |p| == |q| == g.n && 0.0 <= d < 1.0
    requires Step(g, d, p) == p && Step(g, d, q) == q
    ensures p == q
  {
    StepContracts(g, d, p, q);
    NotShrinking(d, Apart(p, q));
    NormZero(Minus(p, q));
    forall i | 0 <= i < g.n
      ensures p[i] == q[i]
    {
      assert Minus(p, q)[i] == 0.0;
    }
  }

  lemma NotShrinking(d: real, a: real)
    requires d < 1.0 && a <= Times(d, a)
    ensures a <= 0.0
  {
    SignOfProduct(a, 1.0 - d);
    assert a * (1.0 - d) == a - d * a;
  }
}
