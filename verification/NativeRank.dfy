/** The native `pagerank` over flat edge arrays, and when it keeps the total rank at 1. */
module NativeRank {
  import opened Vectors
  import opened CsrGraph
  import opened PageRank

  /** The edges as the kernel sees them: a missing weight counts as 1. */
  function RawEdges(g: Csr): (raw: seq<(nat, nat, real)>)
    requires g.Valid()
    ensures |raw| == |g.from|
    ensures forall i :: 0 <= i < |raw| ==> raw[i].0 == g.from[i] && raw[i].1 == g.to[i]
    ensures forall i :: 0 <= i < |raw| ==> (if i < |g.weight| then raw[i].2 == g.weight[i] else raw[i].2 == 1.0)
  {
    seq(|g.from|, i requires 0 <= i < |g.from| =>
      (g.from[i], g.to[i], if i < |g.weight| then g.weight[i] else 1.0))
  }

  /** The weight of the first `k` edges that start at each node, wherever they lead. */
  function OutWeights(raw: seq<(nat, nat, real)>, n: nat, k: nat): (r: seq<real>)
    requires k <= |raw|
    ensures |r| == n
  {
    if k == 0 then Zeros(n)
    else
      var p := OutWeights(raw, n, k - 1);
      if raw[k - 1].0 < n then Bump(p, raw[k - 1].0, raw[k - 1].2) else p
  }

  function AtLeastEps(w: seq<real>): (r: seq<real>)
    ensures |r| == |w|
    ensures forall i :: 0 <= i < |w| ==> w[i] <= r[i] && 0.000000001 <= r[i] && (r[i] == w[i] || r[i] == 0.000000001)
  {
    seq(|w|, i requires 0 <= i < |w| => if w[i] >= EPS then w[i] else EPS)
  }

  ghost function NativeNet(n: nat, raw: seq<(nat, nat, real)>): (g: Net)
    requires n > 0
    ensures NetOk(g)
  {
    var out := OutWeights(raw, n, |raw|);
    Net(n, Within(raw, n, |raw|), out, AtLeastEps(out))
  }

  method Pagerank(n: nat, g: Csr, damping: real, iterations: nat) returns (ranks: seq<real>)
    requires g.Valid()
    ensures n == 0 ==> ranks == []
    ensures n > 0 ==> ranks == Iterate(NativeNet(n, RawEdges(g)), damping, Uniform(n), iterations)
  {
    if n == 0 {
      return [];
    }
    var raw := RawEdges(g);
    var outWeight := new real[n](i => 0.0);
    assert outWeight[..] == Zeros(n);
    for i := 0 to |raw|
      invariant outWeight[..] == OutWeights(raw, n, i)
    {
      var (from, to, w) := raw[i];
      if from < n {
        outWeight[from] := outWeight[from] + w;
      }
    }
    var out := outWeight[..];
    var rank := PowerIteration(NativeNet(n, raw), n, raw, out, AtLeastEps(out), damping, iterations);
    ranks := rank[..];
  }

  // ---- fairness ----

  ghost predicate NoNegativeWeight(raw: seq<(nat, nat, real)>) {
    forall e :: 0 <= e < |raw| ==> raw[e].2 >= 0.0
  }

  /** The net's edges from the first `k` of the list. */
  ghost function SentOf(raw: seq<(nat, nat, real)>, n: nat, k: nat): (r: seq<real>)
    requires k <= |raw|
    ensures |r| == n
  {
    if k == 0 then Zeros(n)
    else
      var p := SentOf(raw, n, k - 1);
      if raw[k - 1].0 < n && raw[k - 1].1 < n then Bump(p, raw[k - 1].0, raw[k - 1].2) else p
  }

  lemma {:induction false} SentOfWithin(g: Net, raw: seq<(nat, nat, real)>, k: nat)
    requires NetOk(g) && g.edges == Within(raw, g.n, |raw|) && k <= |raw|
    ensures |Within(raw, g.n, k)| <= |g.edges| && Sent(g, |Within(raw, g.n, k)|) == SentOf(raw, g.n, k)
  {
    if k > 0 {
      SentOfWithin(g, raw, k - 1);
      WithinNext(raw, g.n, k - 1);
    }
  }

  lemma {:induction false} WithinWeights(raw: seq<(nat, nat, real)>, n: nat, k: nat)
    requires NoNegativeWeight(raw) && k <= |raw|
    ensures forall e :: 0 <= e < |Within(raw, n, k)| ==> Within(raw, n, k)[e].2 >= 0.0
  {
    if k > 0 {
      WithinWeights(raw, n, k - 1);
    }
  }

  /** A positive-weight edge among the first `k` leads from `i` out of the nodes below `n`. */
  ghost predicate Leaves(raw: seq<(nat, nat, real)>, n: nat, k: nat, i: nat)
    requires k <= |raw|
  {
    exists e :: 0 <= e < k && raw[e].0 == i && raw[e].1 >= n && raw[e].2 > 0.0
  }

  /** What a node sends within the net falls short of its out-weight by the edges that leave. */
  lemma {:induction false} SentVersusOut(raw: seq<(nat, nat, real)>, n: nat, k: nat, i: nat)
    requires NoNegativeWeight(raw) && k <= |raw| && i < n
    ensures 0.0 <= SentOf(raw, n, k)[i] <= OutWeights(raw, n, k)[i]
    ensures SentOf(raw, n, k)[i] == OutWeights(raw, n, k)[i] <==> !Leaves(raw, n, k, i)
  {
    if k > 0 {
      SentVersusOut(raw, n, k - 1, i);
      var e := raw[k - 1];
      assert Leaves(raw, n, k, i) <==> Leaves(raw, n, k - 1, i) || (e.0 == i && e.1 >= n && e.2 > 0.0);
    }
  }

  lemma NativeFair(n: nat, raw: seq<(nat, nat, real)>)
    requires n > 0 && NoNegativeWeight(raw)
    ensures Fair(NativeNet(n, raw))
    ensures AllSent(NativeNet(n, raw)) == SentOf(raw, n, |raw|)
  {
    var g := NativeNet(n, raw);
    SentOfWithin(g, raw, |raw|);
    WithinWeights(raw, n, |raw|);
    forall i | 0 <= i < n
      ensures AllSent(g)[i] <= g.out[i] <= g.div[i]
    {
      SentVersusOut(raw, n, |raw|, i);
    }
  }

  /** No edge of positive weight leaves the graph, and no out-weight lies strictly between 0 and the
      smallest divisor. */
  ghost predicate Lossless(n: nat, raw: seq<(nat, nat, real)>) {
    forall i :: 0 <= i < n && OutWeights(raw, n, |raw|)[i] != 0.0 ==>
      OutWeights(raw, n, |raw|)[i] >= 0.000000001 && !Leaves(raw, n, |raw|, i)
  }

  lemma LosslessConserves(n: nat, raw: seq<(nat, nat, real)>)
    requires n > 0 && NoNegativeWeight(raw)
    ensures Conserving(NativeNet(n, raw)) <==> Lossless(n, raw)
  {
    var g := NativeNet(n, raw);
    NativeFair(n, raw);
    forall i | 0 <= i < n
      ensures (g.out[i] == 0.0 || AllSent(g)[i] == g.div[i])
          <==> (OutWeights(raw, n, |raw|)[i] != 0.0 ==>
                  OutWeights(raw, n, |raw|)[i] >= EPS && !Leaves(raw, n, |raw|, i))
    {
      SentVersusOut(raw, n, |raw|, i);
    }
  }

  /** With non-negative weights, every native result is non-negative and sums to at most 1; it sums
      to exactly 1 if and only if the edges are lossless, or nothing is passed on at all. */
  lemma NativeMass(n: nat, raw: seq<(nat, nat, real)>, d: real, k: nat)
    requires n > 0 && NoNegativeWeight(raw) && 0.0 <= d <= 1.0
    ensures var r := Iterate(NativeNet(n, raw), d, Uniform(n), k);
            && (forall i :: 0 <= i < n ==> r[i] >= (1.0 - d) / n as real)
            && Sum(r) <= 1.0
            && (Sum(r) == 1.0 <==> Lossless(n, raw) || d == 0.0 || k == 0)
  {
    var g := NativeNet(n, raw);
    NativeFair(n, raw);
    IterateFloor(g, d, k);
    MassAtMostOne(g, d, k);
    MassExactly(g, d, k);
    LosslessConserves(n, raw);
  }

  /** One node with an edge of weight 1 to a node beyond the graph: its rank leaks away. */
  lemma LeavingWeightLoses(d: real, k: nat)
    requires 0.0 < d <= 1.0 && k > 0
    ensures Sum(Iterate(NativeNet(1, [(0, 1, 1.0)]), d, Uniform(1), k)) < 1.0
  {
    var raw: seq<(nat, nat, real)> := [(0, 1, 1.0)];
    assert OutWeights(raw, 1, 0) == [0.0] && OutWeights(raw, 1, 1)[0] == 1.0;
    assert raw[0].0 == 0 && raw[0].1 >= 1 && raw[0].2 > 0.0;
    assert Leaves(raw, 1, 1, 0);
    NativeMass(1, raw, d, k);
  }

  /** Two nodes with an edge of half the smallest divisor: half of what it carries is lost. */
  lemma TinyWeightLoses(d: real, k: nat)
    requires 0.0 < d <= 1.0 && k > 0
    ensures Sum(Iterate(NativeNet(2, [(0, 1, 0.0000000005)]), d, Uniform(2), k)) < 1.0
  {
    var raw: seq<(nat, nat, real)> := [(0, 1, 0.0000000005)];
    assert OutWeights(raw, 2, 0) == [0.0, 0.0] && OutWeights(raw, 2, 1)[0] == 0.0000000005;
    NativeMass(2, raw, d, k);
  }
}
