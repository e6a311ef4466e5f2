/** `computePageRank` of the repo map: which edges count, the JavaScript path, the native path, and
    the scores by node id. */
module RepoMap {
  import opened Sets
  import opened Vectors
  import opened CodeTypes
  import opened CsrGraph
  import opened PageRank
  import opened NativeRank

  predicate IsRanking(k: EdgeKind) {
    k.Call? || k.References? || k.Import? || k.Extends? || k.Implements?
  }

  // ---- node indices ----

  /** The index of each id: the last one, if an id occurs more than once. */
  function IndexById(nodes: seq<string>): (m: map<string, nat>)
    ensures forall id :: id in m <==> id in nodes
    ensures forall id :: id in m ==> m[id] < |nodes| && nodes[m[id]] == id
    ensures forall i :: 0 <= i < |nodes| ==> i <= m[nodes[i]]
  {
    if nodes == [] then map[]
    else
      var n := |nodes| - 1;
      assert nodes == nodes[..n] + [nodes[n]];
      IndexById(nodes[..n])[nodes[n] := n]
  }

  // ---- the edges that count ----

  /** The edge takes part: its kind ranks, both ends are known, and it is not a self-loop. */
  predicate Counts(index: map<string, nat>, e: CodeEdge) {
    IsRanking(e.kind) && e.from in index && e.to in index && index[e.from] != index[e.to]
  }

  /** The counting edges among the first `k`, by index; a weight that is not positive becomes 1. */
  ghost function Ranked(index: map<string, nat>, edges: seq<CodeEdge>, k: nat): (r: seq<(nat, nat, real)>)
    requires k <= |edges|
    ensures forall e :: 0 <= e < |r| ==> r[e].2 > 0.0 && r[e].0 != r[e].1
  {
    if k == 0 then []
    else
      var e := edges[k - 1];
      var p := Ranked(index, edges, k - 1);
      if Counts(index, e) then p + [(index[e.from], index[e.to], if e.weight > 0.0 then e.weight else 1.0)] else p
  }

  /** The positions, below `k`, of the edges that count. */
  ghost function CountingPositions(index: map<string, nat>, edges: seq<CodeEdge>, k: nat): (r: seq<nat>)
    requires k <= |edges|
    ensures forall j :: 0 <= j < |r| ==> r[j] < k
  {
    if k == 0 then []
    else CountingPositions(index, edges, k - 1) + if Counts(index, edges[k - 1]) then [k - 1] else []
  }

  /** The edge is of a kind that ranks, and leads from one known node to another. */
  ghost predicate Ranks(index: map<string, nat>, e: CodeEdge) {
    && e.kind in {Call, References, Import, Extends, Implements}
    && e.from in index && e.to in index && index[e.from] != index[e.to]
  }

  /** `r` is the edge by node index, with its weight if that is positive and 1 otherwise. */
  ghost predicate IsIndexed(index: map<string, nat>, e: CodeEdge, r: (nat, nat, real)) {
    && e.from in index && e.to in index && r.0 == index[e.from] && r.1 == index[e.to]
    && (if e.weight > 0.0 then r.2 == e.weight else r.2 == 1.0)
  }

  lemma CountsExactly(index: map<string, nat>, e: CodeEdge)
    ensures Counts(index, e) <==> Ranks(index, e)
  {
  }

  /** The ranked edges are, in order, the call, reference, import, inheritance and implementation edges
      between two different known nodes. */
  lemma {:induction false} RankedExactly(index: map<string, nat>, edges: seq<CodeEdge>, k: nat)
    requires k <= |edges|
    ensures var pos, r := CountingPositions(index, edges, k), Ranked(index, edges, k);
            && Selects(pos, k, i requires 0 <= i < |edges| => Ranks(index, edges[i]))
            && |r| == |pos| && forall j :: 0 <= j < |r| ==> IsIndexed(index, edges[pos[j]], r[j])
  {
    if k > 0 {
      RankedExactly(index, edges, k - 1);
      CountsExactly(index, edges[k - 1]);
    }
  }

  lemma {:induction false} RankedInRange(nodes: seq<string>, edges: seq<CodeEdge>, k: nat)
    requires k <= |edges|
    ensures InRange(Ranked(IndexById(nodes), edges, k), |nodes|)
  {
    if k > 0 {
      RankedInRange(nodes, edges, k - 1);
    }
  }

  ghost predicate InRange(raw: seq<(nat, nat, real)>, n: nat) {
    forall e :: 0 <= e < |raw| ==> raw[e].0 < n && raw[e].1 < n && raw[e].2 > 0.0
  }

  lemma {:induction false} InRangeWithin(raw: seq<(nat, nat, real)>, n: nat, k: nat)
    requires InRange(raw, n) && k <= |raw|
    ensures Within(raw, n, k) == raw[..k] && SentOf(raw, n, k) == OutWeights(raw, n, k)
    ensures forall e :: 0 <= e < k ==> OutWeights(raw, n, k)[raw[e].0] > 0.0
    ensures NonNegative(OutWeights(raw, n, k))
  {
    if k > 0 {
      InRangeWithin(raw, n, k - 1);
    }
  }

  /** The net of the JavaScript path: it divides by the out-weight itself. */
  ghost function JsNet(n: nat, raw: seq<(nat, nat, real)>): (g: Net)
    requires n > 0 && InRange(raw, n)
    ensures NetOk(g) && g.edges == raw == Within(raw, n, |raw|)
  {
    InRangeWithin(raw, n, |raw|);
    var out := OutWeights(raw, n, |raw|);
    Net(n, raw, out, out)
  }

  method CollectEdges(nodes: seq<string>, edges: seq<CodeEdge>) returns (raw: seq<(nat, nat, real)>)
    ensures raw == Ranked(IndexById(nodes), edges, |edges|) && InRange(raw, |nodes|)
  {
    var index := IndexById(nodes);
    raw := [];
    for i := 0 to |edges|
      invariant raw == Ranked(index, edges, i)
    {
      var e := edges[i];
      if !IsRanking(e.kind) {
        continue;
      }
      if e.from !in index || e.to !in index || index[e.from] == index[e.to] {
        continue;
      }
      raw := raw + [(index[e.from], index[e.to], if e.weight > 0.0 then e.weight else 1.0)];
    }
    RankedInRange(nodes, edges, |edges|);
  }

  method JsPath(n: nat, raw: seq<(nat, nat, real)>, damping: real, iterations: nat) returns (ranks: seq<real>)
    requires n > 0 && InRange(raw, n)
    ensures ranks == Iterate(JsNet(n, raw), damping, Uniform(n), iterations)
  {
    var outWeight := new real[n](i => 0.0);
    assert outWeight[..] == Zeros(n);
    for i := 0 to |raw|
      invariant outWeight[..] == OutWeights(raw, n, i)
    {
      var (from, to, w) := raw[i];
      outWeight[from] := outWeight[from] + w;
    }
    var out := outWeight[..];
    var rank := PowerIteration(JsNet(n, raw), n, raw, out, out, damping, iterations);
    ranks := rank[..];
  }

  /** The rank vector of either path. */
  ghost function RanksOf(nodes: seq<string>, edges: seq<CodeEdge>, d: real, k: nat, native: bool): (r: seq<real>)
    requires nodes != []
    ensures |r| == |nodes|
  {
    RankedInRange(nodes, edges, |edges|);
    var raw := Ranked(IndexById(nodes), edges, |edges|);
    Iterate(if native then NativeNet(|nodes|, raw) else JsNet(|nodes|, raw), d, Uniform(|nodes|), k)
  }

  method ComputePageRank(nodes: seq<string>, edges: seq<CodeEdge>, damping: real, iterations: nat, native: bool)
    returns (scores: map<string, real>)
    ensures forall id :: id in scores <==> id in nodes
    ensures nodes != [] ==>
              forall id :: id in scores ==>
                scores[id] == RanksOf(nodes, edges, damping, iterations, native)[IndexById(nodes)[id]]
    ensures nodes != [] && 0.0 <= damping <= 1.0 ==>
              (SumOver(scores.Keys, scores) == 1.0 <==>
                 Distinct(nodes) && (native ==> NoTinyOutWeight(nodes, edges) || damping == 0.0 || iterations == 0))
  {
    scores := map[];
    var n := |nodes|;
    if n == 0 {
      return;
    }
    var raw := CollectEdges(nodes, edges);
    var ranks;
    if native {
      var g := Csr(seq(|raw|, i requires 0 <= i < |raw| => raw[i].0), seq(|raw|, i requires 0 <= i < |raw| => raw[i].1),
                   seq(|raw|, i requires 0 <= i < |raw| => raw[i].2));
      assert RawEdges(g) == raw;
      ranks := Pagerank(n, g, damping, iterations);
    } else {
      ranks := JsPath(n, raw, damping, iterations);
    }
    scores := ScoresById(nodes, ranks);
    ScoresAreKept(nodes, ranks, scores);
    if 0.0 <= damping <= 1.0 {
      ScoresSumToOne(nodes, edges, damping, iterations, native);
    }
  }

  method ScoresById(nodes: seq<string>, ranks: seq<real>) returns (scores: map<string, real>)
    requires |ranks| == |nodes|
    ensures forall id :: id in scores <==> id in nodes
    ensures forall id :: id in scores ==> scores[id] == ranks[IndexById(nodes)[id]]
  {
    scores := map[];
    for i := 0 to |nodes|
      invariant forall id :: id in scores <==> id in nodes[..i]
      invariant forall id :: id in scores ==> scores[id] == ranks[IndexById(nodes[..i])[id]]
    {
      assert nodes[..i + 1][..i] == nodes[..i];
      scores := scores[nodes[i] := ranks[i]];
    }
    assert nodes[..|nodes|] == nodes;
  }

  // ---- laws ----

  lemma JsFair(n: nat, raw: seq<(nat, nat, real)>)
    requires n > 0 && InRange(raw, n)
    ensures Fair(JsNet(n, raw)) && Conserving(JsNet(n, raw))
  {
    var g := JsNet(n, raw);
    InRangeWithin(raw, n, |raw|);
    SentOfWithin(g, raw, |raw|);
  }

  /** The JavaScript ranks are a distribution with a floor, whatever the graph. */
  lemma JsMass(nodes: seq<string>, edges: seq<CodeEdge>, d: real, k: nat)
    requires nodes != [] && 0.0 <= d <= 1.0
    ensures Sum(RanksOf(nodes, edges, d, k, false)) == 1.0
    ensures forall i :: 0 <= i < |nodes| ==> RanksOf(nodes, edges, d, k, false)[i] >= (1.0 - d) / |nodes| as real
  {
    RankedInRange(nodes, edges, |edges|);
    var raw := Ranked(IndexById(nodes), edges, |edges|);
    JsFair(|nodes|, raw);
    MassIsOne(JsNet(|nodes|, raw), d, k);
    IterateFloor(JsNet(|nodes|, raw), d, k);
  }

  /** No out-weight lies strictly between 0 and the smallest divisor of the native kernel. */
  ghost predicate NoTinyOutWeight(nodes: seq<string>, edges: seq<CodeEdge>) {
    var raw := Ranked(IndexById(nodes), edges, |edges|);
    forall i :: 0 <= i < |nodes| ==> var w := OutWeights(raw, |nodes|, |raw|)[i]; w == 0.0 || w >= 0.000000001
  }

  /** The native path gives the same ranks as the JavaScript path if and only if no node's out-weight
      is positive and below the kernel's smallest divisor, or nothing is passed on at all. */
  lemma PathsAgree(nodes: seq<string>, edges: seq<CodeEdge>, d: real, k: nat)
    requires nodes != [] && 0.0 <= d <= 1.0
    ensures RanksOf(nodes, edges, d, k, true) == RanksOf(nodes, edges, d, k, false) <==>
              NoTinyOutWeight(nodes, edges) || d == 0.0 || k == 0
  {
    var n := |nodes|;
    RankedInRange(nodes, edges, |edges|);
    var raw := Ranked(IndexById(nodes), edges, |edges|);
    NativeLoss(nodes, edges, d, k);
    JsMass(nodes, edges, d, k);
    InRangeWithin(raw, n, |raw|);
    if NoTinyOutWeight(nodes, edges) || d == 0.0 || k == 0 {
      SameDivisors(JsNet(n, raw), NativeNet(n, raw), d, k);
    }
  }

  /** The mass of the native ranks on the edges that count. */
  lemma NativeLoss(nodes: seq<string>, edges: seq<CodeEdge>, d: real, k: nat)
    requires nodes != [] && 0.0 <= d <= 1.0
    ensures var r := RanksOf(nodes, edges, d, k, true);
            && (forall i :: 0 <= i < |nodes| ==> r[i] >= (1.0 - d) / |nodes| as real)
            && Sum(r) <= 1.0
            && (Sum(r) == 1.0 <==> NoTinyOutWeight(nodes, edges) || d == 0.0 || k == 0)
  {
    var n := |nodes|;
    RankedInRange(nodes, edges, |edges|);
    var raw := Ranked(IndexById(nodes), edges, |edges|);
    InRangeWithin(raw, n, |raw|);
    NativeMass(n, raw, d, k);
    assert Lossless(n, raw) <==> NoTinyOutWeight(nodes, edges);
  }

  /** Two nets that differ in divisors only where no edge starts run alike; so do any two that pass
      nothing on. */
  lemma {:induction false} SameDivisors(g: Net, h: Net, d: real, k: nat)
    requires NetOk(g) && NetOk(h) && g.n == h.n && g.edges == h.edges && g.out == h.out
    requires d == 0.0 || k == 0 || forall e :: 0 <= e < |g.edges| ==> g.div[g.edges[e].0] == h.div[g.edges[e].0]
    ensures Iterate(g, d, Uniform(g.n), k) == Iterate(h, d, Uniform(h.n), k)
  {
    if k > 0 {
      SameDivisors(g, h, d, k - 1);
      assert Arcs(g, d) == Arcs(h, d);
      assert Base(g, d) == Base(h, d);
      assert Dangling(g) == Dangling(h);
    }
  }

  const TINY: CodeEdge := CodeEdge("a", "b", Call, 0.0000000005)

  lemma TinyRanked()
    ensures Ranked(IndexById(["a", "b"]), [TINY], 1) == [(0, 1, 0.0000000005)]
  {
    var index := IndexById(["a", "b"]);
    assert index["a"] == 0 && index["b"] == 1;
    assert Counts(index, TINY);
    assert Ranked(index, [TINY], 0) == [];
  }

  lemma TinyOutWeight()
    ensures OutWeights([(0, 1, 0.0000000005)], 2, 1)[0] == 0.0000000005
  {
    assert OutWeights([(0, 1, 0.0000000005)], 2, 0) == [0.0, 0.0];
  }

  /** A call of half the smallest divisor's weight sets the two paths apart. */
  lemma TinyCallParts(d: real, k: nat)
    requires 0.0 < d <= 1.0 && k > 0
    ensures RanksOf(["a", "b"], [TINY], d, k, true) != RanksOf(["a", "b"], [TINY], d, k, false)
  {
    TinyIsTiny();
    PathsAgree(["a", "b"], [TINY], d, k);
  }

  lemma TinyIsTiny()
    ensures !NoTinyOutWeight(["a", "b"], [TINY])
  {
    TinyRanked();
    TinyOutWeight();
    var raw := Ranked(IndexById(["a", "b"]), [TINY], 1);
    assert OutWeights(raw, 2, |raw|)[0] == 0.0000000005;
  }

  /** The score of every id in the result, listed at the id's index; 0 elsewhere. */
  ghost function KeyScores(nodes: seq<string>, ranks: seq<real>): (r: seq<real>)
    requires |ranks| == |nodes|
    ensures |r| == |nodes|
  {
    seq(|nodes|, i requires 0 <= i < |nodes| => if IndexById(nodes)[nodes[i]] == i then ranks[i] else 0.0)
  }

  /** The JavaScript scores sum to 1 if and only if no node id occurs twice: of two nodes with the same
      id only the later one keeps its score.  The native scores need, besides, that no out-weight is
      positive and below the kernel's smallest divisor, unless nothing is passed on at all. */
  lemma ScoresSumToOne(nodes: seq<string>, edges: seq<CodeEdge>, d: real, k: nat, native: bool)
    requires nodes != [] && 0.0 <= d <= 1.0
    ensures Sum(KeyScores(nodes, RanksOf(nodes, edges, d, k, native))) == 1.0 <==>
              Distinct(nodes) && (native ==> NoTinyOutWeight(nodes, edges) || d == 0.0 || k == 0)
  {
    var r := RanksOf(nodes, edges, d, k, native);
    if native {
      NativeLoss(nodes, edges, d, k);
    } else {
      JsMass(nodes, edges, d, k);
    }
    BaseNotNegative(d, |nodes|);
    forall i | 0 <= i < |nodes| && Shadowed(nodes, i)
      ensures r[i] > 0.0
    {
      ShadowedPositive(nodes, edges, d, k, native, i);
    }
    KeysAndMass(nodes, r);
  }

  /** Two nodes with one id: the earlier one's score is lost. */
  lemma DuplicateIdLoses(d: real, k: nat, native: bool)
    requires 0.0 <= d <= 1.0
    ensures Sum(KeyScores(["a", "a"], RanksOf(["a", "a"], [], d, k, native))) != 1.0
  {
    var nodes := ["a", "a"];
    assert nodes[0] == nodes[1];
    ScoresSumToOne(nodes, [], d, k, native);
  }

  lemma BaseNotNegative(d: real, n: nat)
    requires d <= 1.0 && n > 0
    ensures (1.0 - d) / n as real >= 0.0
  {
  }

  /** A later node has the id of this one. */
  ghost predicate Shadowed(nodes: seq<string>, i: nat)
    requires i < |nodes|
  {
    IndexById(nodes)[nodes[i]] != i
  }

  /** No edge that counts starts at a shadowed node. */
  lemma {:induction false} ShadowedUnused(nodes: seq<string>, edges: seq<CodeEdge>, k: nat, i: nat)
    requires k <= |edges| && i < |nodes| && Shadowed(nodes, i)
    ensures forall e :: 0 <= e < |Ranked(IndexById(nodes), edges, k)| ==> Ranked(IndexById(nodes), edges, k)[e].0 != i
  {
    if k > 0 {
      ShadowedUnused(nodes, edges, k - 1, i);
      var index, e := IndexById(nodes), edges[k - 1];
      assert e.from in index ==> nodes[index[e.from]] == e.from;
    }
  }

  lemma {:induction false} NoOutWeight(raw: seq<(nat, nat, real)>, n: nat, k: nat, i: nat)
    requires k <= |raw| && i < n && forall e :: 0 <= e < |raw| ==> raw[e].0 != i
    ensures OutWeights(raw, n, k)[i] == 0.0
  {
    if k > 0 {
      NoOutWeight(raw, n, k - 1, i);
    }
  }

  /** A shadowed node sends nothing, so its rank stays positive. */
  lemma ShadowedPositive(nodes: seq<string>, edges: seq<CodeEdge>, d: real, k: nat, native: bool, i: nat)
    requires 0.0 <= d <= 1.0 && i < |nodes| && Shadowed(nodes, i)
    ensures RanksOf(nodes, edges, d, k, native)[i] > 0.0
  {
    var n := |nodes|;
    RankedInRange(nodes, edges, |edges|);
    var raw := Ranked(IndexById(nodes), edges, |edges|);
    ShadowedUnused(nodes, edges, |edges|, i);
    NoOutWeight(raw, n, |raw|, i);
    if native {
      NativeFair(n, raw);
      DanglingStaysPositive(NativeNet(n, raw), d, k, i);
    } else {
      JsFair(n, raw);
      DanglingStaysPositive(JsNet(n, raw), d, k, i);
    }
  }

  /** The keys hold all the mass if the ids are distinct, and less otherwise. */
  lemma KeysAndMass(nodes: seq<string>, r: seq<real>)
    requires |r| == |nodes| && NonNegative(r)
    requires forall i :: 0 <= i < |nodes| && Shadowed(nodes, i) ==> r[i] > 0.0
    ensures if Distinct(nodes) then Sum(KeyScores(nodes, r)) == Sum(r) else Sum(KeyScores(nodes, r)) < Sum(r)
  {
    var index := IndexById(nodes);
    if Distinct(nodes) {
      forall i | 0 <= i < |nodes|
        ensures index[nodes[i]] == i
      {
        assert nodes[index[nodes[i]]] == nodes[i];
      }
      assert KeyScores(nodes, r) == r;
    } else {
      var i, j :| 0 <= i < j < |nodes| && nodes[i] == nodes[j];
      assert Shadowed(nodes, i);
      SumStrictBound(KeyScores(nodes, r), r, i);
    }
  }

  // ---- the sum of the scores in the result ----

  ghost function SumOver(keys: set<string>, m: map<string, real>): real
    requires keys <= m.Keys
  {
    if keys == {} then 0.0
    else
      var k :| k in keys;
      m[k] + SumOver(keys - {k}, m)
  }

  lemma {:induction false} SumOverAdd(keys: set<string>, m: map<string, real>, k: string)
    requires keys <= m.Keys && k in keys
    ensures SumOver(keys, m) == m[k] + SumOver(keys - {k}, m)
    decreases |keys|
  {
    var q :| q in keys && SumOver(keys, m) == m[q] + SumOver(keys - {q}, m);
    if q != k {
      SumOverAdd(keys - {q}, m, k);
      SumOverAdd(keys - {k}, m, q);
      assert keys - {q} - {k} == keys - {k} - {q};
    }
  }

  /** The ids whose last node is among the first `k`. */
  ghost function Settled(nodes: seq<string>, k: nat): set<string>
    requires k <= |nodes|
  {
    set i | 0 <= i < k && !Shadowed(nodes, i) :: nodes[i]
  }

  lemma SettledNext(nodes: seq<string>, k: nat)
    requires k < |nodes|
    ensures Shadowed(nodes, k) ==> Settled(nodes, k + 1) == Settled(nodes, k)
    ensures !Shadowed(nodes, k) ==>
              nodes[k] !in Settled(nodes, k) && Settled(nodes, k + 1) == Settled(nodes, k) + {nodes[k]}
  {
    if !Shadowed(nodes, k) {
      forall i | 0 <= i < k && !Shadowed(nodes, i)
        ensures nodes[i] != nodes[k]
      {
      }
    }
  }

  lemma {:induction false} ScoresUpTo(nodes: seq<string>, ranks: seq<real>, scores: map<string, real>, k: nat)
    requires |ranks| == |nodes| && k <= |nodes|
    requires forall id :: id in scores <==> id in nodes
    requires forall id :: id in scores ==> scores[id] == ranks[IndexById(nodes)[id]]
    ensures Settled(nodes, k) <= scores.Keys
    ensures SumOver(Settled(nodes, k), scores) == Sum(KeyScores(nodes, ranks)[..k])
  {
    var keyed := KeyScores(nodes, ranks);
    if k > 0 {
      ScoresUpTo(nodes, ranks, scores, k - 1);
      ScoresNext(nodes, ranks, scores, k - 1);
      assert keyed[..k][..k - 1] == keyed[..k - 1];
    }
  }

  lemma ScoresNext(nodes: seq<string>, ranks: seq<real>, scores: map<string, real>, k: nat)
    requires |ranks| == |nodes| && k < |nodes| && Settled(nodes, k) <= scores.Keys
    requires nodes[k] in scores && scores[nodes[k]] == ranks[IndexById(nodes)[nodes[k]]]
    ensures Settled(nodes, k + 1) <= scores.Keys
    ensures SumOver(Settled(nodes, k + 1), scores) == SumOver(Settled(nodes, k), scores) + KeyScores(nodes, ranks)[k]
  {
    SettledNext(nodes, k);
    if !Shadowed(nodes, k) {
      var id, before := nodes[k], Settled(nodes, k);
      SumOverAdd(before + {id}, scores, id);
      assert before + {id} - {id} == before;
    }
  }

  /** The scores in the result, added up, are the ranks that were kept. */
  lemma ScoresAreKept(nodes: seq<string>, ranks: seq<real>, scores: map<string, real>)
    requires |ranks| == |nodes|
    requires forall id :: id in scores <==> id in nodes
    requires forall id :: id in scores ==> scores[id] == ranks[IndexById(nodes)[id]]
    ensures SumOver(scores.Keys, scores) == Sum(KeyScores(nodes, ranks))
  {
    ScoresUpTo(nodes, ranks, scores, |nodes|);
    assert KeyScores(nodes, ranks)[..|nodes|] == KeyScores(nodes, ranks);
    forall id | id in nodes
      ensures id in Settled(nodes, |nodes|)
    {
      var i := IndexById(nodes)[id];
      assert nodes[i] == id && !Shadowed(nodes, i);
    }
    assert Settled(nodes, |nodes|) == scores.Keys;
  }
}
