/** The two cycle detectors, on the same graph, agree on whether there is a cycle. */
module CyclesAgree {
  import opened Graph
  import opened CodeTypes
  import opened CsrGraph
  import KG = KnowledgeGraph
  import RepoMap
  import FindCycles
  import CycleSearch

  ghost predicate Injective(index: map<string, nat>) {
    forall a, b :: a in index && b in index && index[a] == index[b] ==> a == b
  }

  /** The edges by node index. */
  ghost function Image(E: set<(string, string)>, index: map<string, nat>): set<(nat, nat)>
    requires forall e :: e in E ==> e.0 in index && e.1 in index
  {
    set e | e in E :: (index[e.0], index[e.1])
  }

  lemma {:induction false} WalkImage(E: set<(string, string)>, index: map<string, nat>, a: string, b: string, k: nat)
    requires forall e :: e in E ==> e.0 in index && e.1 in index
    requires a in index && Walk(E, a, b, k)
    ensures b in index && Walk(Image(E, index), index[a], index[b], k)
    decreases k
  {
    if k > 0 {
      var c :| (a, c) in E && Walk(E, c, b, k - 1);
      assert (a, c).1 in index;
      WalkImage(E, index, c, b, k - 1);
      assert (index[a], index[c]) in Image(E, index);
    }
  }

  lemma {:induction false} WalkPreimage(E: set<(string, string)>, index: map<string, nat>, a: string, v: nat, k: nat)
    returns (b: string)
    requires Injective(index) && forall e :: e in E ==> e.0 in index && e.1 in index
    requires a in index && Walk(Image(E, index), index[a], v, k)
    ensures b in index && index[b] == v && Walk(E, a, b, k)
    decreases k
  {
    if k == 0 {
      b := a;
    } else {
      var w :| (index[a], w) in Image(E, index) && Walk(Image(E, index), w, v, k - 1);
      var e :| e in E && (index[e.0], index[e.1]) == (index[a], w);
      assert e.0 == a && e == (a, e.1);
      b := WalkPreimage(E, index, e.1, v, k - 1);
    }
  }

  /** Renaming nodes by their indices keeps cycles, in both directions. */
  lemma CycleImage(E: set<(string, string)>, index: map<string, nat>, x: string)
    requires Injective(index) && forall e :: e in E ==> e.0 in index && e.1 in index
    requires x in index
    ensures OnCycle(E, x) <==> OnCycle(Image(E, index), index[x])
  {
    var F := Image(E, index);
    if OnCycle(E, x) {
      var w :| (x, w) in E && Reach(E, w, x);
      var k: nat :| Walk(E, w, x, k);
      assert (x, w).1 in index;
      WalkImage(E, index, w, x, k);
      assert (index[x], index[w]) in F;
    }
    if OnCycle(F, index[x]) {
      var w :| (index[x], w) in F && Reach(F, w, index[x]);
      var k: nat :| Walk(F, w, index[x], k);
      var e :| e in E && (index[e.0], index[e.1]) == (index[x], w);
      var b := WalkPreimage(E, index, e.1, index[x], k);
      assert e == (x, e.1);
    }
  }

  lemma ReportEmpty(F: set<(nat, nat)>, sccs: seq<seq<nat>>)
    requires FindCycles.IsCycleReport(F, sccs)
    ensures sccs == [] <==> forall v: nat :: !OnCycle(F, v)
  {
    if sccs != [] {
      assert FindCycles.IsScc(F, sccs[0]);
      assert sccs[0][0] in sccs[0];
      assert FindCycles.Listed(sccs, sccs[0][0]);
    } else {
      forall v: nat
        ensures !OnCycle(F, v)
      {
        assert !FindCycles.Listed(sccs, v);
      }
    }
  }

  /** When every edge end is a node, the depth-first detector finds nothing if and only if the
      component search over the same graph reports nothing. */
  lemma DetectorsAgree(E: set<(string, string)>, index: map<string, nat>, cycles: seq<seq<string>>, sccs: seq<seq<nat>>)
    requires Injective(index) && forall e :: e in E ==> e.0 in index && e.1 in index
    requires cycles == [] <==> forall x :: CycleSearch.FromKeys(E, index.Keys, x) ==> !OnCycle(E, x)
    requires FindCycles.IsCycleReport(Image(E, index), sccs)
    ensures cycles == [] <==> sccs == []
  {
    var F := Image(E, index);
    ReportEmpty(F, sccs);
    forall x | OnCycle(E, x)
      ensures x in index
    {
      var w :| (x, w) in E && Reach(E, w, x);
      assert (x, w).0 in index;
    }
    if x :| x in index && OnCycle(E, x) {
      CycleImage(E, index, x);
      ReachSelf(E, x);
      assert CycleSearch.FromKeys(E, index.Keys, x);
    } else {
      forall v: nat
        ensures !OnCycle(F, v)
      {
        if OnCycle(F, v) {
          var w :| (v, w) in F && Reach(F, w, v);
          var e :| e in E && (index[e.0], index[e.1]) == (v, w);
          CycleImage(E, index, e.0);
        }
      }
    }
  }

  /** The flat arrays of the edges, by node index. */
  ghost predicate IsFlat(edges: seq<CodeEdge>, index: map<string, nat>, g: Csr) {
    && |g.from| == |g.to| == |edges|
    && forall i :: 0 <= i < |edges| ==>
         edges[i].from in index && edges[i].to in index
         && g.from[i] == index[edges[i].from] && g.to[i] == index[edges[i].to]
  }

  /** The component search sees exactly the edges of the graph, by index. */
  lemma FlatImage(edges: seq<CodeEdge>, index: map<string, nat>, n: nat, g: Csr)
    requires IsFlat(edges, index, g) && forall id :: id in index ==> index[id] < n
    ensures forall e :: e in EdgePairs(edges) ==> e.0 in index && e.1 in index
    ensures g.Inner(n) == Image(EdgePairs(edges), index)
  {
    forall i | 0 <= i < |edges|
      ensures (edges[i].from, edges[i].to) in EdgePairs(edges)
      ensures (g.from[i], g.to[i]) in g.Inner(n)
    {
      assert edges[i] in edges;
    }
    forall e | e in Image(EdgePairs(edges), index)
      ensures e in g.Inner(n)
    {
      var p :| p in EdgePairs(edges) && (index[p.0], index[p.1]) == e;
      var x :| x in edges && (x.from, x.to) == p;
      var i :| 0 <= i < |edges| && edges[i] == x;
      assert (g.from[i], g.to[i]) == e;
    }
    forall e | e in g.Inner(n)
      ensures e in Image(EdgePairs(edges), index)
    {
      var i :| 0 <= i < |g.from| && (g.from[i], g.to[i]) == e;
      var p := (edges[i].from, edges[i].to);
      assert p in EdgePairs(edges) && (index[p.0], index[p.1]) == e;
    }
  }

  /** The node indices and the flat arrays of a graph whose edge ends are nodes. */
  method Flatten(nodes: seq<CodeNode>, edges: seq<CodeEdge>) returns (index: map<string, nat>, g: Csr)
    requires forall e :: e in edges ==> e.from in KG.NodeIds(nodes) && e.to in KG.NodeIds(nodes)
    ensures index.Keys == KG.NodeIds(nodes) && Injective(index)
    ensures forall id :: id in index ==> index[id] < |nodes|
    ensures IsFlat(edges, index, g)
  {
    var ids := seq(|nodes|, i requires 0 <= i < |nodes| => nodes[i].id);
    index := RepoMap.IndexById(ids);
    NodesIndexed(nodes, ids, index);
    EndsIndexed(edges, index);
    g := FlatArrays(edges, index);
  }

  function FlatArrays(edges: seq<CodeEdge>, index: map<string, nat>): (g: Csr)
    requires forall i :: 0 <= i < |edges| ==> edges[i].from in index && edges[i].to in index
    ensures IsFlat(edges, index, g)
  {
    Csr(seq(|edges|, i requires 0 <= i < |edges| => index[edges[i].from]),
        seq(|edges|, i requires 0 <= i < |edges| => index[edges[i].to]),
        seq(|edges|, i requires 0 <= i < |edges| => edges[i].weight))
  }

  /** Runs both detectors on one graph, the second one on its edges by node index. */
  method RunBoth(graph: KG.KnowledgeGraph) returns (cycles: seq<seq<string>>, sccs: seq<seq<nat>>)
    requires graph.Valid() && |graph.nodes| <= FindCycles.MAX_I32
    requires forall e :: e in graph.edges ==> e.from in KG.NodeIds(graph.nodes) && e.to in KG.NodeIds(graph.nodes)
    ensures cycles == [] <==> sccs == []
  {
    var index, g := Flatten(graph.nodes, graph.edges);
    FlatImage(graph.edges, index, |graph.nodes|, g);
    ghost var E := graph.Pairs();
    cycles := graph.DetectCycles();
    sccs := FindCycles.FindCycles(|graph.nodes|, g);
    DetectorsAgree(E, index, cycles, sccs);
  }

  /** The index of the node ids numbers exactly the nodes. */
  lemma NodesIndexed(nodes: seq<CodeNode>, ids: seq<string>, index: map<string, nat>)
    requires |ids| == |nodes| && forall i :: 0 <= i < |nodes| ==> ids[i] == nodes[i].id
    requires index == RepoMap.IndexById(ids)
    ensures index.Keys == KG.NodeIds(nodes) && Injective(index)
    ensures forall id :: id in index ==> index[id] < |nodes|
  {
    forall id
      ensures id in index <==> id in KG.NodeIds(nodes)
    {
      if id in index {
        var i :| 0 <= i < |ids| && ids[i] == id;
        assert nodes[i] in nodes;
      }
      if id in KG.NodeIds(nodes) {
        var n :| n in nodes && n.id == id;
        var i :| 0 <= i < |nodes| && nodes[i] == n;
        assert ids[i] in ids;
      }
    }
  }

  lemma EndsIndexed(edges: seq<CodeEdge>, index: map<string, nat>)
    requires forall e :: e in edges ==> e.from in index && e.to in index
    ensures forall i :: 0 <= i < |edges| ==> edges[i].from in index && edges[i].to in index
  {
    assert forall i :: 0 <= i < |edges| ==> edges[i] in edges;
  }
}
