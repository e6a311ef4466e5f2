/** The in-memory knowledge graph: an edge list with two adjacency indices that must always agree
    with it, and the traversals over them. */
module KnowledgeGraph {
  import opened CodeTypes
  import opened Graph
  import opened Sets
  import Eager = Bfs
  import LazyBfs
  import PathSearch
  import CycleSearch

  // ---- what the indices stand for ----

  /** The positions, below `k`, of the edges that leave `id`. */
  ghost function PositionsFrom(edges: seq<CodeEdge>, id: string, k: nat): (r: seq<nat>)
    requires k <= |edges|
    ensures forall i :: 0 <= i < |r| ==> r[i] < k
  {
    if k == 0 then []
    else PositionsFrom(edges, id, k - 1) + (if edges[k - 1].from == id then [k - 1] else [])
  }

  ghost function PositionsTo(edges: seq<CodeEdge>, id: string, k: nat): (r: seq<nat>)
    requires k <= |edges|
    ensures forall i :: 0 <= i < |r| ==> r[i] < k
  {
    if k == 0 then []
    else PositionsTo(edges, id, k - 1) + (if edges[k - 1].to == id then [k - 1] else [])
  }

  /** The edges, in order, that leave `id`. */
  ghost function From(edges: seq<CodeEdge>, id: string): seq<CodeEdge> {
    if edges == [] then []
    else From(edges[..|edges| - 1], id) + (if edges[|edges| - 1].from == id then [edges[|edges| - 1]] else [])
  }

  ghost function To(edges: seq<CodeEdge>, id: string): seq<CodeEdge> {
    if edges == [] then []
    else To(edges[..|edges| - 1], id) + (if edges[|edges| - 1].to == id then [edges[|edges| - 1]] else [])
  }

  function Get(index: map<string, seq<nat>>, id: string): seq<nat> {
    if id in index then index[id] else []
  }

  /** Appends a position to the list of an id. */
  function Put(index: map<string, seq<nat>>, id: string, i: nat): map<string, seq<nat>> {
    index[id := Get(index, id) + [i]]
  }

  ghost predicate IndexesFrom(index: map<string, seq<nat>>, edges: seq<CodeEdge>, k: nat)
    requires k <= |edges|
  {
    forall id :: Get(index, id) == PositionsFrom(edges, id, k)
  }

  ghost predicate IndexesTo(index: map<string, seq<nat>>, edges: seq<CodeEdge>, k: nat)
    requires k <= |edges|
  {
    forall id :: Get(index, id) == PositionsTo(edges, id, k)
  }

  lemma {:induction false} PositionsPrefix(edges: seq<CodeEdge>, more: seq<CodeEdge>, id: string, k: nat)
    requires k <= |edges|
    ensures PositionsFrom(edges + more, id, k) == PositionsFrom(edges, id, k)
    ensures PositionsTo(edges + more, id, k) == PositionsTo(edges, id, k)
  {
    if k > 0 {
      PositionsPrefix(edges, more, id, k - 1);
    }
  }

  /** The indices stay right when edges are appended beyond what they cover. */
  lemma {:induction false} IndexMore(index: map<string, seq<nat>>, reverse: map<string, seq<nat>>, edges: seq<CodeEdge>,
                  more: seq<CodeEdge>)
    requires IndexesFrom(index, edges, |edges|) && IndexesTo(reverse, edges, |edges|)
    ensures IndexesFrom(index, edges + more, |edges|) && IndexesTo(reverse, edges + more, |edges|)
  {
    forall id
      ensures Get(index, id) == PositionsFrom(edges + more, id, |edges|)
      ensures Get(reverse, id) == PositionsTo(edges + more, id, |edges|)
    {
      PositionsPrefix(edges, more, id, |edges|);
    }
  }

  /** Gives an id an empty list if it has none. */
  function Touch(index: map<string, seq<nat>>, id: string): map<string, seq<nat>> {
    if id in index then index else index[id := []]
  }

  lemma {:induction false} TouchKeeps(index: map<string, seq<nat>>, reverse: map<string, seq<nat>>,
                                      edges: seq<CodeEdge>, id: string)
    requires IndexesFrom(index, edges, |edges|) && IndexesTo(reverse, edges, |edges|)
    ensures IndexesFrom(Touch(index, id), edges, |edges|) && IndexesTo(Touch(reverse, id), edges, |edges|)
  {
    TouchReads(index, id);
    TouchReads(reverse, id);
  }

  lemma TouchReads(index: map<string, seq<nat>>, id: string)
    ensures forall x :: Get(Touch(index, id), x) == Get(index, x)
  {
  }

  /** Putting in the next edge extends what the indices cover. */
  lemma {:induction false} IndexNext(index: map<string, seq<nat>>, reverse: map<string, seq<nat>>,
                                     edges: seq<CodeEdge>, k: nat)
    requires k < |edges| && IndexesFrom(index, edges, k) && IndexesTo(reverse, edges, k)
    ensures IndexesFrom(Put(index, edges[k].from, k), edges, k + 1)
    ensures IndexesTo(Put(reverse, edges[k].to, k), edges, k + 1)
  {
    var index', reverse' := Put(index, edges[k].from, k), Put(reverse, edges[k].to, k);
    forall id
      ensures Get(index', id) == PositionsFrom(edges, id, k + 1)
      ensures Get(reverse', id) == PositionsTo(edges, id, k + 1)
    {
      assert Get(index, id) == PositionsFrom(edges, id, k);
      assert Get(reverse, id) == PositionsTo(edges, id, k);
      assert Get(index', id) == if edges[k].from == id then Get(index, id) + [k] else Get(index, id);
      assert Get(reverse', id) == if edges[k].to == id then Get(reverse, id) + [k] else Get(reverse, id);
    }
  }

  lemma {:induction false} IndexAppend(index: map<string, seq<nat>>, reverse: map<string, seq<nat>>,
                                       edges: seq<CodeEdge>, e: CodeEdge)
    requires IndexesFrom(index, edges, |edges|) && IndexesTo(reverse, edges, |edges|)
    ensures IndexesFrom(Put(index, e.from, |edges|), edges + [e], |edges + [e]|)
    ensures IndexesTo(Put(reverse, e.to, |edges|), edges + [e], |edges + [e]|)
  {
    IndexMore(index, reverse, edges, [e]);
    IndexNext(index, reverse, edges + [e], |edges|);
  }

  /** The edges at some positions. */
  ghost function At(edges: seq<CodeEdge>, positions: seq<nat>): (r: seq<CodeEdge>)
    requires forall i :: 0 <= i < |positions| ==> positions[i] < |edges|
    ensures |r| == |positions|
  {
    seq(|positions|, i requires 0 <= i < |positions| => edges[positions[i]])
  }

  lemma {:induction false} AtPositions(edges: seq<CodeEdge>, id: string, k: nat)
    requires k <= |edges|
    ensures At(edges, PositionsFrom(edges, id, k)) == From(edges[..k], id)
    ensures At(edges, PositionsTo(edges, id, k)) == To(edges[..k], id)
  {
    if k > 0 {
      AtPositions(edges, id, k - 1);
      assert edges[..k][..k - 1] == edges[..k - 1];
    }
  }

  lemma {:induction false} FromHolds(edges: seq<CodeEdge>, id: string)
    ensures forall e :: e in From(edges, id) <==> e in edges && e.from == id
    ensures forall e :: e in To(edges, id) <==> e in edges && e.to == id
  {
    if edges != [] {
      FromHolds(edges[..|edges| - 1], id);
      assert edges == edges[..|edges| - 1] + [edges[|edges| - 1]];
    }
  }

  ghost function Leaving(id: string): CodeEdge -> bool {
    (e: CodeEdge) => e.from == id
  }

  ghost function Entering(id: string): CodeEdge -> bool {
    (e: CodeEdge) => e.to == id
  }

  /** Reading through the index gives, in the order in which they were added, exactly the edges that
      leave the node, or enter it. */
  lemma {:induction false} FilteredEdges(edges: seq<CodeEdge>, id: string)
    ensures Filters(edges, From(edges, id), Leaving(id)) && Filters(edges, To(edges, id), Entering(id))
  {
    if edges == [] {
      FilterNone(Leaving(id));
      FilterNone(Entering(id));
    } else {
      var init, e := edges[..|edges| - 1], edges[|edges| - 1];
      FilteredEdges(init, id);
      assert edges == init + [e];
      FilterNext(init, From(init, id), Leaving(id), e);
      FilterNext(init, To(init, id), Entering(id), e);
    }
  }

  // ---- what the mutations do ----

  /** A graph as a value: its nodes in insertion order, and its edges. */
  datatype Contents = Contents(nodes: seq<CodeNode>, edges: seq<CodeEdge>)

  ghost predicate DistinctNodes(nodes: seq<CodeNode>) {
    forall i, j :: 0 <= i < j < |nodes| ==> nodes[i].id != nodes[j].id
  }

  /** The place of an id among the nodes; the end, if it is not there. */
  function Find(nodes: seq<CodeNode>, id: string): (i: nat)
    ensures i <= |nodes|
    ensures i < |nodes| ==> nodes[i].id == id
    ensures i == |nodes| ==> forall j :: 0 <= j < |nodes| ==> nodes[j].id != id
  {
    if nodes == [] then 0
    else
      var i := Find(nodes[..|nodes| - 1], id);
      if i == |nodes| - 1 && nodes[i].id != id then |nodes| else i
  }

  /** A node put into the insertion-ordered map: in place of the one with its id, or at the end. */
  function PutNode(nodes: seq<CodeNode>, node: CodeNode): (r: seq<CodeNode>)
    ensures (forall i :: 0 <= i < |nodes| ==> nodes[i].id != node.id) ==> r == nodes + [node]
    ensures (exists i :: 0 <= i < |nodes| && nodes[i].id == node.id) ==>
              |r| == |nodes| && exists i :: 0 <= i < |nodes| && nodes[i].id == node.id && r[i] == node
                                         && forall j :: 0 <= j < |nodes| && j != i ==> r[j] == nodes[j]
  {
    var i := Find(nodes, node.id);
    if i < |nodes| then nodes[i := node] else nodes + [node]
  }

  lemma PutKeepsDistinct(nodes: seq<CodeNode>, node: CodeNode)
    requires DistinctNodes(nodes)
    ensures DistinctNodes(PutNode(nodes, node))
  {
  }

  ghost function PutNodes(nodes: seq<CodeNode>, more: seq<CodeNode>): seq<CodeNode> {
    if more == [] then nodes else PutNode(PutNodes(nodes, more[..|more| - 1]), more[|more| - 1])
  }

  lemma {:induction false} PutDistinct(nodes: seq<CodeNode>)
    requires DistinctNodes(nodes)
    ensures PutNodes([], nodes) == nodes
  {
    if nodes != [] {
      var n := |nodes| - 1;
      PutDistinct(nodes[..n]);
      assert nodes == nodes[..n] + [nodes[n]];
    }
  }

  /** The nodes without those whose id is in `ids`. */
  function DropNodes(nodes: seq<CodeNode>, ids: set<string>): (r: seq<CodeNode>)
    ensures forall n :: n in r <==> n in nodes && n.id !in ids
  {
    if nodes == [] then []
    else
      assert nodes == nodes[..|nodes| - 1] + [nodes[|nodes| - 1]];
      DropNodes(nodes[..|nodes| - 1], ids) + (if nodes[|nodes| - 1].id in ids then [] else [nodes[|nodes| - 1]])
  }

  /** The edges without those that touch an id of `ids`. */
  function DropEdges(edges: seq<CodeEdge>, ids: set<string>): (r: seq<CodeEdge>)
    ensures forall e :: e in r <==> e in edges && e.from !in ids && e.to !in ids
  {
    if edges == [] then []
    else
      assert edges == edges[..|edges| - 1] + [edges[|edges| - 1]];
      var e := edges[|edges| - 1];
      DropEdges(edges[..|edges| - 1], ids) + (if e.from in ids || e.to in ids then [] else [e])
  }

  ghost function Clear(ids: set<string>): CodeEdge -> bool {
    (e: CodeEdge) => e.from !in ids && e.to !in ids
  }

  ghost function Outside(ids: set<string>): CodeNode -> bool {
    (n: CodeNode) => n.id !in ids
  }

  /** What stays, stays in order. */
  lemma {:induction false} DroppedEdges(edges: seq<CodeEdge>, ids: set<string>)
    ensures Filters(edges, DropEdges(edges, ids), Clear(ids))
  {
    if edges == [] {
      FilterNone(Clear(ids));
    } else {
      var init, e := edges[..|edges| - 1], edges[|edges| - 1];
      DroppedEdges(init, ids);
      assert edges == init + [e];
      FilterNext(init, DropEdges(init, ids), Clear(ids), e);
    }
  }

  lemma {:induction false} DroppedNodes(nodes: seq<CodeNode>, ids: set<string>)
    ensures Filters(nodes, DropNodes(nodes, ids), Outside(ids))
  {
    if nodes == [] {
      FilterNone(Outside(ids));
    } else {
      var init, n := nodes[..|nodes| - 1], nodes[|nodes| - 1];
      DroppedNodes(init, ids);
      assert nodes == init + [n];
      FilterNext(init, DropNodes(init, ids), Outside(ids), n);
    }
  }

  lemma {:induction false} DropDistinct(nodes: seq<CodeNode>, ids: set<string>)
    requires DistinctNodes(nodes)
    ensures DistinctNodes(DropNodes(nodes, ids))
  {
    if nodes != [] {
      var n := |nodes| - 1;
      DropDistinct(nodes[..n], ids);
      var kept := DropNodes(nodes[..n], ids);
      forall i | 0 <= i < |kept|
        ensures kept[i].id != nodes[n].id
      {
        assert kept[i] in nodes[..n];
      }
    }
  }

  /** The ids of the nodes of a file. */
  ghost function IdsOf(nodes: seq<CodeNode>, filePath: string): set<string> {
    set n | n in nodes && n.filePath == filePath :: n.id
  }

  /** A node that stays keeps its edges to nodes that stay, in order; a removed node keeps none. */
  lemma {:induction false} DropFrom(edges: seq<CodeEdge>, ids: set<string>, id: string)
    ensures From(DropEdges(edges, ids), id) == if id in ids then [] else DropEdges(From(edges, id), ids)
  {
    if edges != [] {
      var n := |edges| - 1;
      var e, init := edges[n], edges[..n];
      DropFrom(init, ids, id);
      if e.from !in ids && e.to !in ids {
        FromAppend(DropEdges(init, ids), e, id);
      } else {
        assert DropEdges(init, ids) + [] == DropEdges(init, ids);
      }
      if e.from == id {
        DropAppend(From(init, id), e, ids);
      } else {
        assert From(init, id) + [] == From(init, id);
      }
    }
  }

  lemma {:induction false} DropTo(edges: seq<CodeEdge>, ids: set<string>, id: string)
    ensures To(DropEdges(edges, ids), id) == if id in ids then [] else DropEdges(To(edges, id), ids)
  {
    if edges != [] {
      var n := |edges| - 1;
      var e, init := edges[n], edges[..n];
      DropTo(init, ids, id);
      if e.from !in ids && e.to !in ids {
        FromAppend(DropEdges(init, ids), e, id);
      } else {
        assert DropEdges(init, ids) + [] == DropEdges(init, ids);
      }
      if e.to == id {
        DropAppend(To(init, id), e, ids);
      } else {
        assert To(init, id) + [] == To(init, id);
      }
    }
  }

  lemma FromAppend(edges: seq<CodeEdge>, e: CodeEdge, id: string)
    ensures From(edges + [e], id) == From(edges, id) + if e.from == id then [e] else []
    ensures To(edges + [e], id) == To(edges, id) + if e.to == id then [e] else []
  {
    assert (edges + [e])[..|edges|] == edges;
  }

  lemma DropAppend(edges: seq<CodeEdge>, e: CodeEdge, ids: set<string>)
    ensures DropEdges(edges + [e], ids) == DropEdges(edges, ids) + if e.from in ids || e.to in ids then [] else [e]
  {
    assert (edges + [e])[..|edges|] == edges;
  }

  // ---- the graph ----

  class KnowledgeGraph {
    var nodes: seq<CodeNode>
    var edges: seq<CodeEdge>
    var adjacency: map<string, seq<nat>>
    var reverseAdjacency: map<string, seq<nat>>

    /** The indices agree with the edge list. */
    ghost predicate Valid()
      reads this
    {
      && DistinctNodes(nodes)
      && IndexesFrom(adjacency, edges, |edges|)
      && IndexesTo(reverseAdjacency, edges, |edges|)
    }

    ghost function Value(): Contents
      reads this
    {
      Contents(nodes, edges)
    }

    ghost function Pairs(): set<(string, string)>
      reads this
    {
      EdgePairs(edges)
    }

    constructor ()
      ensures Valid() && Value() == Contents([], [])
    {
      nodes, edges, adjacency, reverseAdjacency := [], [], map[], map[];
    }

    method AddNode(node: CodeNode)
      requires Valid()
      modifies this
      ensures Valid() && Value() == Contents(PutNode(old(nodes), node), old(edges))
    {
      PutKeepsDistinct(nodes, node);
      TouchKeeps(adjacency, reverseAdjacency, edges, node.id);
      nodes := PutNode(nodes, node);
      adjacency := Touch(adjacency, node.id);
      reverseAdjacency := Touch(reverseAdjacency, node.id);
    }

    method AddEdge(edge: CodeEdge)
      requires Valid()
      modifies this
      ensures Valid() && Value() == Contents(old(nodes), old(edges) + [edge])
    {
      var idx, more := |edges|, edges + [edge];
      var index, reverse := Put(adjacency, edge.from, idx), Put(reverseAdjacency, edge.to, idx);
      IndexAppend(adjacency, reverseAdjacency, edges, edge);
      edges, adjacency, reverseAdjacency := more, index, reverse;
    }

    method AddNodes(more: seq<CodeNode>)
      requires Valid()
      modifies this
      ensures Valid() && Value() == Contents(PutNodes(old(nodes), more), old(edges))
    {
      for i := 0 to |more|
        invariant Valid() && Value() == Contents(PutNodes(old(nodes), more[..i]), old(edges))
      {
        AddNode(more[i]);
        assert more[..i + 1][..i] == more[..i];
      }
      assert more[..|more|] == more;
    }

    method AddEdges(more: seq<CodeEdge>)
      requires Valid()
      modifies this
      ensures Valid() && Value() == Contents(old(nodes), old(edges) + more)
    {
      for i := 0 to |more|
        invariant Valid() && Value() == Contents(old(nodes), old(edges) + more[..i])
      {
        AddEdge(more[i]);
        assert more[..i + 1] == more[..i] + [more[i]];
        assert (old(edges) + more[..i]) + [more[i]] == old(edges) + (more[..i] + [more[i]]);
      }
      assert more[..|more|] == more;
    }

    method RebuildAdjacency()
      modifies this`adjacency, this`reverseAdjacency
      ensures IndexesFrom(adjacency, edges, |edges|) && IndexesTo(reverseAdjacency, edges, |edges|)
    {
      adjacency, reverseAdjacency := map[], map[];
      for i := 0 to |edges|
        invariant IndexesFrom(adjacency, edges, i) && IndexesTo(reverseAdjacency, edges, i)
      {
        IndexNext(adjacency, reverseAdjacency, edges, i);
        adjacency := Put(adjacency, edges[i].from, i);
        reverseAdjacency := Put(reverseAdjacency, edges[i].to, i);
      }
    }

    /** Removes the nodes of a file and every edge that touches one of them. */
    method RemoveFile(filePath: string)
      requires Valid()
      modifies this
      ensures Valid()
      ensures var ids := IdsOf(old(nodes), filePath);
              Value() == Contents(DropNodes(old(nodes), ids), DropEdges(old(edges), ids))
      ensures forall n :: n in nodes <==> n in old(nodes) && n.filePath != filePath
    {
      var ids := CollectIds(nodes, filePath);
      FileNodesGone(nodes, filePath);
      DropDistinct(nodes, ids);
      edges := DropEdges(edges, ids);
      RebuildAdjacency();
      DropKeys(adjacency, reverseAdjacency, edges, ids);
      nodes := DropNodes(nodes, ids);
      adjacency := adjacency - ids;
      reverseAdjacency := reverseAdjacency - ids;
    }

    method Clear()
      modifies this
      ensures Valid() && Value() == Contents([], [])
    {
      nodes, edges, adjacency, reverseAdjacency := [], [], map[], map[];
    }

    /** The edges that leave a node, in the order in which they were added. */
    method GetEdgesFrom(id: string) returns (r: seq<CodeEdge>)
      requires Valid()
      ensures r == From(edges, id)
    {
      r := [];
      var indices := Get(adjacency, id);
      for i := 0 to |indices|
        invariant r == At(edges, indices[..i])
      {
        assert indices[..i + 1] == indices[..i] + [indices[i]];
        r := r + [edges[indices[i]]];
      }
      assert indices[..|indices|] == indices && edges[..|edges|] == edges;
      AtPositions(edges, id, |edges|);
    }

    /** The edges that enter a node, in the order in which they were added. */
    method GetEdgesTo(id: string) returns (r: seq<CodeEdge>)
      requires Valid()
      ensures r == To(edges, id)
    {
      r := [];
      var indices := Get(reverseAdjacency, id);
      for i := 0 to |indices|
        invariant r == At(edges, indices[..i])
      {
        assert indices[..i + 1] == indices[..i] + [indices[i]];
        r := r + [edges[indices[i]]];
      }
      assert indices[..|indices|] == indices && edges[..|edges|] == edges;
      AtPositions(edges, id, |edges|);
    }

    method ToJSON() returns (data: Contents)
      ensures data == Value()
    {
      data := Contents(nodes, edges);
    }

    static method FromJSON(data: Contents) returns (g: KnowledgeGraph)
      ensures fresh(g) && g.Valid() && g.Value() == Contents(PutNodes([], data.nodes), data.edges)
    {
      g := new KnowledgeGraph();
      g.AddNodes(data.nodes);
      g.AddEdges(data.edges);
      assert [] + data.edges == data.edges;
    }

    /** Writing a graph out and reading it back gives a graph that answers every query alike. */
    method Reload() returns (g: KnowledgeGraph)
      requires Valid()
      ensures fresh(g) && g.Valid() && g.Value() == Value()
    {
      var data := ToJSON();
      g := FromJSON(data);
      PutDistinct(nodes);
    }

    /** The existing nodes within `maxDepth` edges of `startId`, nearest first.  A node may wait in the
        queue several times; it is marked when it leaves the queue. */
    method Bfs(startId: string, maxDepth: int) returns (result: seq<CodeNode>)
      requires Valid()
      ensures IsBfsAnswer(nodes, Pairs(), startId, Depth(maxDepth), result)
    {
      ghost var E, max := Pairs(), Depth(maxDepth);
      var visited: set<string> := {};
      var queue: seq<(string, nat)> := [(startId, 0)];
      result := [];
      ghost var D: map<string, nat>, level: nat, seen: seq<string> := map[], 0, [];
      ghost var all := {startId} + (set e | e in E :: e.1);
      LazyBfs.Begin(E, startId, max);
      while queue != []
        invariant visited == D.Keys <= all && result == Present(nodes, seen)
        invariant forall i :: 0 <= i < |queue| ==> queue[i].0 in all
        invariant LazyBfs.Search(E, startId, D, queue, level, max, {}, seen)
        decreases all - visited, |queue|
      {
        visited, queue, result, D, level, seen :=
          BfsTurn(visited, queue, result, maxDepth, E, startId, D, level, seen, all);
      }
      BfsAnswer(nodes, E, startId, D, level, max, seen);
    }

    /** One turn: the front of the queue is dropped if it has been visited, and visited otherwise. */
    method BfsTurn(visited: set<string>, queue: seq<(string, nat)>, result: seq<CodeNode>, maxDepth: int,
                   ghost E: set<(string, string)>, ghost startId: string, ghost D: map<string, nat>, ghost level: nat,
                   ghost seen: seq<string>, ghost all: set<string>)
      returns (visited': set<string>, queue': seq<(string, nat)>, result': seq<CodeNode>,
               ghost D': map<string, nat>, ghost level': nat, ghost seen': seq<string>)
      requires Valid() && E == Pairs() && queue != [] && visited == D.Keys <= all && result == Present(nodes, seen)
      requires LazyBfs.Search(E, startId, D, queue, level, Depth(maxDepth), {}, seen)
      requires forall e :: e in E ==> e.1 in all
      requires forall i :: 0 <= i < |queue| ==> queue[i].0 in all
      ensures visited' == D'.Keys <= all && result' == Present(nodes, seen')
      ensures LazyBfs.Search(E, startId, D', queue', level', Depth(maxDepth), {}, seen')
      ensures forall i :: 0 <= i < |queue'| ==> queue'[i].0 in all
      ensures visited <= visited' && (visited' == visited ==> |queue'| < |queue|)
    {
      var (id, depth) := queue[0];
      level' := depth;
      if id in visited {
        LazyBfs.Skip(E, startId, D, queue, level, Depth(maxDepth), seen, id, depth);
        visited', queue', result', D', seen' := visited, queue[1..], result, D, seen;
        return;
      }
      visited', queue', result', D', seen' :=
        VisitFront(id, depth, visited, queue, result, maxDepth, E, startId, D, level, seen, all);
    }

    /** Visits the front of the queue, which is new. */
    method VisitFront(id: string, depth: nat, visited: set<string>, queue: seq<(string, nat)>, result: seq<CodeNode>,
                      maxDepth: int, ghost E: set<(string, string)>, ghost startId: string, ghost D: map<string, nat>,
                      ghost level: nat, ghost seen: seq<string>, ghost all: set<string>)
      returns (visited': set<string>, queue': seq<(string, nat)>, result': seq<CodeNode>,
               ghost D': map<string, nat>, ghost seen': seq<string>)
      requires Valid() && E == Pairs() && queue != [] && queue[0] == (id, depth) && id !in visited
      requires visited == D.Keys <= all && result == Present(nodes, seen)
      requires LazyBfs.Search(E, startId, D, queue, level, Depth(maxDepth), {}, seen)
      requires forall e :: e in E ==> e.1 in all
      requires forall i :: 0 <= i < |queue| ==> queue[i].0 in all
      ensures visited' == D'.Keys <= all && result' == Present(nodes, seen')
      ensures LazyBfs.Search(E, startId, D', queue', depth, Depth(maxDepth), {}, seen')
      ensures forall i :: 0 <= i < |queue'| ==> queue'[i].0 in all
      ensures visited <= visited' && visited != visited'
    {
      visited', result' := visited + {id}, ListNode(nodes, result, id);
      PresentAppend(nodes, seen, id);
      queue' := VisitNext(id, depth, visited', queue, maxDepth, E, startId, D, level, seen, all);
      D', seen' := D[id := depth], seen + [id];
      assert id in visited' && id !in visited;
    }

    /** Takes the front of the queue, which is new, and queues its successors unless it is too deep. */
    method VisitNext(id: string, depth: nat, visited: set<string>, queue: seq<(string, nat)>, maxDepth: int,
                     ghost E: set<(string, string)>, ghost startId: string, ghost D: map<string, nat>,
                     ghost level: nat, ghost seen: seq<string>, ghost all: set<string>)
      returns (queue': seq<(string, nat)>)
      requires Valid() && E == Pairs() && queue != [] && queue[0] == (id, depth) && id !in D && visited == D.Keys + {id}
      requires LazyBfs.Search(E, startId, D, queue, level, Depth(maxDepth), {}, seen)
      requires forall e :: e in E ==> e.1 in all
      requires forall i :: 0 <= i < |queue| ==> queue[i].0 in all
      ensures LazyBfs.Search(E, startId, D[id := depth], queue', depth, Depth(maxDepth), {}, seen + [id])
      ensures forall i :: 0 <= i < |queue'| ==> queue'[i].0 in all
    {
      ghost var max := Depth(maxDepth);
      LazyBfs.Visit(E, startId, D, queue, level, max, seen);
      queue' := queue[1..];
      if depth < maxDepth {
        var out := GetEdgesFrom(id);
        OutTargets(edges, id, out);
        TargetsIn(E, id, out, all);
        queue' := PushTargets(out, id, depth, visited, queue', E, startId, D[id := depth], max, seen + [id], all);
      }
      LazyBfs.Finish(E, startId, D[id := depth], queue', depth, max, id, seen + [id]);
    }

    /** The ids on a way from `fromId` to `toId`, or nothing.  There is an answer if and only if `toId`
        is at most `maxDepth` edges away; it is a shortest path, cut after the last blank id on the way, and
        a whole one if no edge leads from the blank id to another. */
    method FindPath(fromId: string, toId: string, maxDepth: int) returns (path: seq<string>, found: bool)
      requires Valid()
      ensures found <==> Within(Pairs(), fromId, toId, Depth(maxDepth))
      ensures found ==>
                exists p :: PathSearch.IsShortestPath(Pairs(), p, fromId, toId) && path == PathSearch.AfterBlank(p)
      ensures found && PathSearch.BlankLeadsNowhere(Pairs()) ==>
                PathSearch.IsShortestPath(Pairs(), path, fromId, toId)
      ensures !found ==> path == []
    {
      ghost var E, max := Pairs(), Depth(maxDepth);
      var visited := {fromId};
      var parent: map<string, string> := map[];
      var queue: seq<(string, nat)> := [(fromId, 0)];
      ghost var D: map<string, nat>, level: nat, list: seq<string> := map[fromId := 0], 0, [];
      ghost var all := {fromId} + (set e | e in E :: e.1);
      PathSearch.HuntBegins(E, fromId, toId, max);
      while queue != []
        invariant D.Keys == visited <= all
        invariant PathSearch.Hunt(E, fromId, toId, D, parent, queue, level, max, {}, list)
        decreases all - visited, |queue|
      {
        var (id, depth) := queue[0];
        if id == toId {
          PathSearch.HuntEnds(E, fromId, toId, D, parent, queue, level, max, list);
          path := PathSearch.Rebuild(parent, toId, E, fromId, D);
          if PathSearch.BlankLeadsNowhere(E) {
            PathSearch.NoBlankInside(E, PathSearch.TreePath(E, fromId, D, parent, toId), fromId, toId);
          }
          return path, true;
        }
        visited, parent, queue, D, list :=
          ExpandNext(visited, parent, queue, maxDepth, E, fromId, toId, D, level, list, all);
        level := depth;
      }
      PathSearch.HuntFails(E, fromId, toId, D, parent, level, max, list);
      path, found := [], false;
    }

    /** Takes the front of the queue, which is not the target, and discovers its successors unless it is
        too deep. */
    method ExpandNext(visited: set<string>, parent: map<string, string>, queue: seq<(string, nat)>, maxDepth: int,
                      ghost E: set<(string, string)>, ghost fromId: string, ghost toId: string,
                      ghost D: map<string, nat>, ghost level: nat, ghost list: seq<string>, ghost all: set<string>)
      returns (visited': set<string>, parent': map<string, string>, queue': seq<(string, nat)>,
               ghost D': map<string, nat>, ghost list': seq<string>)
      requires Valid() && E == Pairs() && queue != [] && queue[0].0 != toId && D.Keys == visited <= all
      requires PathSearch.Hunt(E, fromId, toId, D, parent, queue, level, Depth(maxDepth), {}, list)
      requires forall e :: e in E ==> e.1 in all
      ensures D'.Keys == visited' <= all && visited <= visited' && (visited' == visited ==> |queue'| < |queue|)
      ensures PathSearch.Hunt(E, fromId, toId, D', parent', queue', queue[0].1, Depth(maxDepth), {}, list')
    {
      var (id, depth) := queue[0];
      ghost var max := Depth(maxDepth);
      PathSearch.HuntTakes(E, fromId, toId, D, parent, queue, level, max, list);
      visited', parent', queue', D', list' := visited, parent, queue[1..], D, list;
      if depth < maxDepth {
        var out := GetEdgesFrom(id);
        OutTargets(edges, id, out);
        TargetsIn(E, id, out, all);
        visited', parent', queue', D', list' :=
          LinkTargets(out, id, depth, visited', parent', queue', E, fromId, toId, D', max, list', all);
      }
      PathSearch.HuntExpanded(E, fromId, toId, D', parent', queue', depth, max, id, list');
    }

    /** The cycles found by a depth-first search from every node: each is a simple cycle, and without the
        edges that close them no node leads to a cycle; an edge that closes a list closes one for each
        time that it was added. */
    method DetectCycles() returns (cycles: seq<seq<string>>)
      requires Valid()
      ensures CycleSearch.IsCycleList(Pairs(), NodeIds(nodes), cycles)
      ensures forall u :: AllOrNone(edges, cycles, u)
      ensures cycles == [] <==>
              forall x :: CycleSearch.FromKeys(Pairs(), NodeIds(nodes), x) ==> !OnCycle(Pairs(), x)
    {
      var run := new CycleRun(this);
      run.VisitAll();
      cycles := run.cycles;
      EndGood(edges, NodeIds(nodes), run.all, run.good, run.Now());
    }
  }

  /** One depth-first search for cycles. */
  class CycleRun {
    const graph: KnowledgeGraph
    var cycles: seq<seq<string>>
    var visited: set<string>
    var inStack: set<string>
    var stack: seq<string>
    ghost var done: seq<string>
    ghost const all: set<string>
    ghost const good: iset<Moment>

    ghost function Now(): Moment
      reads this
    {
      Moment(cycles, visited, stack, done)
    }

    ghost predicate Valid()
      reads this, graph
    {
      && graph.Valid()
      && Knows(graph.edges, NodeIds(graph.nodes), all, good)
      && Now() in good
      && (forall x :: x in inStack <==> x in stack)
    }

    constructor (graph: KnowledgeGraph)
      requires graph.Valid()
      ensures this.graph == graph && Valid() && stack == [] && visited == {}
    {
      this.graph := graph;
      cycles, visited, inStack, stack, done := [], {}, {}, [], [];
      all := Universe(graph.edges, NodeIds(graph.nodes));
      good := GoodMoments(graph.edges, NodeIds(graph.nodes), Universe(graph.edges, NodeIds(graph.nodes)));
      new;
      BeginGood(graph.edges, NodeIds(graph.nodes), all, good);
    }

    /** Visits every node of the graph. */
    method VisitAll()
      requires Valid() && stack == [] && this as object != graph
      modifies this
      ensures Valid() && stack == [] && NodeIds(graph.nodes) <= visited
    {
      for i := 0 to |graph.nodes|
        invariant Valid() && stack == []
        invariant forall j :: 0 <= j < i ==> graph.nodes[j].id in visited
      {
        assert graph.nodes[i] in graph.nodes;
        Visit(graph.nodes[i].id);
      }
    }

    /** A call for a node on the stack adds one list; any other call leaves the counts of the nodes
        visited before as they are. */
    method Visit(id: string)
      requires Valid() && CycleSearch.Callable(graph.Pairs(), NodeIds(graph.nodes), stack, id)
      requires this as object != graph
      modifies this
      ensures Valid() && stack == old(stack) && old(visited) <= visited && id in visited
      ensures old(cycles) <= cycles && forall x :: x in old(done) ==> x in done
      ensures id in done || (stack != [] && (stack[|stack| - 1], id) in CycleSearch.ClosingEdges(cycles))
      ensures id in stack ==> OneMore(old(cycles), cycles, stack[|stack| - 1], id)
      ensures id !in stack ==> SameClosings(old(cycles), cycles, old(visited))
      decreases all - visited, 0
    {
      if id in inStack {
        ReportCycle(id);
        return;
      }
      if id in visited {
        VisitedDone(graph.edges, NodeIds(graph.nodes), all, good, Now(), id);
        return;
      }
      EnterNode(id);
      VisitTargets(id);
      LeaveNode(id);
      assert old(visited) + {id} - {id} == old(visited);
    }

    method ReportCycle(id: string)
      requires Valid() && CycleSearch.Callable(graph.Pairs(), NodeIds(graph.nodes), stack, id) && id in inStack
      requires this as object != graph
      modifies this`cycles
      ensures Valid() && old(cycles) <= cycles && OneMore(old(cycles), cycles, stack[|stack| - 1], id)
      ensures (stack[|stack| - 1], id) in CycleSearch.ClosingEdges(cycles) && id in visited
    {
      var cycleStart := IndexOf(stack, id);
      ghost var m := Now();
      ReportGood(graph.edges, NodeIds(graph.nodes), all, good, m, cycleStart);
      cycles := cycles + [stack[cycleStart..]];
      assert Now() == m.(cycles := m.cycles + [m.stack[cycleStart..]]);
    }

    method EnterNode(id: string)
      requires Valid() && CycleSearch.Callable(graph.Pairs(), NodeIds(graph.nodes), stack, id) && id !in visited
      requires this as object != graph
      modifies this`visited, this`inStack, this`stack
      ensures Valid() && stack == old(stack) + [id] && visited == old(visited) + {id} && id in all
      ensures forall v :: CycleSearch.Closings(cycles, id, v) == 0
    {
      ghost var m := Now();
      EnterGood(graph.edges, NodeIds(graph.nodes), all, good, m, id);
      visited := visited + {id};
      inStack := inStack + {id};
      stack := stack + [id];
      assert Now() == m.(visited := m.visited + {id}, stack := m.stack + [id]);
    }

    method LeaveNode(id: string)
      requires Valid() && stack != [] && stack[|stack| - 1] == id
      requires forall w :: (id, w) in CycleSearch.Unclosed(graph.Pairs(), cycles) ==> w in done
      requires AllOrNone(graph.edges, cycles, id)
      requires this as object != graph
      modifies this`inStack, this`stack, this`done
      ensures Valid() && stack == old(stack)[..|old(stack)| - 1] && done == old(done) + [id]
    {
      ghost var m := Now();
      LeaveGood(graph.edges, NodeIds(graph.nodes), all, good, m, id);
      stack := stack[..|stack| - 1];
      inStack := inStack - {id};
      done := done + [id];
      assert Now() == m.(stack := m.stack[..|m.stack| - 1], done := m.done + [id]);
    }

    /** Visits the targets of the edges from the top of the stack. */
    method VisitTargets(id: string)
      requires Valid() && stack != [] && stack[|stack| - 1] == id
      requires forall v :: CycleSearch.Closings(cycles, id, v) == 0
      requires this as object != graph
      modifies this
      ensures Valid() && stack == old(stack) && old(visited) <= visited && old(cycles) <= cycles
      ensures forall x :: x in old(done) ==> x in done
      ensures forall w :: (id, w) in CycleSearch.Unclosed(graph.Pairs(), cycles) ==> w in done
      ensures AllOrNone(graph.edges, cycles, id)
      ensures SameClosings(old(cycles), cycles, old(visited) - {id})
      decreases all - visited, 3
    {
      var out := graph.GetEdgesFrom(id);
      EdgesLead(graph.edges, id, out);
      FollowAll(out, id);
      TallyDone(graph.edges, cycles, id, stack, out);
      AllScanned(graph.edges, out, id, done, cycles);
    }

    /** Follows the edges from the top of the stack, one after the other. */
    method FollowAll(out: seq<CodeEdge>, id: string)
      requires Valid() && stack != [] && stack[|stack| - 1] == id && Tally(cycles, id, stack, out, 0)
      requires forall i :: 0 <= i < |out| ==> (id, out[i].to) in graph.Pairs()
      requires this as object != graph
      modifies this
      ensures Valid() && stack == old(stack) && old(visited) <= visited && old(cycles) <= cycles
      ensures forall x :: x in old(done) ==> x in done
      ensures Scanned(out, |out|, id, done, cycles) && Tally(cycles, id, stack, out, |out|)
      ensures SameClosings(old(cycles), cycles, old(visited) - {id})
      decreases all - visited, 2
    {
      for i := 0 to |out|
        invariant Valid() && stack == old(stack) && old(visited) <= visited && old(cycles) <= cycles
        invariant forall x :: x in old(done) ==> x in done
        invariant Scanned(out, i, id, done, cycles) && Tally(cycles, id, stack, out, i)
        invariant SameClosings(old(cycles), cycles, old(visited) - {id})
      {
        ghost var cycles0, visited0 := cycles, visited;
        FollowEdge(out, i, id);
        SameLonger(old(cycles), cycles0, cycles, old(visited) - {id}, visited0 - {id});
      }
    }

    /** Follows one edge from the top of the stack. */
    method FollowEdge(out: seq<CodeEdge>, i: nat, id: string)
      requires Valid() && stack != [] && stack[|stack| - 1] == id && i < |out| && (id, out[i].to) in graph.Pairs()
      requires Scanned(out, i, id, done, cycles) && Tally(cycles, id, stack, out, i)
      requires this as object != graph
      modifies this
      ensures Valid() && stack == old(stack) && old(visited) <= visited && old(cycles) <= cycles
      ensures forall x :: x in old(done) ==> x in done
      ensures Scanned(out, i + 1, id, done, cycles) && Tally(cycles, id, stack, out, i + 1)
      ensures SameClosings(old(cycles), cycles, old(visited) - {id})
      decreases all - visited, 1
    {
      TopVisited(graph.edges, NodeIds(graph.nodes), all, good, Now(), id);
      Visit(out[i].to);
      ScannedNext(out, i, id, old(done), done, old(cycles), cycles);
      TallyNext(old(cycles), cycles, id, stack, out, i);
    }
  }

  // ---- the moments of the search ----

  datatype Moment = Moment(cycles: seq<seq<string>>, visited: set<string>, stack: seq<string>, done: seq<string>)

  /** All ids that the search can meet. */
  ghost function Universe(edges: seq<CodeEdge>, keys: set<string>): set<string> {
    keys + set e | e in edges :: e.to
  }

  ghost predicate Good(edges: seq<CodeEdge>, keys: set<string>, all: set<string>, m: Moment) {
    && CycleSearch.State(EdgePairs(edges), keys, m.visited, m.stack, m.cycles, m.done)
    && Settled(edges, m.cycles, m.visited, m.done)
    && m.visited <= all
  }

  /** The set of the good moments; membership in it stands for the invariant in the methods. */
  ghost predicate Knows(edges: seq<CodeEdge>, keys: set<string>, all: set<string>, good: iset<Moment>) {
    && all == Universe(edges, keys)
    && forall m {:trigger Good(edges, keys, all, m)} :: m in good <==> Good(edges, keys, all, m)
  }

  ghost function GoodMoments(edges: seq<CodeEdge>, keys: set<string>, all: set<string>): iset<Moment> {
    iset m: Moment | Good(edges, keys, all, m)
  }

  lemma BeginGood(edges: seq<CodeEdge>, keys: set<string>, all: set<string>, good: iset<Moment>)
    requires Knows(edges, keys, all, good)
    ensures Moment([], {}, [], []) in good
  {
    assert Good(edges, keys, all, Moment([], {}, [], []));
  }

  lemma VisitedDone(edges: seq<CodeEdge>, keys: set<string>, all: set<string>, good: iset<Moment>, m: Moment,
                    id: string)
    requires Knows(edges, keys, all, good) && m in good && id in m.visited && id !in m.stack
    ensures id in m.done
  {
    assert Good(edges, keys, all, m);
  }

  lemma TopVisited(edges: seq<CodeEdge>, keys: set<string>, all: set<string>, good: iset<Moment>, m: Moment, id: string)
    requires Knows(edges, keys, all, good) && m in good && id in m.stack
    ensures id in m.visited
  {
    assert Good(edges, keys, all, m);
  }

  lemma ReportGood(edges: seq<CodeEdge>, keys: set<string>, all: set<string>, good: iset<Moment>, m: Moment, k: nat)
    requires Knows(edges, keys, all, good) && m in good && k < |m.stack|
    requires CycleSearch.Callable(EdgePairs(edges), keys, m.stack, m.stack[k])
    ensures m.(cycles := m.cycles + [m.stack[k..]]) in good && m.stack[k] in m.visited
    ensures OneMore(m.cycles, m.cycles + [m.stack[k..]], m.stack[|m.stack| - 1], m.stack[k])
    ensures (m.stack[|m.stack| - 1], m.stack[k]) in CycleSearch.ClosingEdges(m.cycles + [m.stack[k..]])
  {
    assert Good(edges, keys, all, m);
    CycleSearch.CloseCycle(EdgePairs(edges), keys, m.visited, m.stack, m.cycles, m.done, k);
    AddOne(edges, m.cycles, m.stack[k..], m.visited, m.done, m.stack[|m.stack| - 1], m.stack[k]);
    assert Good(edges, keys, all, m.(cycles := m.cycles + [m.stack[k..]]));
  }

  lemma EnterGood(edges: seq<CodeEdge>, keys: set<string>, all: set<string>, good: iset<Moment>, m: Moment, id: string)
    requires Knows(edges, keys, all, good) && m in good && id !in m.visited
    requires CycleSearch.Callable(EdgePairs(edges), keys, m.stack, id)
    ensures m.(visited := m.visited + {id}, stack := m.stack + [id]) in good && id in all
    ensures forall v :: CycleSearch.Closings(m.cycles, id, v) == 0
    ensures forall x :: x in m.stack + [id] <==> x in m.stack || x == id
  {
    assert Good(edges, keys, all, m);
    CycleSearch.Enter(EdgePairs(edges), keys, m.visited, m.stack, m.cycles, m.done, id);
    if m.stack != [] {
      var e :| e in edges && (e.from, e.to) == (m.stack[|m.stack| - 1], id);
    }
    assert Good(edges, keys, all, m.(visited := m.visited + {id}, stack := m.stack + [id]));
  }

  lemma LeaveGood(edges: seq<CodeEdge>, keys: set<string>, all: set<string>, good: iset<Moment>, m: Moment, id: string)
    requires Knows(edges, keys, all, good) && m in good && m.stack != [] && m.stack[|m.stack| - 1] == id
    requires forall w :: (id, w) in CycleSearch.Unclosed(EdgePairs(edges), m.cycles) ==> w in m.done
    requires AllOrNone(edges, m.cycles, id)
    ensures m.(stack := m.stack[..|m.stack| - 1], done := m.done + [id]) in good
    ensures forall x :: x in m.stack[..|m.stack| - 1] <==> x in m.stack && x != id
  {
    assert Good(edges, keys, all, m);
    CycleSearch.Leave(EdgePairs(edges), keys, m.visited, m.stack, m.cycles, m.done, id);
    LastOut(m.stack, id);
    assert Good(edges, keys, all, m.(stack := m.stack[..|m.stack| - 1], done := m.done + [id]));
  }

  lemma LastOut(stack: seq<string>, id: string)
    requires Distinct(stack) && stack != [] && stack[|stack| - 1] == id
    ensures forall x :: x in stack[..|stack| - 1] <==> x in stack && x != id
  {
    assert stack == stack[..|stack| - 1] + [id];
  }

  /** At the end of the search what it promises is met. */
  lemma EndGood(edges: seq<CodeEdge>, keys: set<string>, all: set<string>, good: iset<Moment>, m: Moment)
    requires Knows(edges, keys, all, good) && m in good && m.stack == [] && keys <= m.visited
    ensures CycleSearch.IsCycleList(EdgePairs(edges), keys, m.cycles)
    ensures m.cycles == [] <==>
              forall x :: CycleSearch.FromKeys(EdgePairs(edges), keys, x) ==> !OnCycle(EdgePairs(edges), x)
    ensures forall u :: AllOrNone(edges, m.cycles, u)
  {
    assert Good(edges, keys, all, m);
    CycleSearch.Verdict(EdgePairs(edges), keys, m.visited, m.cycles, m.done);
    forall u
      ensures AllOrNone(edges, m.cycles, u)
    {
      if u in m.visited {
        assert u in m.done;
      }
    }
  }

  // ---- how often an edge closes a list ----

  /** How many of the edges lead from `u` to `v`. */
  ghost function Multiplicity(edges: seq<CodeEdge>, u: string, v: string): nat {
    if edges == [] then 0
    else
      var e := edges[|edges| - 1];
      Multiplicity(edges[..|edges| - 1], u, v) + if e.from == u && e.to == v then 1 else 0
  }

  /** How many of the first `k` edges lead to `v`. */
  ghost function CountTo(out: seq<CodeEdge>, k: nat, v: string): nat
    requires k <= |out|
  {
    if k == 0 then 0 else CountTo(out, k - 1, v) + if out[k - 1].to == v then 1 else 0
  }

  /** An edge from `u` closes no list, or one for each time that it was added. */
  ghost predicate AllOrNone(edges: seq<CodeEdge>, cycles: seq<seq<string>>, u: string) {
    forall v ::
      CycleSearch.Closings(cycles, u, v) == 0 || CycleSearch.Closings(cycles, u, v) == Multiplicity(edges, u, v)
  }

  /** The counts of finished nodes are final, and nothing is closed from a node not yet visited. */
  ghost predicate Settled(edges: seq<CodeEdge>, cycles: seq<seq<string>>, visited: set<string>, done: seq<string>) {
    && (forall u {:trigger AllOrNone(edges, cycles, u)} :: u in done ==> AllOrNone(edges, cycles, u))
    && (forall u, v :: u !in visited ==> CycleSearch.Closings(cycles, u, v) == 0)
  }

  ghost predicate SameClosings(before: seq<seq<string>>, after: seq<seq<string>>, nodes: set<string>) {
    forall u, v :: u in nodes ==> CycleSearch.Closings(after, u, v) == CycleSearch.Closings(before, u, v)
  }

  /** One list more is closed by the edge from `x` to `y`, and none by any other. */
  ghost predicate OneMore(before: seq<seq<string>>, after: seq<seq<string>>, x: string, y: string) {
    forall u, v ::
      CycleSearch.Closings(after, u, v) == CycleSearch.Closings(before, u, v) + if u == x && v == y then 1 else 0
  }

  /** The first `k` edges from the top of the stack have been followed: one list each for those that
      lead back into the stack. */
  ghost predicate Tally(cycles: seq<seq<string>>, id: string, stack: seq<string>, out: seq<CodeEdge>, k: nat)
    requires k <= |out|
  {
    forall v :: CycleSearch.Closings(cycles, id, v) == if v in stack then CountTo(out, k, v) else 0
  }

  ghost predicate Scanned(out: seq<CodeEdge>, k: nat, id: string, done: seq<string>, cycles: seq<seq<string>>)
    requires k <= |out|
  {
    forall j :: 0 <= j < k ==> out[j].to in done || (id, out[j].to) in CycleSearch.ClosingEdges(cycles)
  }

  lemma ScannedNext(out: seq<CodeEdge>, k: nat, id: string, done: seq<string>, done': seq<string>,
                    cycles: seq<seq<string>>, cycles': seq<seq<string>>)
    requires k < |out| && Scanned(out, k, id, done, cycles)
    requires cycles <= cycles' && forall x :: x in done ==> x in done'
    requires out[k].to in done' || (id, out[k].to) in CycleSearch.ClosingEdges(cycles')
    ensures Scanned(out, k + 1, id, done', cycles')
  {
    forall j | 0 <= j < k
      ensures out[j].to in done' || (id, out[j].to) in CycleSearch.ClosingEdges(cycles')
    {
      CycleSearch.ClosingsGrow(cycles, cycles', id, out[j].to);
    }
  }

  lemma EdgesLead(edges: seq<CodeEdge>, id: string, out: seq<CodeEdge>)
    requires out == From(edges, id)
    ensures forall i :: 0 <= i < |out| ==> (id, out[i].to) in EdgePairs(edges)
  {
    OutTargets(edges, id, out);
  }

  lemma AllScanned(edges: seq<CodeEdge>, out: seq<CodeEdge>, id: string, done: seq<string>, cycles: seq<seq<string>>)
    requires out == From(edges, id) && Scanned(out, |out|, id, done, cycles)
    ensures forall w :: (id, w) in CycleSearch.Unclosed(EdgePairs(edges), cycles) ==> w in done
  {
    OutTargets(edges, id, out);
  }

  lemma SameLonger(a: seq<seq<string>>, b: seq<seq<string>>, c: seq<seq<string>>, few: set<string>, many: set<string>)
    requires SameClosings(a, b, few) && SameClosings(b, c, many) && few <= many
    ensures SameClosings(a, c, few)
  {
  }

  lemma TallyNext(cycles: seq<seq<string>>, cycles': seq<seq<string>>, id: string, stack: seq<string>,
                  out: seq<CodeEdge>, k: nat)
    requires k < |out| && Tally(cycles, id, stack, out, k)
    requires out[k].to in stack ==> OneMore(cycles, cycles', id, out[k].to)
    requires out[k].to !in stack ==> SameClosings(cycles, cycles', {id})
    ensures Tally(cycles', id, stack, out, k + 1)
  {
  }

  lemma TallyDone(edges: seq<CodeEdge>, cycles: seq<seq<string>>, id: string, stack: seq<string>, out: seq<CodeEdge>)
    requires out == From(edges, id) && Tally(cycles, id, stack, out, |out|)
    ensures AllOrNone(edges, cycles, id)
  {
    forall v
      ensures CountTo(out, |out|, v) == Multiplicity(edges, id, v)
    {
      CountFrom(edges, id, v);
    }
  }

  lemma {:induction false} CountFrom(edges: seq<CodeEdge>, u: string, v: string)
    ensures CountTo(From(edges, u), |From(edges, u)|, v) == Multiplicity(edges, u, v)
  {
    if edges != [] {
      var init, e := edges[..|edges| - 1], edges[|edges| - 1];
      CountFrom(init, u, v);
      if e.from == u {
        CountPrefix(From(init, u), e, |From(init, u)|, v);
      } else {
        assert From(init, u) + [] == From(init, u);
      }
    }
  }

  lemma {:induction false} CountPrefix(out: seq<CodeEdge>, e: CodeEdge, k: nat, v: string)
    requires k <= |out|
    ensures CountTo(out + [e], k, v) == CountTo(out, k, v)
  {
    if k > 0 {
      CountPrefix(out, e, k - 1, v);
    }
  }

  lemma AddOne(edges: seq<CodeEdge>, cycles: seq<seq<string>>, c: seq<string>, visited: set<string>, done: seq<string>,
               x: string, y: string)
    requires Settled(edges, cycles, visited, done) && x in visited && x !in done
    requires c != [] && c[|c| - 1] == x && c[0] == y
    ensures OneMore(cycles, cycles + [c], x, y) && Settled(edges, cycles + [c], visited, done)
    ensures (x, y) in CycleSearch.ClosingEdges(cycles + [c])
  {
    forall u, v
      ensures CycleSearch.Closings(cycles + [c], u, v) ==
              CycleSearch.Closings(cycles, u, v) + if u == x && v == y then 1 else 0
    {
      CycleSearch.ClosingsAppend(cycles, c, u, v);
    }
    forall u | u in done
      ensures AllOrNone(edges, cycles + [c], u)
    {
      assert AllOrNone(edges, cycles, u);
    }
  }

  // ---- helpers of the removal ----

  method CollectIds(nodes: seq<CodeNode>, filePath: string) returns (ids: set<string>)
    ensures ids == IdsOf(nodes, filePath)
  {
    ids := {};
    for i := 0 to |nodes|
      invariant ids == IdsOf(nodes[..i], filePath)
    {
      assert nodes[..i + 1] == nodes[..i] + [nodes[i]];
      if nodes[i].filePath == filePath {
        ids := ids + {nodes[i].id};
      }
    }
    assert nodes[..|nodes|] == nodes;
  }

  /** Dropping the ids of a file's nodes drops exactly its nodes. */
  lemma FileNodesGone(nodes: seq<CodeNode>, filePath: string)
    requires DistinctNodes(nodes)
    ensures forall n :: n in DropNodes(nodes, IdsOf(nodes, filePath)) <==> n in nodes && n.filePath != filePath
  {
    forall n | n in nodes
      ensures n.id in IdsOf(nodes, filePath) <==> n.filePath == filePath
    {
      SameIdSameNode(nodes, filePath, n);
    }
  }

  /** Ids that no edge touches may lose their lists. */
  lemma {:induction false} DropKeys(index: map<string, seq<nat>>, reverse: map<string, seq<nat>>,
                                    edges: seq<CodeEdge>, ids: set<string>)
    requires IndexesFrom(index, edges, |edges|) && IndexesTo(reverse, edges, |edges|)
    requires forall e :: e in edges ==> e.from !in ids && e.to !in ids
    ensures IndexesFrom(index - ids, edges, |edges|) && IndexesTo(reverse - ids, edges, |edges|)
  {
    forall id
      ensures Get(index - ids, id) == PositionsFrom(edges, id, |edges|)
      ensures Get(reverse - ids, id) == PositionsTo(edges, id, |edges|)
    {
      if id in ids {
        NoPositions(edges, id, |edges|);
      } else {
        assert Get(index - ids, id) == Get(index, id) && Get(reverse - ids, id) == Get(reverse, id);
      }
    }
  }

  // ---- helpers of the traversals ----

  function Depth(maxDepth: int): nat {
    if maxDepth < 0 then 0 else maxDepth
  }

  ghost function NodeIds(nodes: seq<CodeNode>): set<string> {
    set n | n in nodes :: n.id
  }

  function IndexOf(q: seq<string>, x: string): (i: nat)
    requires x in q
    ensures i < |q| && q[i] == x
  {
    if q[0] == x then 0 else 1 + IndexOf(q[1..], x)
  }

  /** Queues the targets of the edges from `id` that have not been visited. */
  method PushTargets(out: seq<CodeEdge>, id: string, depth: nat, visited: set<string>, queue: seq<(string, nat)>,
                     ghost E: set<(string, string)>, ghost startId: string, ghost D: map<string, nat>, ghost max: nat,
                     ghost seen: seq<string>, ghost all: set<string>)
    returns (queue': seq<(string, nat)>)
    requires visited == D.Keys && id in D && D[id] == depth < max
    requires LazyBfs.Search(E, startId, D, queue, depth, max, {id}, seen)
    requires forall i :: 0 <= i < |out| ==> (id, out[i].to) in E && out[i].to in all
    requires forall i :: 0 <= i < |queue| ==> queue[i].0 in all
    ensures LazyBfs.Search(E, startId, D, queue', depth, max, {id}, seen)
    ensures forall i :: 0 <= i < |out| ==> LazyBfs.Seen(D, queue', out[i].to, depth + 1)
    ensures forall i :: 0 <= i < |queue'| ==> queue'[i].0 in all
  {
    queue' := queue;
    for i := 0 to |out|
      invariant LazyBfs.Search(E, startId, D, queue', depth, max, {id}, seen)
      invariant forall j :: 0 <= j < |queue'| ==> queue'[j].0 in all
      invariant forall j :: 0 <= j < i ==> LazyBfs.Seen(D, queue', out[j].to, depth + 1)
    {
      var w := out[i].to;
      if w !in visited {
        LazyBfs.Push(E, startId, D, queue', depth, max, id, seen, w);
        forall j | 0 <= j < i
          ensures LazyBfs.Seen(D, queue' + [(w, depth + 1)], out[j].to, depth + 1)
        {
          LazyBfs.SeenAfterPush(D, queue', (w, depth + 1), out[j].to, depth + 1);
        }
        queue' := queue' + [(w, depth + 1)];
      }
    }
  }

  /** Marks, links and queues the targets of the edges from `id` that are new. */
  method LinkTargets(out: seq<CodeEdge>, id: string, depth: nat, visited: set<string>, parent: map<string, string>,
                     queue: seq<(string, nat)>, ghost E: set<(string, string)>, ghost fromId: string,
                     ghost toId: string, ghost D: map<string, nat>, ghost max: nat,
                     ghost list: seq<string>, ghost all: set<string>)
    returns (visited': set<string>, parent': map<string, string>, queue': seq<(string, nat)>,
             ghost D': map<string, nat>, ghost list': seq<string>)
    requires D.Keys == visited <= all && id in D && D[id] == depth < max
    requires PathSearch.Hunt(E, fromId, toId, D, parent, queue, depth, max, {id}, list)
    requires forall i :: 0 <= i < |out| ==> (id, out[i].to) in E && out[i].to in all
    ensures D'.Keys == visited' <= all && visited <= visited' && id in D' && D'[id] == depth
    ensures PathSearch.Hunt(E, fromId, toId, D', parent', queue', depth, max, {id}, list')
    ensures forall i :: 0 <= i < |out| ==> out[i].to in D'
    ensures visited' == visited ==> queue' == queue
  {
    visited', parent', queue', D', list' := visited, parent, queue, D, list;
    for i := 0 to |out|
      invariant D'.Keys == visited' && visited <= visited' <= all && id in D' && D'[id] == depth
      invariant PathSearch.Hunt(E, fromId, toId, D', parent', queue', depth, max, {id}, list')
      invariant forall j :: 0 <= j < i ==> out[j].to in visited'
      invariant visited' == visited ==> queue' == queue
    {
      var w := out[i].to;
      if w !in visited' {
        PathSearch.HuntDiscovers(E, fromId, toId, D', parent', queue', depth, max, id, list', w);
        D', list' := D'[w := depth + 1], list' + [w];
        visited' := visited' + {w};
        parent' := parent'[w := id];
        queue' := queue' + [(w, depth + 1)];
      }
    }
  }

  lemma TargetsIn(E: set<(string, string)>, id: string, out: seq<CodeEdge>, all: set<string>)
    requires forall i :: 0 <= i < |out| ==> (id, out[i].to) in E
    requires forall e :: e in E ==> e.1 in all
    ensures forall i :: 0 <= i < |out| ==> out[i].to in all
  {
    forall i | 0 <= i < |out|
      ensures out[i].to in all
    {
      assert (id, out[i].to).1 in all;
    }
  }

  /** The targets of the edges that leave a node are its successors. */
  lemma OutTargets(edges: seq<CodeEdge>, id: string, out: seq<CodeEdge>)
    requires out == From(edges, id)
    ensures forall i :: 0 <= i < |out| ==> (id, out[i].to) in EdgePairs(edges)
    ensures forall w :: (id, w) in EdgePairs(edges) ==> exists i :: 0 <= i < |out| && out[i].to == w
  {
    FromHolds(edges, id);
    forall i | 0 <= i < |out|
      ensures (id, out[i].to) in EdgePairs(edges)
    {
      assert out[i] in out;
    }
    forall w | (id, w) in EdgePairs(edges)
      ensures exists i :: 0 <= i < |out| && out[i].to == w
    {
      var e :| e in edges && e.from == id && e.to == w;
      assert e in out;
    }
  }

  /** The list with the node of `id` at the end, if there is one. */
  function ListNode(nodes: seq<CodeNode>, result: seq<CodeNode>, id: string): seq<CodeNode> {
    var i := Find(nodes, id);
    if i < |nodes| then result + [nodes[i]] else result
  }

  /** The nodes of those ids that have one. */
  ghost function Present(nodes: seq<CodeNode>, ids: seq<string>): seq<CodeNode> {
    if ids == [] then [] else ListNode(nodes, Present(nodes, ids[..|ids| - 1]), ids[|ids| - 1])
  }

  lemma PresentAppend(nodes: seq<CodeNode>, ids: seq<string>, id: string)
    ensures Present(nodes, ids + [id]) == ListNode(nodes, Present(nodes, ids), id)
  {
    assert (ids + [id])[..|ids|] == ids;
  }

  lemma {:induction false} PresentIs(nodes: seq<CodeNode>, ids: seq<string>)
    requires DistinctNodes(nodes)
    ensures forall n :: n in Present(nodes, ids) <==> n in nodes && n.id in ids
  {
    if ids != [] {
      var init, id := ids[..|ids| - 1], ids[|ids| - 1];
      PresentIs(nodes, init);
      assert ids == init + [id];
      assert forall n :: n in nodes && n.id == id ==> Find(nodes, id) < |nodes| && n == nodes[Find(nodes, id)];
    }
  }

  /** When the queue is empty, the listed nodes are those within the depth, nearest first. */
  lemma BfsAnswer(nodes: seq<CodeNode>, E: set<(string, string)>, start: string, D: map<string, nat>, level: nat,
                  max: nat, seen: seq<string>)
    requires DistinctNodes(nodes) && LazyBfs.Search(E, start, D, [], level, max, {}, seen)
    ensures IsBfsAnswer(nodes, E, start, max, Present(nodes, seen))
  {
    LazyBfs.Complete(E, start, D, level, max, seen);
    PresentIs(nodes, seen);
    PresentInOrder(nodes, seen, E, start);
  }

  /** `result` lists exactly the nodes within `max` edges of `start`, each once and nearest first. */
  ghost predicate IsBfsAnswer(nodes: seq<CodeNode>, E: set<(string, string)>, start: string, max: nat,
                              result: seq<CodeNode>)
  {
    && DistinctNodes(result)
    && (forall n :: n in result <==> n in nodes && Within(E, start, n.id, max))
    && (forall i, j, d :: 0 <= i < j < |result| && Within(E, start, result[j].id, d) ==>
          Within(E, start, result[i].id, d))
  }

  /** Leaving out ids without a node keeps the order. */
  lemma {:induction false} PresentInOrder(nodes: seq<CodeNode>, ids: seq<string>, E: set<(string, string)>,
                                          start: string)
    requires DistinctNodes(nodes) && Distinct(ids) && Eager.NearestFirst(E, start, ids)
    ensures DistinctNodes(Present(nodes, ids))
    ensures forall i, j, d ::
              0 <= i < j < |Present(nodes, ids)| && Within(E, start, Present(nodes, ids)[j].id, d) ==>
                Within(E, start, Present(nodes, ids)[i].id, d)
  {
    if ids != [] {
      var k := |ids| - 1;
      var init, id := ids[..k], ids[k];
      PresentInOrder(nodes, init, E, start);
      PresentIs(nodes, init);
      var kept := Present(nodes, init);
      forall i | 0 <= i < |kept|
        ensures kept[i].id != id
        ensures forall d :: Within(E, start, id, d) ==> Within(E, start, kept[i].id, d)
      {
        assert kept[i] in kept;
        var m :| 0 <= m < k && init[m] == kept[i].id;
        assert ids[m] == kept[i].id && ids[k] == id;
      }
    }
  }

  lemma {:induction false} NoPositions(edges: seq<CodeEdge>, id: string, k: nat)
    requires k <= |edges| && forall e :: e in edges ==> e.from != id && e.to != id
    ensures PositionsFrom(edges, id, k) == [] && PositionsTo(edges, id, k) == []
  {
    if k > 0 {
      NoPositions(edges, id, k - 1);
      assert edges[k - 1] in edges;
    }
  }

  lemma SameIdSameNode(nodes: seq<CodeNode>, filePath: string, n: CodeNode)
    requires DistinctNodes(nodes) && n in nodes
    ensures n.id in IdsOf(nodes, filePath) <==> n.filePath == filePath
  {
    if n.id in IdsOf(nodes, filePath) {
      var m :| m in nodes && m.filePath == filePath && m.id == n.id;
      var i :| 0 <= i < |nodes| && nodes[i] == n;
      var j :| 0 <= j < |nodes| && nodes[j] == m;
      assert i == j;
    }
  }
}
