/** `callers`, `callees` and `blast_radius`: bounded traversals of the call graph. */
module Impact {
  import opened Graph
  import opened Sets
  import opened Sorting
  import opened CsrGraph
  import Bfs

  // ---- adjacency maps ----

  method ForwardLists(g: Csr) returns (adj: map<nat, seq<nat>>)
    requires g.Valid()
    ensures Bfs.Lists(adj, g.Edges())
  {
    adj := map[];
    for i := 0 to |g.from|
      invariant forall u: nat, v: nat {:trigger (u, v) in g.Prefix(i)} ::
                  (u, v) in g.Prefix(i) <==> u in adj && v in adj[u]
    {
      g.PrefixGrows(i);
      var from, to := g.from[i], g.to[i];
      adj := adj[from := (if from in adj then adj[from] else []) + [to]];
    }
  }

  method ReverseLists(g: Csr) returns (adj: map<nat, seq<nat>>)
    requires g.Valid()
    ensures Bfs.Lists(adj, Reverse(g.Edges()))
  {
    adj := map[];
    for i := 0 to |g.from|
      invariant forall u: nat, v: nat {:trigger (v, u) in g.Prefix(i)} ::
                  (v, u) in g.Prefix(i) <==> u in adj && v in adj[u]
    {
      g.PrefixGrows(i);
      var from, to := g.from[i], g.to[i];
      adj := adj[to := (if to in adj then adj[to] else []) + [from]];
    }
    forall u: nat, v: nat
      ensures (u, v) in Reverse(g.Edges()) <==> u in adj && v in adj[u]
    {
      ReverseEdge(g.Edges(), v, u);
    }
  }

  lemma ReverseEdge(E: set<(nat, nat)>, v: nat, u: nat)
    ensures (u, v) in Reverse(E) <==> (v, u) in E
  {
    if (v, u) in E {
      assert (v, u).0 == v;
    }
  }

  // ---- the two traversals ----

  /** Nodes other than `target` from which `target` is at most `max` edges away, nearest first. */
  method Callers(target: nat, g: Csr, max: nat) returns (result: seq<nat>)
    requires g.Valid()
    ensures Distinct(result)
    ensures forall v: nat :: v in result <==> v != target && Within(g.Edges(), v, target, max)
    ensures forall i, j, d ::
              0 <= i < j < |result| && Within(g.Edges(), result[j], target, d) ==>
                Within(g.Edges(), result[i], target, d)
  {
    var adj := ReverseLists(g);
    result := Bfs.Traverse(adj, target, max, Reverse(g.Edges()));
    forall v: nat, d: int
      ensures Within(Reverse(g.Edges()), target, v, d) <==> Within(g.Edges(), v, target, d)
    {
      WithinReverse(g.Edges(), v, target, d);
    }
  }

  /** Nodes other than `source` at most `max` edges away from it, nearest first. */
  method Callees(source: nat, g: Csr, max: nat) returns (result: seq<nat>)
    requires g.Valid()
    ensures Distinct(result)
    ensures forall v: nat :: v in result <==> v != source && Within(g.Edges(), source, v, max)
    ensures forall i, j, d ::
              0 <= i < j < |result| && Within(g.Edges(), source, result[j], d) ==>
                Within(g.Edges(), source, result[i], d)
  {
    var adj := ForwardLists(g);
    result := Bfs.Traverse(adj, source, max, g.Edges());
  }

  lemma WithinReverse(E: set<(nat, nat)>, v: nat, t: nat, d: int)
    ensures Within(Reverse(E), t, v, d) <==> Within(E, v, t, d)
  {
    if Within(Reverse(E), t, v, d) {
      var k: nat :| k <= d && Walk(Reverse(E), t, v, k);
      WalkReverse(E, v, t, k);
    }
    if Within(E, v, t, d) {
      var k: nat :| k <= d && Walk(E, v, t, k);
      WalkReverse(E, v, t, k);
    }
  }

  // ---- blast radius ----

  datatype BlastRadius = BlastRadius(direct: seq<nat>, transitive: seq<nat>, total: nat, score: real)

  /** `v` is not modified and some modified node is at most `d` edges away from it. */
  ghost predicate Depends(E: set<(nat, nat)>, modified: seq<nat>, v: nat, d: int) {
    v !in modified && exists m :: m in modified && Within(E, v, m, d)
  }

  predicate Smaller(a: nat, b: nat) {
    a < b
  }

  /** The nodes of `modified`'s callers that are not modified themselves. */
  method CallersOfAll(modified: seq<nat>, g: Csr, max: nat) returns (s: set<nat>)
    requires g.Valid()
    ensures forall v: nat :: v in s <==> Depends(g.Edges(), modified, v, max)
  {
    s := {};
    for i := 0 to |modified|
      invariant forall v: nat :: v in s <==>
                  v !in modified && exists j :: 0 <= j < i && Within(g.Edges(), v, modified[j], max)
    {
      var found := Callers(modified[i], g, max);
      s := s + set c | c in found && c !in modified;
    }
  }

  method ComputeBlastRadius(modified: seq<nat>, g: Csr, totalNodes: nat, max: nat) returns (r: BlastRadius)
    requires g.Valid()
    ensures Ascending(Smaller, r.direct) && Ascending(Smaller, r.transitive)
    ensures forall v: nat :: v in r.direct <==> Depends(g.Edges(), modified, v, 1)
    ensures forall v: nat :: v in r.transitive <==>
              Depends(g.Edges(), modified, v, max) && !Depends(g.Edges(), modified, v, 1)
    ensures r.total == |r.direct| + |r.transitive|
    ensures r.score == if totalNodes > 0 then r.total as real / totalNodes as real else 0.0
  {
    var directSet := CallersOfAll(modified, g, 1);
    var allSet := CallersOfAll(modified, g, max);
    var direct := SortedList(Smaller, directSet);
    var transitive := SortedList(Smaller, set v | v in allSet && v !in direct);
    var total := |direct| + |transitive|;
    r := BlastRadius(direct, transitive, total,
                     if totalNodes > 0 then total as real / totalNodes as real else 0.0);
  }

  /** What `ComputeBlastRadius` promises of its two lists. */
  ghost predicate IsBlastRadius(E: set<(nat, nat)>, modified: seq<nat>, max: nat, r: BlastRadius) {
    && (forall v: nat :: v in r.direct <==> Depends(E, modified, v, 1))
    && (forall v: nat :: v in r.transitive <==> Depends(E, modified, v, max) && !Depends(E, modified, v, 1))
  }

  /** Every caller of a modified node is modified itself. */
  ghost predicate CallersModified(E: set<(nat, nat)>, modified: seq<nat>) {
    forall v, m :: (v, m) in E && m in modified ==> v in modified
  }

  lemma DependsDirectly(E: set<(nat, nat)>, modified: seq<nat>, v: nat)
    ensures Depends(E, modified, v, 1) <==> v !in modified && exists m :: m in modified && (v, m) in E
  {
    if Depends(E, modified, v, 1) {
      var m :| m in modified && Within(E, v, m, 1);
      var k: nat :| k <= 1 && Walk(E, v, m, k);
      assert k == 1;
      var w :| (v, w) in E && Walk(E, w, m, 0);
    }
    if m :| v !in modified && m in modified && (v, m) in E {
      WalkEdge(E, v, m);
      assert Within(E, v, m, 1);
    }
  }

  lemma DependsFurther(E: set<(nat, nat)>, modified: seq<nat>, v: nat, max: nat)
    ensures max >= 1 && Depends(E, modified, v, 1) ==> Depends(E, modified, v, max)
    ensures !Depends(E, modified, v, 0)
  {
    if max >= 1 && Depends(E, modified, v, 1) {
      var m :| m in modified && Within(E, v, m, 1);
      var k: nat :| k <= 1 && Walk(E, v, m, k);
      assert Within(E, v, m, max);
    }
    forall m | Within(E, v, m, 0)
      ensures v == m
    {
      assert Walk(E, v, m, 0);
    }
  }

  /** The two lists split exactly the nodes within `max` of a modified node, unless `max` is 0 while
      some node that is not modified calls a modified one: the direct list ignores the depth bound. */
  lemma SplitsWithinDepth(E: set<(nat, nat)>, modified: seq<nat>, max: nat, r: BlastRadius)
    requires IsBlastRadius(E, modified, max, r)
    ensures (forall v: nat :: v in r.direct || v in r.transitive <==> Depends(E, modified, v, max)) <==>
              max >= 1 || CallersModified(E, modified)
  {
    forall v: nat
      ensures v in r.direct <==> v !in modified && exists m :: m in modified && (v, m) in E
      ensures max >= 1 && v in r.direct ==> Depends(E, modified, v, max)
      ensures !Depends(E, modified, v, 0)
    {
      DependsDirectly(E, modified, v);
      DependsFurther(E, modified, v, max);
    }
    if max == 0 && !CallersModified(E, modified) {
      var v, m :| (v, m) in E && m in modified && v !in modified;
      assert v in r.direct;
    }
  }

  /** With a depth of 0, a direct caller is reported all the same. */
  lemma DepthZeroReportsCaller(r: BlastRadius)
    requires IsBlastRadius({(1, 0)}, [0], 0, r)
    ensures 1 in r.direct && !Depends({(1, 0)}, [0], 1, 0)
  {
    DependsDirectly({(1, 0)}, [0], 1);
    DependsFurther({(1, 0)}, [0], 1, 0);
  }
}
