/** Shortest paths from a breadth-first search with parent links. */
module PathSearch {
  import opened Graph
  import Bfs

  ghost predicate IsPath<T(!new)>(E: set<(T, T)>, p: seq<T>, u: T, v: T) {
    && p != [] && p[0] == u && p[|p| - 1] == v
    && forall i :: 0 <= i < |p| - 1 ==> (p[i], p[i + 1]) in E
  }

  /** `p` leads from `u` to `v` along edges, and no walk is shorter. */
  ghost predicate IsShortestPath<T(!new)>(E: set<(T, T)>, p: seq<T>, u: T, v: T) {
    IsPath(E, p, u, v) && !Within(E, u, v, |p| - 2)
  }

  lemma {:induction false} PathIsWalk<T(!new)>(E: set<(T, T)>, p: seq<T>, u: T, v: T)
    requires IsPath(E, p, u, v)
    ensures Walk(E, u, v, |p| - 1)
    decreases |p|
  {
    if |p| > 1 {
      assert (p[0], p[1]) in E;
      PathIsWalk(E, p[1..], p[1], v);
    }
  }

  /** The parent links lead from every known node except `start` to a node one level lower. */
  ghost predicate Tree<T(!new)>(E: set<(T, T)>, start: T, D: map<T, nat>, parent: map<T, T>) {
    && start in D && D[start] == 0
    && (forall v :: v in parent <==> v in D && v != start)
    && (forall v :: v in parent ==> parent[v] in D && (parent[v], v) in E && D[v] == D[parent[v]] + 1)
  }

  ghost function TreePath<T(!new)>(E: set<(T, T)>, start: T, D: map<T, nat>, parent: map<T, T>, v: T): (p: seq<T>)
    requires Tree(E, start, D, parent) && v in D
    ensures |p| == D[v] + 1 && IsPath(E, p, start, v)
    decreases D[v]
  {
    if v !in parent then [v] else TreePath(E, start, D, parent, parent[v]) + [v]
  }

  lemma GrowTree<T(!new)>(E: set<(T, T)>, start: T, D: map<T, nat>, parent: map<T, T>, node: T, w: T)
    requires Tree(E, start, D, parent) && node in D && w !in D && (node, w) in E
    ensures Tree(E, start, D[w := D[node] + 1], parent[w := node])
  {
  }

  /** A node that leaves the queue is as near as its level says. */
  lemma DequeuedIsNearest<T(!new)>(E: set<(T, T)>, start: T, D: map<T, nat>, queue: seq<(T, nat)>, level: nat, max: nat,
                                   node: T, result: seq<T>)
    requires Bfs.Search(E, start, D, queue, level, max, {node}, result) && node in D && D[node] == level
    ensures !Within(E, start, node, level - 1)
  {
    forall x | x in D && D[x] < level
      ensures Bfs.Expanded(E, D, x)
    {
      assert !Bfs.Queued(queue, x);
    }
    if Within(E, start, node, level - 1) {
      Bfs.Cover(E, start, D, level, node, level - 1);
    }
  }

  // ---- the search for a target ----

  /** A breadth-first search with parent links, in which `to` waits once it is known. */
  ghost predicate Hunt<T(!new)>(E: set<(T, T)>, start: T, to: T, D: map<T, nat>, parent: map<T, T>,
                                queue: seq<(T, nat)>, level: nat, max: nat, cur: set<T>, list: seq<T>)
  {
    && Bfs.Search(E, start, D, queue, level, max, cur, list)
    && Tree(E, start, D, parent)
    && (to in D ==> Bfs.Queued(queue, to))
  }

  lemma HuntBegins<T(!new)>(E: set<(T, T)>, start: T, to: T, max: nat)
    ensures Hunt(E, start, to, map[start := 0], map[], [(start, 0)], 0, max, {}, [])
  {
    Bfs.Begin(E, start, max);
    var queue: seq<(T, nat)> := [(start, 0)];
    assert queue[0].0 == start;
  }

  /** The front of the queue is the target: the parent links give a shortest path. */
  lemma HuntEnds<T(!new)>(E: set<(T, T)>, start: T, to: T, D: map<T, nat>, parent: map<T, T>, queue: seq<(T, nat)>,
                          level: nat, max: nat, list: seq<T>)
    requires Hunt(E, start, to, D, parent, queue, level, max, {}, list) && queue != [] && queue[0].0 == to
    ensures Tree(E, start, D, parent) && to in D
    ensures IsShortestPath(E, TreePath(E, start, D, parent, to), start, to)
    ensures Within(E, start, to, max)
  {
    Bfs.Take(E, start, D, queue, level, max, list);
    DequeuedIsNearest(E, start, D, queue[1..], queue[0].1, max, to, list);
  }

  lemma HuntTakes<T(!new)>(E: set<(T, T)>, start: T, to: T, D: map<T, nat>, parent: map<T, T>, queue: seq<(T, nat)>,
                           level: nat, max: nat, list: seq<T>)
    requires Hunt(E, start, to, D, parent, queue, level, max, {}, list) && queue != [] && queue[0].0 != to
    ensures queue[0].0 in D && D[queue[0].0] == queue[0].1
    ensures Hunt(E, start, to, D, parent, queue[1..], queue[0].1, max, {queue[0].0}, list)
  {
    Bfs.Take(E, start, D, queue, level, max, list);
    if to in D {
      var i :| 0 <= i < |queue| && queue[i].0 == to;
      assert queue[1..][i - 1].0 == to;
    }
  }

  lemma HuntDiscovers<T(!new)>(E: set<(T, T)>, start: T, to: T, D: map<T, nat>, parent: map<T, T>, queue: seq<(T, nat)>,
                               level: nat, max: nat, node: T, list: seq<T>, w: T)
    requires Hunt(E, start, to, D, parent, queue, level, max, {node}, list)
    requires node in D && D[node] == level < max && (node, w) in E && w !in D
    ensures Hunt(E, start, to, D[w := level + 1], parent[w := node], queue + [(w, level + 1)], level, max, {node},
                 list + [w])
  {
    Bfs.Discover(E, start, D, queue, level, max, node, list, w);
    GrowTree(E, start, D, parent, node, w);
    var queue' := queue + [(w, level + 1)];
    assert queue'[|queue|].0 == w;
    if to in D {
      var i :| 0 <= i < |queue| && queue[i].0 == to;
      assert queue'[i].0 == to;
    }
  }

  lemma HuntExpanded<T(!new)>(E: set<(T, T)>, start: T, to: T, D: map<T, nat>, parent: map<T, T>, queue: seq<(T, nat)>,
                              level: nat, max: nat, node: T, list: seq<T>)
    requires Hunt(E, start, to, D, parent, queue, level, max, {node}, list) && node in D && D[node] == level
    requires level < max ==> forall w :: (node, w) in E ==> w in D
    ensures Hunt(E, start, to, D, parent, queue, level, max, {}, list)
  {
    Bfs.Finish(E, start, D, queue, level, max, node, list);
  }

  lemma HuntFails<T(!new)>(E: set<(T, T)>, start: T, to: T, D: map<T, nat>, parent: map<T, T>,
                           level: nat, max: nat, list: seq<T>)
    requires Hunt(E, start, to, D, parent, [], level, max, {}, list)
    ensures !Within(E, start, to, max)
  {
    Bfs.Complete(E, start, D, level, max, list);
    assert !Bfs.Queued([], to);
  }

  // ---- rebuilding the path ----

  /** The part of a path after its last blank id, not counting its end: what a walk back along the
      parent links keeps if it stops before a blank id. */
  ghost function AfterBlank(p: seq<string>): (r: seq<string>)
    requires p != []
    ensures r != [] && |r| <= |p|
  {
    var n := |p| - 1;
    if n == 0 || p[n - 1] == "" then [p[n]] else AfterBlank(p[..n]) + [p[n]]
  }

  /** Nothing is lost if and only if no id on the path before its end is blank. */
  lemma {:induction false} AfterBlankExactly(p: seq<string>)
    requires p != []
    ensures AfterBlank(p) == p <==> "" !in p[..|p| - 1]
    ensures AfterBlank(p) != p ==> |AfterBlank(p)| < |p|
  {
    var n := |p| - 1;
    if n > 0 {
      AfterBlankExactly(p[..n]);
      assert p[..n] == p[..n - 1] + [p[n - 1]];
      assert p == p[..n] + [p[n]];
      assert p[..n][..n - 1] == p[..n - 1];
    }
  }

  /** An edge that leaves the blank id leads back to it. */
  ghost predicate BlankLeadsNowhere(E: set<(string, string)>) {
    forall w :: ("", w) in E ==> w == ""
  }

  /** A walk of the length of a path's part, around a node that the path meets twice in a row. */
  lemma SkipRepeat(E: set<(string, string)>, p: seq<string>, u: string, v: string, i: nat)
    requires IsPath(E, p, u, v) && i + 1 < |p| && p[i] == p[i + 1]
    ensures Within(E, u, v, |p| - 2)
  {
    PathIsWalk(E, p[..i + 1], u, p[i]);
    PathIsWalk(E, p[i + 1..], p[i], v);
    WalkAppend(E, u, p[i], v, i, |p| - 2 - i);
  }

  /** If a blank id leads nowhere, it is on no shortest path before its end. */
  lemma NoBlankInside(E: set<(string, string)>, p: seq<string>, u: string, v: string)
    requires BlankLeadsNowhere(E) && IsShortestPath(E, p, u, v)
    ensures AfterBlank(p) == p
  {
    if "" in p[..|p| - 1] {
      var i :| 0 <= i < |p| - 1 && p[i] == "";
      assert (p[i], p[i + 1]) in E;
      SkipRepeat(E, p, u, v, i);
    }
    AfterBlankExactly(p);
  }

  /** A cut answer does not lead from start to end: it would be shorter than a shortest path. */
  lemma CutLeadsAstray(E: set<(string, string)>, p: seq<string>, u: string, v: string)
    requires IsShortestPath(E, p, u, v)
    ensures IsPath(E, AfterBlank(p), u, v) <==> "" !in p[..|p| - 1]
  {
    AfterBlankExactly(p);
    if IsPath(E, AfterBlank(p), u, v) {
      PathIsWalk(E, AfterBlank(p), u, v);
    }
  }

  /** A blank id that leads on cuts every shortest path along that edge down to its end. */
  lemma BlankCuts(E: set<(string, string)>, w: string)
    requires ("", w) in E && w != ""
    ensures IsShortestPath(E, ["", w], "", w)
    ensures forall p :: IsShortestPath(E, p, "", w) ==> AfterBlank(p) == [w]
    ensures !IsPath(E, [w], "", w)
  {
    assert !Walk(E, "", w, 0);
    WalkEdge(E, "", w);
    assert Within(E, "", w, 1);
    forall p | IsShortestPath(E, p, "", w)
      ensures AfterBlank(p) == [w]
    {
      assert |p| - 2 < 1;
      assert p == ["", w];
    }
  }

  /** Every shortest path keeps leading from its start to its end, and in full, if and only if no edge
      leaves the blank id for another one; and if one does, then every answer along it is cut. */
  lemma CutPathsLead(E: set<(string, string)>)
    ensures (forall p, u, v :: IsShortestPath(E, p, u, v) ==> IsPath(E, AfterBlank(p), u, v)) <==> BlankLeadsNowhere(E)
    ensures (forall p, u, v :: IsShortestPath(E, p, u, v) ==> AfterBlank(p) == p) <==> BlankLeadsNowhere(E)
    ensures !BlankLeadsNowhere(E) ==>
              exists w :: ("", w) in E && w != "" && forall p :: IsShortestPath(E, p, "", w) ==> AfterBlank(p) == [w]
  {
    if BlankLeadsNowhere(E) {
      forall p, u, v | IsShortestPath(E, p, u, v)
        ensures AfterBlank(p) == p
      {
        NoBlankInside(E, p, u, v);
      }
    } else {
      var w :| ("", w) in E && w != "";
      BlankCuts(E, w);
    }
  }

  /** From `a` to `b` by way of the blank id: the answer is `b` alone. */
  lemma BlankOnTheWay(p: seq<string>)
    requires IsShortestPath({("a", ""), ("", "b")}, p, "a", "b")
    ensures p == ["a", "", "b"] && AfterBlank(p) == ["b"]
    ensures !IsPath({("a", ""), ("", "b")}, AfterBlank(p), "a", "b")
  {
    var E := {("a", ""), ("", "b")};
    var q := ["a", "", "b"];
    assert IsPath(E, q, "a", "b");
    PathIsWalk(E, q, "a", "b");
    assert |p| <= 3;
    assert (p[0], p[1]) in E;
    assert (p[1], p[2]) in E;
  }

  /** The nodes met on the way back from `v`, up to a parent with a blank id. */
  ghost function Climb(E: set<(string, string)>, start: string, D: map<string, nat>, parent: map<string, string>,
                       v: string): (p: seq<string>)
    requires Tree(E, start, D, parent) && v in D
    decreases D[v]
  {
    if v in parent && parent[v] != "" then Climb(E, start, D, parent, parent[v]) + [v] else [v]
  }

  lemma {:induction false} ClimbIsAfterBlank(E: set<(string, string)>, start: string, D: map<string, nat>,
                                             parent: map<string, string>, v: string)
    requires Tree(E, start, D, parent) && v in D
    ensures Climb(E, start, D, parent, v) == AfterBlank(TreePath(E, start, D, parent, v))
    decreases D[v]
  {
    if v in parent {
      var shorter := TreePath(E, start, D, parent, parent[v]);
      assert (shorter + [v])[..|shorter|] == shorter;
      ClimbIsAfterBlank(E, start, D, parent, parent[v]);
    }
  }

  /** Follows the parent links back from `to`. */
  method Rebuild(parent: map<string, string>, to: string,
                 ghost E: set<(string, string)>, ghost start: string, ghost D: map<string, nat>)
    returns (path: seq<string>)
    requires Tree(E, start, D, parent) && to in D
    ensures path == AfterBlank(TreePath(E, start, D, parent, to))
  {
    ClimbIsAfterBlank(E, start, D, parent, to);
    path := [to];
    var current := to;
    ghost var tail: seq<string> := [];
    while current in parent
      invariant current in D && path == [current] + tail
      invariant Climb(E, start, D, parent, to) == Climb(E, start, D, parent, current) + tail
      decreases D[current]
    {
      var next := parent[current];
      if next == "" {
        break;
      }
      tail := path;
      current := next;
      path := [current] + path;
    }
  }
}
