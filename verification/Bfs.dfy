/** Breadth-first search: why levels found in queue order are true distances, and the traversal
    that `callers` and `callees` run. */
module Bfs {
  import opened Graph
  import opened Sets

  /** `D` assigns to every node it knows the length of some walk from `start`. */
  ghost predicate Labels<T(!new)>(E: set<(T, T)>, start: T, D: map<T, nat>) {
    && start in D && D[start] == 0
    && forall v :: v in D ==> Walk(E, start, v, D[v])
  }

  /** The successors of `x` are known, one level further at most. */
  ghost predicate Expanded<T(!new)>(E: set<(T, T)>, D: map<T, nat>, x: T)
    requires x in D
  {
    forall w :: (x, w) in E ==> w in D && D[w] <= D[x] + 1
  }

  /** If every known node below level `k` is expanded, then everything within `k` is known, at a
      level no higher than its distance. */
  lemma Cover<T(!new)>(E: set<(T, T)>, start: T, D: map<T, nat>, k: int, v: T, j: int)
    requires start in D && D[start] == 0 && Within(E, start, v, j) && j <= k
    requires forall x {:trigger Expanded(E, D, x)} :: x in D && D[x] < k ==> Expanded(E, D, x)
    ensures v in D && D[v] <= j
  {
    var i: nat :| i <= j && Walk(E, start, v, i);
    CoverWalk(E, start, D, k, v, i);
  }

  lemma {:induction false} CoverWalk<T(!new)>(E: set<(T, T)>, start: T, D: map<T, nat>, k: int, v: T, i: nat)
    requires start in D && D[start] == 0 && Walk(E, start, v, i) && i <= k
    requires forall x {:trigger Expanded(E, D, x)} :: x in D && D[x] < k ==> Expanded(E, D, x)
    ensures v in D && D[v] <= i
    decreases i
  {
    if i > 0 {
      var p := WalkLast(E, start, v, i);
      CoverWalk(E, start, D, k, p, i - 1);
      assert Expanded(E, D, p);
    }
  }

  /** The adjacency lists `adj` hold the edges `E`. */
  ghost predicate Lists<T(!new)>(adj: map<T, seq<T>>, E: set<(T, T)>) {
    forall u, v {:trigger (u, v) in E} :: (u, v) in E <==> u in adj && v in adj[u]
  }

  /** No node of the list is nearer to `start` than an earlier one. */
  ghost predicate NearestFirst<T(!new)>(E: set<(T, T)>, start: T, q: seq<T>) {
    forall i, j, d :: 0 <= i < j < |q| && Within(E, start, q[j], d) ==> Within(E, start, q[i], d)
  }

  /** The queue holds known nodes level by level, from `level` to at most one further; nothing is
      known beyond. */
  ghost predicate QueueOk<T(!new)>(D: map<T, nat>, queue: seq<(T, nat)>, level: nat) {
    && (forall i :: 0 <= i < |queue| ==> queue[i].0 in D && D[queue[i].0] == queue[i].1)
    && (forall i :: 0 <= i < |queue| ==> level <= queue[i].1)
    && (forall i, j :: 0 <= i < j < |queue| ==> queue[i].1 <= queue[j].1)
    && (forall v :: v in D ==> D[v] <= level + 1)
  }

  ghost predicate Queued<T>(queue: seq<(T, nat)>, x: T) {
    exists i :: 0 <= i < |queue| && queue[i].0 == x
  }

  /** Every known node below the last level waits, is in `cur`, or is expanded. */
  ghost predicate Progress<T(!new)>(E: set<(T, T)>, D: map<T, nat>, queue: seq<(T, nat)>, max: nat, cur: set<T>) {
    forall x {:trigger Queued(queue, x)} {:trigger Expanded(E, D, x)} ::
      x in D && x !in cur && !Queued(queue, x) && D[x] < max ==> Expanded(E, D, x)
  }

  /** The list holds the known nodes except `start`, level by level. */
  ghost predicate ListOk<T(!new)>(start: T, D: map<T, nat>, result: seq<T>) {
    && Distinct(result)
    && (forall v :: v in D <==> v == start || v in result)
    && start !in result
    && (forall i, j :: 0 <= i < j < |result| ==> result[i] in D && result[j] in D && D[result[i]] <= D[result[j]])
  }

  /** The state of a search that lists nodes when it first sees them. */
  ghost predicate Search<T(!new)>(E: set<(T, T)>, start: T, D: map<T, nat>, queue: seq<(T, nat)>, level: nat,
                                  max: nat, cur: set<T>, result: seq<T>)
  {
    && Labels(E, start, D)
    && QueueOk(D, queue, level)
    && Progress(E, D, queue, max, cur)
    && ListOk(start, D, result)
    && (forall v :: v in D ==> D[v] <= max)
  }

  lemma Begin<T(!new)>(E: set<(T, T)>, start: T, max: nat)
    ensures Search(E, start, map[start := 0], [(start, 0)], 0, max, {}, [])
  {
    var D: map<T, nat> := map[start := 0];
    assert Walk(E, start, start, 0);
    assert Queued([(start, 0 as nat)], start) by {
      assert [(start, 0 as nat)][0].0 == start;
    }
  }

  /** The front of the queue becomes the current node. */
  lemma Take<T(!new)>(E: set<(T, T)>, start: T, D: map<T, nat>, queue: seq<(T, nat)>, level: nat, max: nat,
                      result: seq<T>)
    requires Search(E, start, D, queue, level, max, {}, result) && queue != []
    ensures queue[0].0 in D && D[queue[0].0] == queue[0].1
    ensures Search(E, start, D, queue[1..], queue[0].1, max, {queue[0].0}, result)
  {
    forall x | x != queue[0].0 && Queued(queue, x)
      ensures Queued(queue[1..], x)
    {
      var i :| 0 <= i < |queue| && queue[i].0 == x;
      assert queue[1..][i - 1].0 == x;
    }
  }

  /** The current node is expanded, or on the last level. */
  lemma Finish<T(!new)>(E: set<(T, T)>, start: T, D: map<T, nat>, queue: seq<(T, nat)>, level: nat, max: nat,
                        node: T, result: seq<T>)
    requires Search(E, start, D, queue, level, max, {node}, result)
    requires node in D && (D[node] < max ==> Expanded(E, D, node))
    ensures Search(E, start, D, queue, level, max, {}, result)
  {
  }

  /** A node first seen from the current node joins the list and the queue. */
  lemma Discover<T(!new)>(E: set<(T, T)>, start: T, D: map<T, nat>, queue: seq<(T, nat)>, level: nat, max: nat,
                          node: T, result: seq<T>, w: T)
    requires Search(E, start, D, queue, level, max, {node}, result)
    requires node in D && D[node] == level < max && (node, w) in E && w !in D
    ensures Search(E, start, D[w := level + 1], queue + [(w, level + 1)], level, max, {node}, result + [w])
  {
    WalkEdge(E, node, w);
    WalkAppend(E, start, node, w, level, 1);
    DiscoverProgress(E, D, queue, max, node, w, level + 1);
  }

  lemma DiscoverProgress<T(!new)>(E: set<(T, T)>, D: map<T, nat>, queue: seq<(T, nat)>, max: nat, node: T, w: T, d: nat)
    requires Progress(E, D, queue, max, {node}) && w !in D
    ensures Progress(E, D[w := d], queue + [(w, d)], max, {node})
  {
    var D', queue' := D[w := d], queue + [(w, d)];
    forall x | x in D' && x != node && !Queued(queue', x) && D'[x] < max
      ensures Expanded(E, D', x)
    {
      assert queue'[|queue|].0 == w;
      assert forall i :: 0 <= i < |queue| ==> queue'[i] == queue[i];
      assert Expanded(E, D, x);
    }
  }

  /** When the queue is empty, the list is what the search promises. */
  lemma Complete<T(!new)>(E: set<(T, T)>, start: T, D: map<T, nat>, level: nat, max: nat, result: seq<T>)
    requires Search(E, start, D, [], level, max, {}, result)
    ensures Distinct(result) && NearestFirst(E, start, result)
    ensures forall v :: v in result <==> v != start && Within(E, start, v, max)
  {
    forall x | x in D && D[x] < max
      ensures Expanded(E, D, x)
    {
      assert !Queued([], x);
    }
    forall v, d | Within(E, start, v, d) && d <= max
      ensures v in D && D[v] <= d
    {
      Cover(E, start, D, max, v, d);
    }
    forall v | v in D
      ensures Within(E, start, v, D[v]) && Within(E, start, v, max)
    {
    }
    forall i, j, d | 0 <= i < j < |result| && Within(E, start, result[j], d)
      ensures Within(E, start, result[i], d)
    {
      assert result[i] in result && result[j] in result;
      if d <= max {
        assert D[result[j]] <= d;
      }
    }
  }

  lemma SuccessorsIn<T(!new)>(adj: map<T, seq<T>>, E: set<(T, T)>, node: T, all: set<T>)
    requires Lists(adj, E) && node in adj && forall e :: e in E ==> e.1 in all
    ensures forall i :: 0 <= i < |adj[node]| ==> (node, adj[node][i]) in E && adj[node][i] in all
    ensures forall w :: (node, w) in E ==> w in adj[node]
  {
    forall i | 0 <= i < |adj[node]|
      ensures (node, adj[node][i]) in E && adj[node][i] in all
    {
      assert (node, adj[node][i]) in E;
      assert (node, adj[node][i]).1 in all;
    }
  }

  /** Lists and queues the successors `next` of the current node that are new. */
  method DiscoverAll<T(==, !new)>(next: seq<T>, node: T, depth: nat, visited: set<T>, queue: seq<(T, nat)>,
                                  result: seq<T>,
                                  ghost E: set<(T, T)>, ghost start: T, ghost D: map<T, nat>, ghost max: nat,
                                  ghost all: set<T>)
    returns (visited': set<T>, queue': seq<(T, nat)>, result': seq<T>, ghost D': map<T, nat>)
    requires D.Keys == visited <= all && node in D && D[node] == depth < max
    requires Search(E, start, D, queue, depth, max, {node}, result)
    requires forall i :: 0 <= i < |next| ==> (node, next[i]) in E && next[i] in all
    ensures D'.Keys == visited' <= all && visited <= visited' && node in D' && D'[node] == depth
    ensures Search(E, start, D', queue', depth, max, {node}, result')
    ensures forall i :: 0 <= i < |next| ==> next[i] in visited'
    ensures visited' == visited ==> queue' == queue
  {
    visited', queue', result', D' := visited, queue, result, D;
    for i := 0 to |next|
      invariant D'.Keys == visited' && visited <= visited' <= all && node in D' && D'[node] == depth
      invariant Search(E, start, D', queue', depth, max, {node}, result')
      invariant forall j :: 0 <= j < i ==> next[j] in visited'
      invariant visited' == visited ==> queue' == queue
    {
      var w := next[i];
      if w !in visited' {
        Discover(E, start, D', queue', depth, max, node, result', w);
        D' := D'[w := depth + 1];
        visited' := visited' + {w};
        result' := result' + [w];
        queue' := queue' + [(w, depth + 1)];
      }
    }
  }

  /** Visits the nodes within `max` edges of `start`, nearest first; `start` is not listed. */
  method Traverse<T(==, !new)>(adj: map<T, seq<T>>, start: T, max: nat, ghost E: set<(T, T)>) returns (result: seq<T>)
    requires Lists(adj, E)
    ensures Distinct(result) && NearestFirst(E, start, result)
    ensures forall v :: v in result <==> v != start && Within(E, start, v, max)
  {
    var visited := {start};
    var queue: seq<(T, nat)> := [(start, 0)];
    result := [];
    ghost var D: map<T, nat>, level: nat := map[start := 0], 0;
    ghost var all := {start} + (set e | e in E :: e.1);
    Begin(E, start, max);
    while queue != []
      invariant D.Keys == visited <= all
      invariant Search(E, start, D, queue, level, max, {}, result)
      decreases all - visited, |queue|
    {
      var (node, depth) := queue[0];
      Take(E, start, D, queue, level, max, result);
      queue, level := queue[1..], depth;
      if depth < max && node in adj {
        SuccessorsIn(adj, E, node, all);
        visited, queue, result, D :=
          DiscoverAll(adj[node], node, depth, visited, queue, result, E, start, D, max, all);
      }
      Finish(E, start, D, queue, level, max, node, result);
    }
    Complete(E, start, D, level, max, result);
  }
}
