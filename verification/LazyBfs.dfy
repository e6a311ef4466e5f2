/** Breadth-first search that marks nodes when they leave the queue: the same node may wait several
    times, and still every node is visited at its true distance. */
module LazyBfs {
  import opened Graph
  import opened Sets
  import Bfs

  ghost predicate Waits<T(!new)>(queue: seq<(T, nat)>, x: T, d: int) {
    exists i :: 0 <= i < |queue| && queue[i].0 == x && queue[i].1 <= d
  }

  /** Entries are walks from `start`, in order, from `level` to one further; visited nodes are at
      `level` at most. */
  ghost predicate QueueOk<T(!new)>(E: set<(T, T)>, start: T, D: map<T, nat>, queue: seq<(T, nat)>, level: nat,
                                   max: nat) {
    && (forall i :: 0 <= i < |queue| ==> level <= queue[i].1 <= level + 1 && queue[i].1 <= max)
    && (forall i :: 0 <= i < |queue| ==> Walk(E, start, queue[i].0, queue[i].1))
    && (forall i, j :: 0 <= i < j < |queue| ==> queue[i].1 <= queue[j].1)
    && (forall v :: v in D ==> D[v] <= level && D[v] <= max && Walk(E, start, v, D[v]))
  }

  /** `w` is visited or waits, at level `d` at most. */
  ghost predicate Seen<T(!new)>(D: map<T, nat>, queue: seq<(T, nat)>, w: T, d: int) {
    (w in D && D[w] <= d) || Waits(queue, w, d)
  }

  /** The successors of `x` are visited or wait, one level further at most. */
  ghost predicate Pushed<T(!new)>(E: set<(T, T)>, D: map<T, nat>, queue: seq<(T, nat)>, x: T)
    requires x in D
  {
    forall w :: (x, w) in E ==> Seen(D, queue, w, D[x] + 1)
  }

  ghost predicate Progress<T(!new)>(E: set<(T, T)>, D: map<T, nat>, queue: seq<(T, nat)>, max: nat, cur: set<T>) {
    forall x {:trigger Pushed(E, D, queue, x)} :: x in D && x !in cur && D[x] < max ==> Pushed(E, D, queue, x)
  }

  /** `seen` lists the visited nodes in the order of their visits. */
  ghost predicate ListOk<T(!new)>(D: map<T, nat>, seen: seq<T>) {
    && Distinct(seen)
    && (forall v :: v in D <==> v in seen)
    && (forall i, j :: 0 <= i < j < |seen| ==> seen[i] in D && seen[j] in D && D[seen[i]] <= D[seen[j]])
  }

  ghost predicate Search<T(!new)>(E: set<(T, T)>, start: T, D: map<T, nat>, queue: seq<(T, nat)>, level: nat,
                                  max: nat, cur: set<T>, seen: seq<T>)
  {
    && QueueOk(E, start, D, queue, level, max)
    && Seen(D, queue, start, 0)
    && Progress(E, D, queue, max, cur)
    && ListOk(D, seen)
  }

  lemma Begin<T(!new)>(E: set<(T, T)>, start: T, max: nat)
    ensures Search(E, start, map[], [(start, 0)], 0, max, {}, [])
  {
    var queue: seq<(T, nat)> := [(start, 0)];
    assert Walk(E, start, start, 0);
    assert queue[0].0 == start;
  }

  lemma SeenAfterPop<T(!new)>(D: map<T, nat>, queue: seq<(T, nat)>, D': map<T, nat>, w: T, d: int)
    requires queue != [] && Seen(D, queue, w, d)
    requires forall v :: v in D ==> v in D' && D'[v] <= D[v]
    requires queue[0].0 in D' && D'[queue[0].0] <= queue[0].1
    ensures Seen(D', queue[1..], w, d)
  {
    if Waits(queue, w, d) && !(w in D' && D'[w] <= d) {
      var i :| 0 <= i < |queue| && queue[i].0 == w && queue[i].1 <= d;
      assert queue[1..][i - 1] == queue[i];
    }
  }

  lemma PopProgress<T(!new)>(E: set<(T, T)>, D: map<T, nat>, queue: seq<(T, nat)>, max: nat, D': map<T, nat>,
                             cur: set<T>)
    requires queue != [] && Progress(E, D, queue, max, {})
    requires forall v :: v in D ==> v in D' && D'[v] == D[v]
    requires forall v :: v in D' ==> v in D || v in cur
    requires queue[0].0 in D' && D'[queue[0].0] <= queue[0].1
    ensures Progress(E, D', queue[1..], max, cur)
  {
    forall x {:trigger Pushed(E, D', queue[1..], x)} | x in D' && x !in cur && D'[x] < max
      ensures Pushed(E, D', queue[1..], x)
    {
      assert Pushed(E, D, queue, x);
      forall w | (x, w) in E
        ensures Seen(D', queue[1..], w, D'[x] + 1)
      {
        SeenAfterPop(D, queue, D', w, D[x] + 1);
      }
    }
  }

  /** The front of the queue has been visited before: it is dropped. */
  lemma Skip<T(!new)>(E: set<(T, T)>, start: T, D: map<T, nat>, queue: seq<(T, nat)>, level: nat, max: nat,
                      seen: seq<T>,
                      id: T, depth: nat)
    requires Search(E, start, D, queue, level, max, {}, seen) && queue != [] && queue[0] == (id, depth) && id in D
    ensures Search(E, start, D, queue[1..], depth, max, {}, seen)
  {
    PopProgress(E, D, queue, max, D, {});
    SeenAfterPop(D, queue, D, start, 0);
  }

  /** The front of the queue is visited at its depth. */
  lemma Visit<T(!new)>(E: set<(T, T)>, start: T, D: map<T, nat>, queue: seq<(T, nat)>, level: nat, max: nat,
                       seen: seq<T>)
    requires Search(E, start, D, queue, level, max, {}, seen) && queue != [] && queue[0].0 !in D
    ensures Search(E, start, D[queue[0].0 := queue[0].1], queue[1..], queue[0].1, max, {queue[0].0},
                   seen + [queue[0].0])
  {
    var (node, depth) := queue[0];
    var D' := D[node := depth];
    PopProgress(E, D, queue, max, D', {node});
    SeenAfterPop(D, queue, D', start, 0);
  }

  lemma SeenAfterPush<T(!new)>(D: map<T, nat>, queue: seq<(T, nat)>, e: (T, nat), w: T, d: int)
    requires Seen(D, queue, w, d)
    ensures Seen(D, queue + [e], w, d)
  {
    if Waits(queue, w, d) {
      var i :| 0 <= i < |queue| && queue[i].0 == w && queue[i].1 <= d;
      assert (queue + [e])[i] == queue[i];
    }
  }

  /** A successor of the current node is put at the end of the queue. */
  lemma Push<T(!new)>(E: set<(T, T)>, start: T, D: map<T, nat>, queue: seq<(T, nat)>, level: nat, max: nat,
                      node: T, seen: seq<T>, w: T)
    requires Search(E, start, D, queue, level, max, {node}, seen)
    requires node in D && D[node] == level < max && (node, w) in E
    ensures Search(E, start, D, queue + [(w, level + 1)], level, max, {node}, seen)
    ensures Seen(D, queue + [(w, level + 1)], w, level + 1)
  {
    var queue' := queue + [(w, level + 1)];
    WalkEdge(E, node, w);
    WalkAppend(E, start, node, w, level, 1);
    SeenAfterPush(D, queue, (w, level + 1), start, 0);
    forall x {:trigger Pushed(E, D, queue', x)} | x in D && x != node && D[x] < max
      ensures Pushed(E, D, queue', x)
    {
      assert Pushed(E, D, queue, x);
      forall y | (x, y) in E
        ensures Seen(D, queue', y, D[x] + 1)
      {
        SeenAfterPush(D, queue, (w, level + 1), y, D[x] + 1);
      }
    }
    assert queue'[|queue|] == (w, level + 1);
  }

  lemma Finish<T(!new)>(E: set<(T, T)>, start: T, D: map<T, nat>, queue: seq<(T, nat)>, level: nat, max: nat,
                        node: T, seen: seq<T>)
    requires Search(E, start, D, queue, level, max, {node}, seen)
    requires node in D && (D[node] < max ==> Pushed(E, D, queue, node))
    ensures Search(E, start, D, queue, level, max, {}, seen)
  {
  }

  /** When nothing waits, exactly the nodes within `max` have been visited, nearest first. */
  lemma Complete<T(!new)>(E: set<(T, T)>, start: T, D: map<T, nat>, level: nat, max: nat, seen: seq<T>)
    requires Search(E, start, D, [], level, max, {}, seen)
    ensures Distinct(seen) && Bfs.NearestFirst(E, start, seen)
    ensures forall v :: v in seen <==> Within(E, start, v, max)
  {
    assert !Waits([], start, 0);
    forall x | x in D && D[x] < max
      ensures Bfs.Expanded(E, D, x)
    {
      assert Pushed(E, D, [], x);
      forall w | (x, w) in E
        ensures w in D && D[w] <= D[x] + 1
      {
        assert Seen(D, [], w, D[x] + 1);
      }
    }
    forall v, d | Within(E, start, v, d) && d <= max
      ensures v in D && D[v] <= d
    {
      Bfs.Cover(E, start, D, max, v, d);
    }
    forall v | v in D
      ensures Within(E, start, v, D[v]) && Within(E, start, v, max)
    {
    }
    forall i, j, d | 0 <= i < j < |seen| && Within(E, start, seen[j], d)
      ensures Within(E, start, seen[i], d)
    {
      if d <= max {
        assert D[seen[j]] <= d;
      }
    }
  }
}
