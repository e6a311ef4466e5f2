/** What the depth-first cycle search knows at every moment: the stack is a path, reported cycles are
    cycles, and without their closing edges the finished nodes are in topological order. */
module CycleSearch {
  import opened Graph
  import opened Sets

  ghost predicate IsChain<T(!new)>(E: set<(T, T)>, p: seq<T>) {
    forall i :: 0 <= i < |p| - 1 ==> (p[i], p[i + 1]) in E
  }

  /** `c` is a simple cycle: distinct nodes, consecutive edges, and an edge from the last to the first. */
  ghost predicate IsSimpleCycle<T(!new)>(E: set<(T, T)>, c: seq<T>) {
    c != [] && Distinct(c) && IsChain(E, c) && (c[|c| - 1], c[0]) in E
  }

  /** Some key reaches `x`. */
  ghost predicate FromKeys<T(!new)>(E: set<(T, T)>, keys: set<T>, x: T) {
    exists r :: r in keys && Reach(E, r, x)
  }

  /** Every edge from a listed node leads to an earlier one. */
  ghost predicate Topological<T(!new)>(E: set<(T, T)>, done: seq<T>) {
    forall i, w :: 0 <= i < |done| && (done[i], w) in E ==> w in done[..i]
  }

  /** How many of the lists are closed by an edge from `u` to `v`: end in `u` and begin with `v`. */
  ghost function Closings<T(!new)>(cycles: seq<seq<T>>, u: T, v: T): nat {
    if cycles == [] then 0
    else
      var c := cycles[|cycles| - 1];
      Closings(cycles[..|cycles| - 1], u, v) + if c != [] && c[|c| - 1] == u && c[0] == v then 1 else 0
  }

  /** The edges that close the lists. */
  ghost function ClosingEdges<T(!new)>(cycles: seq<seq<T>>): (r: set<(T, T)>)
    ensures forall u, v {:trigger (u, v) in r} {:trigger Closings(cycles, u, v)} ::
              (u, v) in r <==> Closings(cycles, u, v) > 0
  {
    if cycles == [] then {}
    else
      var c := cycles[|cycles| - 1];
      ClosingEdges(cycles[..|cycles| - 1]) + if c != [] then {(c[|c| - 1], c[0])} else {}
  }

  lemma ClosingsAppend<T(!new)>(cycles: seq<seq<T>>, c: seq<T>, u: T, v: T)
    requires c != []
    ensures Closings(cycles + [c], u, v) == Closings(cycles, u, v) + if c[|c| - 1] == u && c[0] == v then 1 else 0
  {
    assert (cycles + [c])[..|cycles|] == cycles;
  }

  lemma {:induction false} ClosingsGrow<T(!new)>(cycles: seq<seq<T>>, more: seq<seq<T>>, u: T, v: T)
    requires cycles <= more
    ensures Closings(cycles, u, v) <= Closings(more, u, v)
    decreases |more|
  {
    if |cycles| < |more| {
      ClosingsGrow(cycles, more[..|more| - 1], u, v);
    } else {
      assert cycles == more;
    }
  }

  /** What is left of the edges when those that close a reported list are taken away. */
  ghost function Unclosed<T(!new)>(E: set<(T, T)>, cycles: seq<seq<T>>): set<(T, T)> {
    E - ClosingEdges(cycles)
  }

  /** A closing edge stays one. */
  lemma UnclosedShrinks<T(!new)>(E: set<(T, T)>, cycles: seq<seq<T>>, more: seq<seq<T>>)
    requires cycles <= more
    ensures Unclosed(E, more) <= Unclosed(E, cycles)
  {
    forall e | e in ClosingEdges(cycles)
      ensures e in ClosingEdges(more)
    {
      ClosingsGrow(cycles, more, e.0, e.1);
      assert (e.0, e.1) == e;
    }
  }

  /** The state of the search.  `done` lists the finished nodes in the order in which they finished. */
  ghost predicate State<T(!new)>(E: set<(T, T)>, keys: set<T>, visited: set<T>, stack: seq<T>, cycles: seq<seq<T>>,
                                 done: seq<T>)
  {
    && Distinct(stack)
    && IsChain(E, stack)
    && (forall x :: x in stack ==> x in visited && x !in done)
    && (forall x :: x in done ==> x in visited)
    && (forall x :: x in visited ==> x in stack || x in done)
    && (forall x :: x in visited ==> FromKeys(E, keys, x))
    && (forall i :: 0 <= i < |cycles| ==> IsSimpleCycle(E, cycles[i]) && cycles[i][0] in visited)
    && Topological(Unclosed(E, cycles), done)
  }

  /** `id` may be visited now: it is a key, or a successor of the stack's top. */
  ghost predicate Callable<T(!new)>(E: set<(T, T)>, keys: set<T>, stack: seq<T>, id: T) {
    if stack == [] then id in keys else (stack[|stack| - 1], id) in E
  }

  /** A call for a node that is on the stack reports the cycle that it closes. */
  lemma CloseCycle<T(!new)>(E: set<(T, T)>, keys: set<T>, visited: set<T>, stack: seq<T>, cycles: seq<seq<T>>,
                            done: seq<T>, k: nat)
    requires State(E, keys, visited, stack, cycles, done)
    requires k < |stack| && Callable(E, keys, stack, stack[k])
    ensures State(E, keys, visited, stack, cycles + [stack[k..]], done)
  {
    var c := stack[k..];
    assert c[0] == stack[k] && c[|c| - 1] == stack[|stack| - 1];
    forall i | 0 <= i < |c| - 1
      ensures (c[i], c[i + 1]) in E
    {
      assert (stack[k + i], stack[k + i + 1]) in E;
    }
    assert IsSimpleCycle(E, c);
    UnclosedShrinks(E, cycles, cycles + [c]);
  }

  lemma FromKeysStep<T(!new)>(E: set<(T, T)>, keys: set<T>, visited: set<T>, stack: seq<T>, cycles: seq<seq<T>>,
                              done: seq<T>, id: T)
    requires State(E, keys, visited, stack, cycles, done) && Callable(E, keys, stack, id)
    ensures FromKeys(E, keys, id)
  {
    if stack == [] {
      ReachSelf(E, id);
    } else {
      var u := stack[|stack| - 1];
      assert FromKeys(E, keys, u);
      var r :| r in keys && Reach(E, r, u);
      ReachEdge(E, u, id);
      ReachTrans(E, r, u, id);
    }
  }

  lemma Enter<T(!new)>(E: set<(T, T)>, keys: set<T>, visited: set<T>, stack: seq<T>, cycles: seq<seq<T>>,
                       done: seq<T>, id: T)
    requires State(E, keys, visited, stack, cycles, done) && Callable(E, keys, stack, id)
    requires id !in visited
    ensures State(E, keys, visited + {id}, stack + [id], cycles, done)
  {
    FromKeysStep(E, keys, visited, stack, cycles, done, id);
    assert forall x :: x in stack + [id] <==> x in stack || x == id;
  }

  /** The top of the stack returns; along every edge that closes no list its successors have finished. */
  lemma Leave<T(!new)>(E: set<(T, T)>, keys: set<T>, visited: set<T>, stack: seq<T>, cycles: seq<seq<T>>,
                       done: seq<T>, id: T)
    requires State(E, keys, visited, stack, cycles, done) && stack != [] && stack[|stack| - 1] == id
    requires forall w :: (id, w) in Unclosed(E, cycles) ==> w in done
    ensures State(E, keys, visited, stack[..|stack| - 1], cycles, done + [id])
  {
    var rest, done' := stack[..|stack| - 1], done + [id];
    assert stack == rest + [id];
    assert id !in rest by {
      assert forall i :: 0 <= i < |rest| ==> rest[i] == stack[i];
    }
    assert forall x :: x in done' <==> x in done || x == id;
    forall i, w | 0 <= i < |done'| && (done'[i], w) in Unclosed(E, cycles)
      ensures w in done'[..i]
    {
      if i < |done| {
        assert done'[..i] == done[..i];
        assert done[i] == done'[i];
      } else {
        assert done'[..i] == done;
      }
    }
  }

  // ---- the end of the search ----

  /** In topological order, a walk leads backwards. */
  lemma {:induction false} WalkGoesBack<T(!new)>(E: set<(T, T)>, done: seq<T>, i: nat, v: T, k: nat)
    requires Topological(E, done) && i < |done| && Walk(E, done[i], v, k)
    ensures if k == 0 then v == done[i] else v in done[..i]
    decreases k
  {
    if k > 0 {
      var w :| (done[i], w) in E && Walk(E, w, v, k - 1);
      assert w in done[..i];
      var j :| 0 <= j < i && done[j] == w;
      WalkGoesBack(E, done, j, v, k - 1);
      if k > 1 {
        var m :| 0 <= m < j && done[..j][m] == v;
        assert done[..i][m] == v;
      }
    }
  }

  lemma {:induction false} CycleReaches<T(!new)>(E: set<(T, T)>, c: seq<T>, i: nat)
    requires IsChain(E, c) && i < |c|
    ensures Reach(E, c[i], c[|c| - 1])
    decreases |c| - i
  {
    if i == |c| - 1 {
      ReachSelf(E, c[i]);
    } else {
      CycleReaches(E, c, i + 1);
      ReachEdge(E, c[i], c[i + 1]);
      ReachTrans(E, c[i], c[i + 1], c[|c| - 1]);
    }
  }

  /** Some list begins in the same component as `x`, and so lies in it. */
  ghost predicate Reported<T(!new)>(E: set<(T, T)>, cycles: seq<seq<T>>, x: T) {
    exists i :: 0 <= i < |cycles| && cycles[i] != [] && Reach(E, x, cycles[i][0]) && Reach(E, cycles[i][0], x)
  }

  /** What the search promises: simple cycles that a key reaches, whose closing edges cut every cycle that
      a key reaches; so every component with such a cycle has a list. */
  ghost predicate IsCycleList<T(!new)>(E: set<(T, T)>, keys: set<T>, cycles: seq<seq<T>>) {
    && (forall i :: 0 <= i < |cycles| ==> IsSimpleCycle(E, cycles[i]) && FromKeys(E, keys, cycles[i][0]))
    && (forall x :: FromKeys(E, keys, x) ==> !OnCycle(Unclosed(E, cycles), x))
    && (forall x :: FromKeys(E, keys, x) && OnCycle(E, x) ==> Reported(E, cycles, x))
  }

  /** At the end of the search the promise is met. */
  lemma Verdict<T(!new)>(E: set<(T, T)>, keys: set<T>, visited: set<T>, cycles: seq<seq<T>>, done: seq<T>)
    requires State(E, keys, visited, [], cycles, done) && keys <= visited
    ensures IsCycleList(E, keys, cycles)
    ensures cycles == [] <==> forall x :: FromKeys(E, keys, x) ==> !OnCycle(E, x)
  {
    VisitedClosed(E, keys, visited, cycles, done);
    forall x | FromKeys(E, keys, x)
      ensures !OnCycle(Unclosed(E, cycles), x)
      ensures OnCycle(E, x) ==> Reported(E, cycles, x)
    {
      var r :| r in keys && Reach(E, r, x);
      ReachClosed(E, visited, r, x);
      NoCycleLeft(Unclosed(E, cycles), done, x);
      if OnCycle(E, x) {
        CycleReported(E, cycles, x);
      }
    }
    if cycles != [] {
      ClosingEdge(E, cycles[0]);
    }
  }

  /** Everything that the keys reach has been visited. */
  lemma VisitedClosed<T(!new)>(E: set<(T, T)>, keys: set<T>, visited: set<T>, cycles: seq<seq<T>>, done: seq<T>)
    requires State(E, keys, visited, [], cycles, done)
    ensures Closed(E, visited)
  {
    forall x, w | x in visited && (x, w) in E
      ensures w in visited
    {
      if (x, w) in ClosingEdges(cycles) {
        var i := ClosedBy(cycles, x, w);
        assert IsSimpleCycle(E, cycles[i]);
      } else {
        var i :| 0 <= i < |done| && done[i] == x;
        assert (done[i], w) in Unclosed(E, cycles);
        var j :| 0 <= j < i && done[..i][j] == w;
        assert done[j] == w;
      }
    }
  }

  /** The list that an edge closes. */
  lemma {:induction false} ClosedBy<T(!new)>(cycles: seq<seq<T>>, u: T, v: T) returns (i: nat)
    requires (u, v) in ClosingEdges(cycles)
    ensures i < |cycles| && cycles[i] != [] && cycles[i][|cycles[i]| - 1] == u && cycles[i][0] == v
  {
    assert Closings(cycles, u, v) > 0;
    var n := |cycles| - 1;
    var c := cycles[n];
    if c != [] && c[|c| - 1] == u && c[0] == v {
      i := n;
    } else {
      assert Closings(cycles[..n], u, v) > 0;
      i := ClosedBy(cycles[..n], u, v);
    }
  }

  lemma NoCycleLeft<T(!new)>(E: set<(T, T)>, done: seq<T>, x: T)
    requires Topological(E, done) && x in done
    ensures !OnCycle(E, x)
  {
    if OnCycle(E, x) {
      var n := CycleWalk(E, x);
      NoCycleThere(E, done, x, n);
    }
  }

  /** A walk either avoids the closing edges or uses one. */
  lemma {:induction false} WalkUses<T(!new)>(E: set<(T, T)>, cycles: seq<seq<T>>, x: T, y: T, k: nat)
    requires Walk(E, x, y, k)
    ensures Walk(Unclosed(E, cycles), x, y, k) ||
              exists u, v :: (u, v) in E && (u, v) in ClosingEdges(cycles) && Reach(E, x, u) && Reach(E, v, y)
    decreases k
  {
    if k > 0 {
      var w :| (x, w) in E && Walk(E, w, y, k - 1);
      if (x, w) in ClosingEdges(cycles) {
        ReachSelf(E, x);
        assert Reach(E, w, y);
      } else {
        WalkUses(E, cycles, w, y, k - 1);
        if !Walk(Unclosed(E, cycles), w, y, k - 1) {
          var u, v :| (u, v) in E && (u, v) in ClosingEdges(cycles) && Reach(E, w, u) && Reach(E, v, y);
          ReachEdge(E, x, w);
          ReachTrans(E, x, w, u);
        }
      }
    }
  }

  lemma WalkOnCycle<T(!new)>(E: set<(T, T)>, x: T, n: nat)
    requires Walk(E, x, x, n + 1)
    ensures OnCycle(E, x)
  {
    var w :| (x, w) in E && Walk(E, w, x, n);
    assert Reach(E, w, x);
  }

  /** A cycle that is cut by the closing edges shares its component with a list. */
  lemma CycleReported<T(!new)>(E: set<(T, T)>, cycles: seq<seq<T>>, x: T)
    requires OnCycle(E, x) && !OnCycle(Unclosed(E, cycles), x)
    ensures Reported(E, cycles, x)
  {
    var n := CycleWalk(E, x);
    WalkUses(E, cycles, x, x, n + 1);
    if Walk(Unclosed(E, cycles), x, x, n + 1) {
      WalkOnCycle(Unclosed(E, cycles), x, n);
    }
    var u, v :| (u, v) in E && (u, v) in ClosingEdges(cycles) && Reach(E, x, u) && Reach(E, v, x);
    var i := ClosedBy(cycles, u, v);
    ReachEdge(E, u, v);
    ReachTrans(E, x, u, v);
  }

  lemma ClosingEdge<T(!new)>(E: set<(T, T)>, c: seq<T>)
    requires IsSimpleCycle(E, c)
    ensures OnCycle(E, c[0])
  {
    var last := c[|c| - 1];
    CycleReaches(E, c, 0);
    ReachEdge(E, last, c[0]);
    if |c| == 1 {
      ReachSelf(E, c[0]);
      assert (c[0], c[0]) in E && Reach(E, c[0], c[0]);
    } else {
      assert (c[0], c[1]) in E;
      CycleReaches(E, c, 1);
      ReachTrans(E, c[1], last, c[0]);
    }
  }

  lemma CycleWalk<T(!new)>(E: set<(T, T)>, x: T) returns (n: nat)
    requires OnCycle(E, x)
    ensures Walk(E, x, x, n + 1)
  {
    var w :| (x, w) in E && Reach(E, w, x);
    n :| Walk(E, w, x, n);
    WalkEdge(E, x, w);
    WalkAppend(E, x, w, x, 1, n);
  }

  lemma NoCycleThere<T(!new)>(E: set<(T, T)>, done: seq<T>, x: T, n: nat)
    requires Topological(E, done) && x in done
    ensures !Walk(E, x, x, n + 1)
  {
    LeastIndex(done, x);
    var j :| 0 <= j < |done| && done[j] == x && x !in done[..j];
    if Walk(E, x, x, n + 1) {
      WalkGoesBack(E, done, j, x, n + 1);
    }
  }

  lemma {:induction false} LeastIndex<T(!new)>(q: seq<T>, x: T)
    requires x in q
    ensures exists j :: 0 <= j < |q| && q[j] == x && x !in q[..j]
    decreases |q|
  {
    var n := |q| - 1;
    if x in q[..n] {
      LeastIndex(q[..n], x);
      var j :| 0 <= j < n && q[..n][j] == x && x !in q[..n][..j];
      assert q[..n][..j] == q[..j];
      assert q[j] == x;
    } else {
      assert q[n] == x;
    }
  }
}
