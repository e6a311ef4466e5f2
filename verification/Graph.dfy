/** Walks, reachability and distance over a finite edge set.  Every graph algorithm of the
    project is specified with these definitions, whatever its node type. */
module Graph {

  /** There is a walk of exactly `k` edges from `u` to `v`. */
  ghost predicate Walk<T(!new)>(E: set<(T, T)>, u: T, v: T, k: nat)
    decreases k
  {
    if k == 0 then u == v else exists w :: (u, w) in E && Walk(E, w, v, k - 1)
  }

  ghost predicate Reach<T(!new)>(E: set<(T, T)>, u: T, v: T) {
    exists k: nat :: Walk(E, u, v, k)
  }

  /** `v` lies on a cycle: some successor of `v` leads back to `v`. */
  ghost predicate OnCycle<T(!new)>(E: set<(T, T)>, v: T) {
    exists w :: (v, w) in E && Reach(E, w, v)
  }

  /** `v` is at most `d` edges away from `u`. */
  ghost predicate Within<T(!new)>(E: set<(T, T)>, u: T, v: T, d: int) {
    exists k: nat :: k <= d && Walk(E, u, v, k)
  }

  ghost predicate Closed<T(!new)>(E: set<(T, T)>, S: set<T>) {
    forall x, w :: x in S && (x, w) in E ==> w in S
  }

  ghost function Reverse<T>(E: set<(T, T)>): set<(T, T)> {
    set e | e in E :: (e.1, e.0)
  }

  lemma {:induction false} WalkAppend<T(!new)>(E: set<(T, T)>, u: T, v: T, w: T, j: nat, k: nat)
    requires Walk(E, u, v, j) && Walk(E, v, w, k)
    ensures Walk(E, u, w, j + k)
    decreases j
  {
    if j > 0 {
      var x :| (u, x) in E && Walk(E, x, v, j - 1);
      WalkAppend(E, x, v, w, j - 1, k);
    }
  }

  lemma WalkEdge<T(!new)>(E: set<(T, T)>, u: T, v: T)
    requires (u, v) in E
    ensures Walk(E, u, v, 1)
  {
    assert Walk(E, v, v, 0);
  }

  lemma ReachSelf<T(!new)>(E: set<(T, T)>, u: T)
    ensures Reach(E, u, u)
  {
    assert Walk(E, u, u, 0);
  }

  lemma ReachEdge<T(!new)>(E: set<(T, T)>, u: T, v: T)
    requires (u, v) in E
    ensures Reach(E, u, v)
  {
    WalkEdge(E, u, v);
  }

  lemma ReachTrans<T(!new)>(E: set<(T, T)>, u: T, v: T, w: T)
    requires Reach(E, u, v) && Reach(E, v, w)
    ensures Reach(E, u, w)
  {
    var j: nat :| Walk(E, u, v, j);
    var k: nat :| Walk(E, v, w, k);
    WalkAppend(E, u, v, w, j, k);
  }

  /** Nothing outside a closed set is reachable from inside it. */
  lemma ReachClosed<T(!new)>(E: set<(T, T)>, S: set<T>, u: T, v: T)
    requires Closed(E, S) && u in S && Reach(E, u, v)
    ensures v in S
  {
    var k: nat :| Walk(E, u, v, k);
    WalkClosed(E, S, u, v, k);
  }

  lemma {:induction false} WalkClosed<T(!new)>(E: set<(T, T)>, S: set<T>, u: T, v: T, k: nat)
    requires Closed(E, S) && u in S && Walk(E, u, v, k)
    ensures v in S
    decreases k
  {
    if k > 0 {
      var x :| (u, x) in E && Walk(E, x, v, k - 1);
      WalkClosed(E, S, x, v, k - 1);
    }
  }

  /** The last edge of a walk. */
  lemma {:induction false} WalkLast<T(!new)>(E: set<(T, T)>, u: T, v: T, k: nat) returns (p: T)
    requires Walk(E, u, v, k) && k > 0
    ensures Walk(E, u, p, k - 1) && (p, v) in E
    decreases k
  {
    var x :| (u, x) in E && Walk(E, x, v, k - 1);
    if k == 1 {
      p := u;
    } else {
      p := WalkLast(E, x, v, k - 1);
      assert Walk(E, u, p, k - 1);
    }
  }

  /** Reversing every edge reverses every walk. */
  lemma WalkReverse<T(!new)>(E: set<(T, T)>, u: T, v: T, k: nat)
    ensures Walk(E, u, v, k) <==> Walk(Reverse(E), v, u, k)
  {
    if Walk(E, u, v, k) {
      WalkReverseOneWay(E, u, v, k);
    }
    if Walk(Reverse(E), v, u, k) {
      WalkReverseOneWay(Reverse(E), v, u, k);
      assert forall a, b :: (a, b) in E <==> (b, a) in Reverse(E);
      assert Reverse(Reverse(E)) == E;
    }
  }

  lemma {:induction false} WalkReverseOneWay<T(!new)>(E: set<(T, T)>, u: T, v: T, k: nat)
    requires Walk(E, u, v, k)
    ensures Walk(Reverse(E), v, u, k)
    decreases k
  {
    if k > 0 {
      var x :| (u, x) in E && Walk(E, x, v, k - 1);
      WalkReverseOneWay(E, x, v, k - 1);
      assert (u, x).1 == x;
      assert (x, u) in Reverse(E);
      WalkEdge(Reverse(E), x, u);
      WalkAppend(Reverse(E), v, x, u, k - 1, 1);
    }
  }
}
