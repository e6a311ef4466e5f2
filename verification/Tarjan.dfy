/** The invariant of the iterative Tarjan algorithm: what indices, lowlinks, the node stack and
    the open frames mean, and that every step of the run keeps it. */
module Tarjan {
  import opened Graph

  /** One moment of the run over the nodes below |num|.  `num` and `low` are the index and lowlink
      vectors (-1: unvisited), `looked` holds the edges looked at so far, `waiting` the nodes on
      the node stack, `open` the nodes with a frame, and `gone` those of the popped components. */
  datatype State = State(num: seq<int>, low: seq<int>, looked: set<(nat, nat)>,
                         waiting: set<nat>, open: set<nat>, gone: set<nat>, index: int)

  /** `R` is the reachability relation of `E`.  The invariant speaks of membership in `R`, so that
      walks are only unfolded where a lemma asks for them. */
  ghost predicate Reachability(E: set<(nat, nat)>, R: iset<(nat, nat)>) {
    forall x: nat, y: nat {:trigger Reach(E, x, y)} :: (x, y) in R <==> Reach(E, x, y)
  }

  lemma SelfIn(E: set<(nat, nat)>, R: iset<(nat, nat)>, x: nat)
    requires Reachability(E, R)
    ensures (x, x) in R
  {
    ReachSelf(E, x);
  }

  lemma StepIn(E: set<(nat, nat)>, R: iset<(nat, nat)>, x: nat, y: nat)
    requires Reachability(E, R) && (x, y) in E
    ensures (x, y) in R
  {
    ReachEdge(E, x, y);
  }

  lemma TransIn(E: set<(nat, nat)>, R: iset<(nat, nat)>, x: nat, y: nat, z: nat)
    requires Reachability(E, R) && (x, y) in R && (y, z) in R
    ensures (x, z) in R
  {
    assert Reach(E, x, y) && Reach(E, y, z);
    ReachTrans(E, x, y, z);
  }

  // ---- the parts of the invariant ----

  ghost predicate Shape(s: State) {
    && |s.num| == |s.low|
    && 0 <= s.index
    && (forall x :: x in s.waiting ==> x < |s.num| && x !in s.gone)
    && (forall x :: x in s.gone ==> x < |s.num|)
    && s.open <= s.waiting
    && (forall x: nat :: x < |s.num| ==> -1 <= s.num[x] < s.index)
    && (forall x: nat :: x < |s.num| ==> (s.num[x] >= 0 <==> x in s.waiting || x in s.gone))
  }

  /** Edges looked at join visited nodes; without a frame, a waiting node has looked at all. */
  ghost predicate Scanned(E: set<(nat, nat)>, s: State) {
    && (forall x, w :: (x, w) in s.looked ==>
          (x, w) in E && (x in s.waiting || x in s.gone) && (w in s.waiting || w in s.gone))
    && (forall x, w :: x in s.waiting && x !in s.open && (x, w) in E ==> (x, w) in s.looked)
  }

  /** `x` reaches the node of a frame that was entered no later than `x`. */
  ghost predicate ReachesFrame(R: iset<(nat, nat)>, s: State, x: nat)
    requires Shape(s) && x in s.waiting
  {
    exists y :: y in s.open && s.num[y] <= s.num[x] && (x, y) in R
  }

  ghost predicate Up(R: iset<(nat, nat)>, s: State)
    requires Shape(s)
  {
    forall x {:trigger ReachesFrame(R, s, x)} :: x in s.waiting ==> ReachesFrame(R, s, x)
  }

  /** The node of a frame reaches all waiting nodes entered after it. */
  ghost predicate Down(R: iset<(nat, nat)>, s: State)
    requires Shape(s)
  {
    forall y, x {:trigger (y, x) in R} ::
      y in s.open && x in s.waiting && s.num[y] <= s.num[x] ==> (y, x) in R
  }

  /** The lowlink of `y` is the index of a waiting node which `y` reaches. */
  ghost predicate LowReached(R: iset<(nat, nat)>, s: State, y: nat)
    requires Shape(s) && y in s.open
  {
    s.low[y] <= s.num[y] && exists w :: w in s.waiting && s.num[w] == s.low[y] && (y, w) in R
  }

  ghost predicate LowWitness(R: iset<(nat, nat)>, s: State)
    requires Shape(s)
  {
    forall y {:trigger LowReached(R, s, y)} :: y in s.open ==> LowReached(R, s, y)
  }

  /** A frame entered no earlier than `y` has a lowlink of at most the index of `w`. */
  ghost predicate Bounded(s: State, y: nat, w: nat)
    requires Shape(s) && y in s.open && w in s.waiting
  {
    exists z :: z in s.open && s.num[y] <= s.num[z] && s.low[z] <= s.num[w]
  }

  /** Lowlinks bound every edge looked at between waiting nodes, in the frames from any frame
      below the edge's source on. */
  ghost predicate LowBound(s: State)
    requires Shape(s)
  {
    forall y, x, w {:trigger Bounded(s, y, w), (x, w) in s.looked} ::
      y in s.open && x in s.waiting && s.num[y] <= s.num[x] && (x, w) in s.looked && w in s.waiting ==>
        Bounded(s, y, w)
  }

  /** An edge leads to `x` from a waiting node that was entered before `x` but no earlier than `y`. */
  ghost predicate LedTo(E: set<(nat, nat)>, s: State, y: nat, x: nat)
    requires Shape(s) && y in s.open && x in s.waiting
  {
    exists p :: p in s.waiting && (p, x) in E && s.num[y] <= s.num[p] < s.num[x]
  }

  /** Whatever was entered after the node of a frame was led to from there on. */
  ghost predicate Tree(E: set<(nat, nat)>, s: State)
    requires Shape(s)
  {
    forall y, x {:trigger LedTo(E, s, y, x)} ::
      y in s.open && x in s.waiting && s.num[y] < s.num[x] ==> LedTo(E, s, y, x)
  }

  ghost predicate Inv(E: set<(nat, nat)>, R: iset<(nat, nat)>, s: State) {
    && Shape(s)
    && Scanned(E, s)
    && Up(R, s)
    && Down(R, s)
    && LowWitness(R, s)
    && LowBound(s)
    && Tree(E, s)
    && Closed(E, s.gone)
  }

  /** `u` is the node of the innermost frame. */
  ghost predicate Top(s: State, u: nat)
    requires Shape(s)
  {
    u in s.open && forall y :: y in s.open && y != u ==> s.num[y] < s.num[u]
  }

  // ---- the steps ----

  ghost function Initial(n: nat): State {
    State(seq(n, i => -1), seq(n, i => -1), {}, {}, {}, {}, 0)
  }

  /** First visit of `v`: it gets the next index, waits and opens a frame. */
  ghost function Enter(s: State, v: nat): State
    requires v < |s.num| == |s.low|
  {
    s.(num := s.num[v := s.index], low := s.low[v := s.index],
       waiting := s.waiting + {v}, open := s.open + {v}, index := s.index + 1)
  }

  /** The edge from `u` to `v` has been looked at. */
  ghost function Look(s: State, u: nat, v: nat): State {
    s.(looked := s.looked + {(u, v)})
  }

  function Min(a: int, b: int): int {
    if a <= b then a else b
  }

  ghost function Lower(s: State, u: nat, bound: int): State
    requires u < |s.low|
  {
    s.(low := s.low[u := Min(s.low[u], bound)])
  }

  ghost function Close(s: State, u: nat): State {
    s.(open := s.open - {u})
  }

  ghost function Emit(s: State, c: set<nat>): State {
    s.(waiting := s.waiting - c, gone := s.gone + c)
  }

  lemma InitialInv(E: set<(nat, nat)>, R: iset<(nat, nat)>, n: nat)
    ensures Inv(E, R, Initial(n))
  {
  }

  // ---- entering a node ----

  lemma EnterRoot(E: set<(nat, nat)>, R: iset<(nat, nat)>, s: State, v: nat)
    requires Reachability(E, R) && Inv(E, R, s) && s.open == {} && v < |s.num| && s.num[v] == -1
    ensures s.waiting == {}
    ensures Inv(E, R, Enter(s, v)) && Top(Enter(s, v), v)
  {
    SelfIn(E, R, v);
    NothingWaits(R, s);
    EnterReach(R, s, v);
    EnterLow(E, R, s, v);
    assert Tree(E, Enter(s, v));
  }

  /** Without a frame the node stack is empty. */
  lemma NothingWaits(R: iset<(nat, nat)>, s: State)
    requires Shape(s) && Up(R, s) && s.open == {}
    ensures s.waiting == {}
  {
    assert forall x :: x in s.waiting ==> ReachesFrame(R, s, x);
  }

  lemma EnterChild(E: set<(nat, nat)>, R: iset<(nat, nat)>, s: State, u: nat, v: nat)
    requires Reachability(E, R) && Inv(E, R, s) && Top(s, u) && (u, v) in E && v < |s.num| && s.num[v] == -1
    ensures Inv(E, R, Look(Enter(s, v), u, v)) && Top(Look(Enter(s, v), u, v), v)
  {
    StepIn(E, R, u, v);
    SelfIn(E, R, v);
    forall y | y in s.open
      ensures (y, v) in R
    {
      assert (y, u) in R;
      TransIn(E, R, y, u, v);
    }
    EnterReach(R, s, v);
    EnterLow(E, R, s, v);
    EnterTree(E, s, u, v);
    var t := Enter(s, v);
    forall y {:trigger Bounded(t, y, v)} | y in t.open
      ensures Bounded(t, y, v)
    {
      assert v in t.open && t.num[y] <= t.num[v];
    }
    LookInv(E, R, t, u, v);
  }

  lemma EnterTree(E: set<(nat, nat)>, s: State, u: nat, v: nat)
    requires Shape(s) && Tree(E, s) && Top(s, u) && (u, v) in E && v < |s.num| && s.num[v] == -1
    requires Shape(Enter(s, v))
    ensures Tree(E, Enter(s, v))
  {
    var t := Enter(s, v);
    forall y, x {:trigger LedTo(E, t, y, x)} | y in t.open && x in t.waiting && t.num[y] < t.num[x]
      ensures LedTo(E, t, y, x)
    {
      if x == v {
        assert u in t.waiting && t.num[y] <= t.num[u];
      } else {
        assert LedTo(E, s, y, x);
        var p :| p in s.waiting && (p, x) in E && s.num[y] <= s.num[p] < s.num[x];
        assert p in t.waiting && t.num[p] == s.num[p];
      }
    }
  }

  /** Nothing changes for the tree when frames close or lowlinks fall. */
  lemma SameTree(E: set<(nat, nat)>, s: State, t: State)
    requires Shape(s) && Shape(t) && Tree(E, s) && t.num == s.num && t.waiting == s.waiting && t.open <= s.open
    ensures Tree(E, t)
  {
    forall y, x {:trigger LedTo(E, t, y, x)} | y in t.open && x in t.waiting && t.num[y] < t.num[x]
      ensures LedTo(E, t, y, x)
    {
      assert LedTo(E, s, y, x);
    }
  }

  lemma EnterReach(R: iset<(nat, nat)>, s: State, v: nat)
    requires Shape(s) && Up(R, s) && Down(R, s)
    requires v < |s.num| && s.num[v] == -1 && (v, v) in R && forall y :: y in s.open ==> (y, v) in R
    ensures Shape(Enter(s, v))
    ensures Up(R, Enter(s, v)) && Down(R, Enter(s, v))
  {
    var t := Enter(s, v);
    forall x {:trigger ReachesFrame(R, t, x)} | x in t.waiting
      ensures ReachesFrame(R, t, x)
    {
      if x == v {
        assert v in t.open;
      } else {
        assert ReachesFrame(R, s, x);
        var y :| y in s.open && s.num[y] <= s.num[x] && (x, y) in R;
        assert y in t.open;
      }
    }
  }

  lemma EnterLow(E: set<(nat, nat)>, R: iset<(nat, nat)>, s: State, v: nat)
    requires Shape(s) && Scanned(E, s) && LowWitness(R, s) && LowBound(s)
    requires v < |s.num| && s.num[v] == -1 && (v, v) in R
    requires Shape(Enter(s, v))
    ensures LowWitness(R, Enter(s, v)) && LowBound(Enter(s, v))
  {
    var t := Enter(s, v);
    forall y {:trigger LowReached(R, t, y)} | y in t.open
      ensures LowReached(R, t, y)
    {
      if y == v {
        assert v in t.waiting;
      } else {
        assert LowReached(R, s, y);
        var w :| w in s.waiting && s.num[w] == s.low[y] && (y, w) in R;
        assert w in t.waiting && t.num[w] == t.low[y];
      }
    }
    forall y, x, w {:trigger Bounded(t, y, w), (x, w) in t.looked}
      | y in t.open && x in t.waiting && t.num[y] <= t.num[x] && (x, w) in t.looked && w in t.waiting
      ensures Bounded(t, y, w)
    {
      assert Bounded(s, y, w);
      var z :| z in s.open && s.num[y] <= s.num[z] && s.low[z] <= s.num[w];
      assert z in t.open;
    }
  }

  // ---- looking at an edge ----

  /** The edge from the frame node `u` to the visited node `v` is looked at; if `v` waits, the
      frames from any frame up to `u` on already bound it. */
  lemma LookInv(E: set<(nat, nat)>, R: iset<(nat, nat)>, s: State, u: nat, v: nat)
    requires Inv(E, R, s) && u in s.open && (u, v) in E && (v in s.waiting || v in s.gone)
    requires v in s.waiting ==> forall y :: y in s.open && s.num[y] <= s.num[u] ==> Bounded(s, y, v)
    ensures Inv(E, R, Look(s, u, v))
  {
    var t := Look(s, u, v);
    SameTree(E, s, t);
    assert Scanned(E, t);
    forall x {:trigger ReachesFrame(R, t, x)} | x in t.waiting
      ensures ReachesFrame(R, t, x)
    {
      assert ReachesFrame(R, s, x);
    }
    forall y {:trigger LowReached(R, t, y)} | y in t.open
      ensures LowReached(R, t, y)
    {
      assert LowReached(R, s, y);
    }
    forall y, x, w {:trigger Bounded(t, y, w), (x, w) in t.looked}
      | y in t.open && x in t.waiting && t.num[y] <= t.num[x] && (x, w) in t.looked && w in t.waiting
      ensures Bounded(t, y, w)
    {
      assert Bounded(s, y, w);
    }
  }

  /** The edge leads to a component already popped. */
  lemma LookPast(E: set<(nat, nat)>, R: iset<(nat, nat)>, s: State, u: nat, v: nat)
    requires Inv(E, R, s) && Top(s, u) && (u, v) in E && v in s.gone
    ensures Inv(E, R, Look(s, u, v)) && Top(Look(s, u, v), u)
  {
    LookInv(E, R, s, u, v);
  }

  /** The edge leads to a waiting node, whose index lowers the lowlink. */
  lemma LookBack(E: set<(nat, nat)>, R: iset<(nat, nat)>, s: State, u: nat, v: nat)
    requires Reachability(E, R) && Inv(E, R, s) && Top(s, u) && (u, v) in E && v in s.waiting
    ensures Inv(E, R, Look(Lower(s, u, s.num[v]), u, v)) && Top(Look(Lower(s, u, s.num[v]), u, v), u)
  {
    StepIn(E, R, u, v);
    LowerInv(E, R, s, u, v);
    var t := Lower(s, u, s.num[v]);
    forall y {:trigger Bounded(t, y, v)} | y in t.open
      ensures Bounded(t, y, v)
    {
      assert u in t.open && t.num[y] <= t.num[u];
    }
    LookInv(E, R, t, u, v);
  }

  /** Lowering a lowlink to the index of a waiting node which the frame's node reaches. */
  lemma LowerInv(E: set<(nat, nat)>, R: iset<(nat, nat)>, s: State, u: nat, v: nat)
    requires Inv(E, R, s) && u in s.open && v in s.waiting && (u, v) in R
    ensures Inv(E, R, Lower(s, u, s.num[v]))
  {
    var t := Lower(s, u, s.num[v]);
    SameTree(E, s, t);
    forall x {:trigger ReachesFrame(R, t, x)} | x in t.waiting
      ensures ReachesFrame(R, t, x)
    {
      assert ReachesFrame(R, s, x);
    }
    forall y {:trigger LowReached(R, t, y)} | y in t.open
      ensures LowReached(R, t, y)
    {
      assert LowReached(R, s, y);
      assert v in t.waiting;
    }
    forall y, x, w {:trigger Bounded(t, y, w), (x, w) in t.looked}
      | y in t.open && x in t.waiting && t.num[y] <= t.num[x] && (x, w) in t.looked && w in t.waiting
      ensures Bounded(t, y, w)
    {
      assert Bounded(s, y, w);
      var z :| z in s.open && s.num[y] <= s.num[z] && s.low[z] <= s.num[w];
      assert z in t.open && t.low[z] <= s.low[z];
    }
  }

  // ---- a frame returns ----

  /** `u` has looked at all its edges. */
  ghost predicate Done(E: set<(nat, nat)>, s: State, u: nat) {
    forall w :: (u, w) in E ==> (u, w) in s.looked
  }

  /** `p` is the frame below the innermost frame `u`. */
  ghost predicate Parent(s: State, u: nat, p: nat)
    requires Shape(s)
  {
    p in s.open && p != u && forall y :: y in s.open && y != u && y != p ==> s.num[y] < s.num[p]
  }

  /** The outermost frame always closes a component. */
  lemma RootCloses(E: set<(nat, nat)>, R: iset<(nat, nat)>, s: State, u: nat)
    requires Inv(E, R, s) && s.open == {u}
    ensures s.low[u] == s.num[u]
  {
    assert LowReached(R, s, u);
    var w :| w in s.waiting && s.num[w] == s.low[u] && (u, w) in R;
    assert ReachesFrame(R, s, w);
  }

  /** `u` returns to `p` without closing a component: its lowlink passes to `p`. */
  lemma ReturnInv(E: set<(nat, nat)>, R: iset<(nat, nat)>, s: State, u: nat, p: nat)
    requires Reachability(E, R) && Inv(E, R, s) && Top(s, u) && Parent(s, u, p) && Done(E, s, u)
    requires s.low[u] < s.num[u]
    ensures Inv(E, R, Close(Lower(s, p, s.low[u]), u)) && Top(Close(Lower(s, p, s.low[u]), u), p)
  {
    assert LowReached(R, s, u);
    var w :| w in s.waiting && s.num[w] == s.low[u] && (u, w) in R;
    assert (p, u) in R;
    TransIn(E, R, p, u, w);
    LowerInv(E, R, s, p, w);
    CloseReach(E, R, Lower(s, p, s.low[u]), u);
    CloseLow(E, R, Lower(s, p, s.low[u]), u, p);
    SameTree(E, Lower(s, p, s.low[u]), Close(Lower(s, p, s.low[u]), u));
  }

  lemma CloseReach(E: set<(nat, nat)>, R: iset<(nat, nat)>, s: State, u: nat)
    requires Reachability(E, R) && Inv(E, R, s) && Top(s, u) && Done(E, s, u) && s.low[u] < s.num[u]
    ensures Shape(Close(s, u)) && Scanned(E, Close(s, u)) && Up(R, Close(s, u)) && Down(R, Close(s, u))
  {
    var t := Close(s, u);
    assert LowReached(R, s, u);
    var w :| w in s.waiting && s.num[w] == s.low[u] && (u, w) in R;
    assert ReachesFrame(R, s, w);
    var z :| z in s.open && s.num[z] <= s.num[w] && (w, z) in R;
    assert z in t.open;
    forall x {:trigger ReachesFrame(R, t, x)} | x in t.waiting
      ensures ReachesFrame(R, t, x)
    {
      assert ReachesFrame(R, s, x);
      var y :| y in s.open && s.num[y] <= s.num[x] && (x, y) in R;
      if y == u {
        TransIn(E, R, x, u, w);
        TransIn(E, R, x, w, z);
      } else {
        assert y in t.open;
      }
    }
  }

  lemma CloseLow(E: set<(nat, nat)>, R: iset<(nat, nat)>, s: State, u: nat, p: nat)
    requires Inv(E, R, s) && Top(s, u) && Parent(s, u, p) && s.low[p] <= s.low[u]
    requires Shape(Close(s, u))
    ensures LowWitness(R, Close(s, u)) && LowBound(Close(s, u))
  {
    var t := Close(s, u);
    forall y {:trigger LowReached(R, t, y)} | y in t.open
      ensures LowReached(R, t, y)
    {
      assert LowReached(R, s, y);
    }
    forall y, x, w {:trigger Bounded(t, y, w), (x, w) in t.looked}
      | y in t.open && x in t.waiting && t.num[y] <= t.num[x] && (x, w) in t.looked && w in t.waiting
      ensures Bounded(t, y, w)
    {
      assert Bounded(s, y, w);
      var z :| z in s.open && s.num[y] <= s.num[z] && s.low[z] <= s.num[w];
      assert z != u ==> z in t.open;
      assert p in t.open;
    }
  }

  // ---- a component is popped ----

  /** The waiting nodes entered from `u` on. */
  ghost function Component(s: State, u: nat): set<nat>
    requires Shape(s) && u < |s.num|
  {
    set x | x in s.waiting && s.num[x] >= s.num[u]
  }

  /** No edge leaves the component and the earlier components. */
  lemma ComponentClosed(E: set<(nat, nat)>, R: iset<(nat, nat)>, s: State, u: nat)
    requires Inv(E, R, s) && Top(s, u) && Done(E, s, u) && s.low[u] == s.num[u]
    ensures Closed(E, s.gone + Component(s, u))
  {
    forall x, w | x in Component(s, u) && (x, w) in E
      ensures w in s.gone + Component(s, u)
    {
      assert (x, w) in s.looked;
      if w in s.waiting {
        assert Bounded(s, u, w);
      }
    }
  }

  /** The nodes of the component reach one another. */
  lemma ComponentConnected(E: set<(nat, nat)>, R: iset<(nat, nat)>, s: State, u: nat, x: nat, y: nat)
    requires Reachability(E, R) && Inv(E, R, s) && Top(s, u)
    requires x in Component(s, u) && y in Component(s, u)
    ensures Reach(E, x, y)
  {
    assert ReachesFrame(R, s, x);
    var z :| z in s.open && s.num[z] <= s.num[x] && (x, z) in R;
    assert (z, u) in R;
    TransIn(E, R, x, z, u);
    assert (u, y) in R;
    TransIn(E, R, x, u, y);
  }

  /** The component is a whole mutual-reachability class. */
  lemma ComponentIsClass(E: set<(nat, nat)>, R: iset<(nat, nat)>, s: State, u: nat)
    requires Reachability(E, R) && Inv(E, R, s) && Top(s, u) && Done(E, s, u) && s.low[u] == s.num[u]
    ensures forall x: nat, y: nat ::
              x in Component(s, u) ==> (y in Component(s, u) <==> Reach(E, x, y) && Reach(E, y, x))
  {
    var c := Component(s, u);
    ComponentClosed(E, R, s, u);
    forall x: nat, y: nat | x in c
      ensures y in c <==> Reach(E, x, y) && Reach(E, y, x)
    {
      if y in c {
        ComponentConnected(E, R, s, u, x, y);
        ComponentConnected(E, R, s, u, y, x);
      } else if Reach(E, x, y) && Reach(E, y, x) {
        ReachClosed(E, s.gone + c, x, y);
        ReachClosed(E, s.gone, y, x);
      }
    }
  }

  lemma EmitTree(E: set<(nat, nat)>, s: State, u: nat)
    requires Shape(s) && Tree(E, s) && u in s.open && Shape(Emit(Close(s, u), Component(s, u)))
    ensures Tree(E, Emit(Close(s, u), Component(s, u)))
  {
    var t := Emit(Close(s, u), Component(s, u));
    forall y, x {:trigger LedTo(E, t, y, x)} | y in t.open && x in t.waiting && t.num[y] < t.num[x]
      ensures LedTo(E, t, y, x)
    {
      assert LedTo(E, s, y, x);
      var p :| p in s.waiting && (p, x) in E && s.num[y] <= s.num[p] < s.num[x];
      assert p in t.waiting;
    }
  }

  lemma EmitInv(E: set<(nat, nat)>, R: iset<(nat, nat)>, s: State, u: nat)
    requires Inv(E, R, s) && Top(s, u) && Done(E, s, u) && s.low[u] == s.num[u]
    ensures Inv(E, R, Emit(Close(s, u), Component(s, u)))
  {
    var c := Component(s, u);
    var t := Emit(Close(s, u), c);
    ComponentClosed(E, R, s, u);
    assert Shape(t);
    EmitTree(E, s, u);
    forall x {:trigger ReachesFrame(R, t, x)} | x in t.waiting
      ensures ReachesFrame(R, t, x)
    {
      assert ReachesFrame(R, s, x);
      var y :| y in s.open && s.num[y] <= s.num[x] && (x, y) in R;
      assert y in t.open;
    }
    forall y {:trigger LowReached(R, t, y)} | y in t.open
      ensures LowReached(R, t, y)
    {
      assert LowReached(R, s, y);
      var w :| w in s.waiting && s.num[w] == s.low[y] && (y, w) in R;
      assert w in t.waiting;
    }
    forall y, x, w {:trigger Bounded(t, y, w), (x, w) in t.looked}
      | y in t.open && x in t.waiting && t.num[y] <= t.num[x] && (x, w) in t.looked && w in t.waiting
      ensures Bounded(t, y, w)
    {
      assert Bounded(s, y, w);
      var z :| z in s.open && s.num[y] <= s.num[z] && s.low[z] <= s.num[w];
      assert z in t.open;
    }
  }
}
