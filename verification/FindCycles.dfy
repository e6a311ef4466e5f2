/** `find_cycles`: the iterative Tarjan run over the vectors of the program, proved to return the
    cyclic strongly connected components in reverse topological order. */
module FindCycles {
  import opened Graph
  import opened CsrGraph
  import opened Sets
  import T = Tarjan

  datatype Frame = Frame(node: nat, child: nat)

  /** The vectors of the run: indices, lowlinks, on-stack flags, node stack, open frames, the next
      index and the components reported so far. */
  datatype Vectors = Vectors(num: seq<int>, low: seq<int>, on: seq<bool>, stack: seq<nat>,
                             frames: seq<Frame>, index: int, sccs: seq<seq<nat>>)

  const MAX_I32 := 0x7fff_ffff

  // ---- what the result means ----

  /** An edge leads to every node of the list but the first from an earlier one. */
  ghost predicate InTreeOrder(E: set<(nat, nat)>, c: seq<nat>) {
    forall i :: 0 < i < |c| ==> exists j :: 0 <= j < i && (c[j], c[i]) in E
  }

  /** `c` lists one mutual-reachability class, each node once and in the order of a search. */
  ghost predicate IsScc(E: set<(nat, nat)>, c: seq<nat>) {
    && c != []
    && Distinct(c)
    && InTreeOrder(E, c)
    && forall x: nat, y: nat :: x in c ==> (y in c <==> Reach(E, x, y) && Reach(E, y, x))
  }

  ghost predicate Listed(sccs: seq<seq<nat>>, v: nat) {
    exists i :: 0 <= i < |sccs| && v in sccs[i]
  }

  /** No node of a component reaches a node of a later one; so no node is in two of them. */
  ghost predicate ReverseTopological(E: set<(nat, nat)>, sccs: seq<seq<nat>>) {
    forall i, j, x, y :: 0 <= i < j < |sccs| && x in sccs[i] && y in sccs[j] ==> !Reach(E, x, y)
  }

  /** The cyclic components among the nodes of `S`, a closed set. */
  ghost predicate CyclesOf(E: set<(nat, nat)>, S: set<nat>, sccs: seq<seq<nat>>) {
    && (forall i :: 0 <= i < |sccs| ==> IsScc(E, sccs[i]))
    && (forall v: nat :: Listed(sccs, v) <==> v in S && OnCycle(E, v))
    && ReverseTopological(E, sccs)
  }

  /** What `find_cycles` promises. */
  ghost predicate IsCycleReport(E: set<(nat, nat)>, sccs: seq<seq<nat>>) {
    && (forall i :: 0 <= i < |sccs| ==> IsScc(E, sccs[i]))
    && (forall v: nat :: Listed(sccs, v) <==> OnCycle(E, v))
    && ReverseTopological(E, sccs)
  }

  /** The size test of the program recognises the classes with a cycle. */
  lemma CycleTest(E: set<(nat, nat)>, c: seq<nat>, u: nat, v: nat)
    requires IsScc(E, c) && u in c && v in c
    ensures OnCycle(E, v) <==> |c| > 1 || (u, u) in E
  {
    if |c| > 1 {
      var y := if c[0] == v then c[1] else c[0];
      assert y in c && y != v;
      var k: nat :| Walk(E, v, y, k);
      var w :| (v, w) in E && Walk(E, w, y, k - 1);
      ReachTrans(E, w, y, v);
    } else {
      assert c == [u];
      if (u, u) in E {
        ReachSelf(E, u);
      }
      if OnCycle(E, v) {
        var w :| (v, w) in E && Reach(E, w, v);
        ReachEdge(E, v, w);
        assert w in c;
      }
    }
  }

  /** A new class whose nodes are not among the closed set `S` may be appended if it has a cycle. */
  lemma AppendClass(E: set<(nat, nat)>, S: set<nat>, sccs: seq<seq<nat>>, c: seq<nat>, u: nat, cyclic: bool)
    requires CyclesOf(E, S, sccs) && Closed(E, S) && IsScc(E, c) && u in c
    requires forall x :: x in c ==> x !in S
    requires cyclic <==> |c| > 1 || (u, u) in E
    ensures CyclesOf(E, S + (set x | x in c), if cyclic then sccs + [c] else sccs)
  {
    var out := if cyclic then sccs + [c] else sccs;
    forall v: nat
      ensures Listed(out, v) <==> v in S + (set x | x in c) && OnCycle(E, v)
    {
      if v in c {
        CycleTest(E, c, u, v);
        assert !Listed(sccs, v);
        if cyclic {
          assert v in out[|sccs|];
        }
      } else if Listed(sccs, v) {
        var i :| 0 <= i < |sccs| && v in sccs[i];
        assert v in out[i];
      }
    }
    forall i, j, x, y | 0 <= i < j < |out| && x in out[i] && y in out[j]
      ensures !Reach(E, x, y)
    {
      if j == |sccs| {
        assert Listed(sccs, x);
        if Reach(E, x, y) {
          ReachClosed(E, S, x, y);
        }
      }
    }
  }

  // ---- the steps on the vectors ----

  /** The positions that a step uses are in range. */
  ghost predicate InRange(adj: seq<seq<nat>>, v: Vectors) {
    && |v.num| == |v.low| == |v.on| == |adj|
    && (forall i :: 0 <= i < |v.stack| ==> v.stack[i] < |adj|)
    && (forall i :: 0 <= i < |v.frames| ==> v.frames[i].node < |adj| && v.frames[i].child <= |adj[v.frames[i].node]|)
  }

  /** A node gets the next index, goes on the node stack and opens a frame. */
  ghost function Open(v: Vectors, x: nat): Vectors
    requires x < |v.num| == |v.low| == |v.on|
  {
    v.(num := v.num[x := v.index], low := v.low[x := v.index], on := v.on[x := true],
       stack := v.stack + [x], frames := v.frames + [Frame(x, 0)], index := v.index + 1)
  }

  /** The last frame has an edge left to look at. */
  ghost predicate CanLook(adj: seq<seq<nat>>, frames: seq<Frame>) {
    && frames != []
    && var f := frames[|frames| - 1];
       f.node < |adj| && f.child < |adj[f.node]|
  }

  ghost function NextEdge(adj: seq<seq<nat>>, frames: seq<Frame>): (nat, nat)
    requires CanLook(adj, frames)
  {
    var f := frames[|frames| - 1];
    (f.node, adj[f.node][f.child])
  }

  /** The last frame of `frames` has looked at one more edge. */
  function Advance(frames: seq<Frame>): seq<Frame>
    requires frames != []
  {
    var f := frames[|frames| - 1];
    frames[|frames| - 1 := Frame(f.node, f.child + 1)]
  }

  /** The innermost frame looks at its next edge. */
  ghost function Look(adj: seq<seq<nat>>, v: Vectors): Vectors
    requires InRange(adj, v) && CanLook(adj, v.frames)
  {
    var (u, x) := NextEdge(adj, v.frames);
    var next := v.(frames := Advance(v.frames));
    if x >= |adj| then next
    else if v.num[x] == -1 then Open(next, x)
    else if v.on[x] then next.(low := v.low[u := T.Min(v.low[u], v.num[x])])
    else next
  }

  /** Where the last `u` of the stack is. */
  ghost function CutAt(stack: seq<nat>, u: nat): (p: nat)
    ensures p <= |stack|
    ensures u in stack ==> p < |stack| && stack[p] == u
  {
    if stack == [] then 0
    else if stack[|stack| - 1] == u then |stack| - 1
    else CutAt(stack[..|stack| - 1], u)
  }

  /** The flags after the nodes of `scc` have been popped. */
  ghost function Unflag(on: seq<bool>, scc: seq<nat>): seq<bool> {
    seq(|on|, x requires 0 <= x < |on| => on[x] && x !in scc)
  }

  lemma UnflagOne(on: seq<bool>, w: nat, scc: seq<nat>)
    requires w < |on|
    ensures Unflag(on, [w] + scc) == Unflag(on, scc)[w := false]
  {
  }

  /** Closes the component of `u`, and reports it if it has a cycle. */
  ghost function Pop(adj: seq<seq<nat>>, v: Vectors, u: nat): Vectors
    requires u < |adj|
  {
    var p := CutAt(v.stack, u);
    var scc := v.stack[p..];
    v.(on := Unflag(v.on, scc), stack := v.stack[..p],
       sccs := if |scc| > 1 || (|scc| == 1 && u in adj[u]) then v.sccs + [scc] else v.sccs)
  }

  /** The innermost frame returns: it passes its lowlink down and, if that is still its own index,
      closes a component. */
  ghost function Return(adj: seq<seq<nat>>, v: Vectors): Vectors
    requires InRange(adj, v) && v.frames != []
  {
    var u := v.frames[|v.frames| - 1].node;
    var rest := v.frames[..|v.frames| - 1];
    var low := if rest == [] then v.low
               else var p := rest[|rest| - 1].node; v.low[p := T.Min(v.low[p], v.low[u])];
    var next := v.(frames := rest, low := low);
    if low[u] == v.num[u] then Pop(adj, next, u) else next
  }

  // ---- how the vectors hold the abstract state ----

  ghost predicate Represents(adj: seq<seq<nat>>, E: set<(nat, nat)>) {
    forall u: nat, v: nat {:trigger (u, v) in E} :: (u, v) in E <==> u < |adj| && v < |adj| && v in adj[u]
  }

  /** The node stack holds the waiting nodes in the order of their indices. */
  ghost predicate StackOf(s: T.State, stack: seq<nat>)
    requires T.Shape(s)
  {
    && (forall x :: x in s.waiting <==> x in stack)
    && (forall i :: 0 <= i < |stack| ==> stack[i] in s.waiting)
    && (forall i, j :: 0 <= i < j < |stack| ==> s.num[stack[i]] < s.num[stack[j]])
  }

  ghost predicate HasFrame(frames: seq<Frame>, x: nat) {
    exists i :: 0 <= i < |frames| && frames[i].node == x
  }

  /** The frames hold the open nodes in the order of their indices. */
  ghost predicate FramesOf(s: T.State, frames: seq<Frame>)
    requires T.Shape(s)
  {
    && (forall i :: 0 <= i < |frames| ==> frames[i].node in s.open)
    && (forall x {:trigger HasFrame(frames, x)} :: x in s.open ==> HasFrame(frames, x))
    && (forall i, j :: 0 <= i < j < |frames| ==> s.num[frames[i].node] < s.num[frames[j].node])
  }

  /** The edges of `f` before its child position have been looked at. */
  ghost predicate Progress(s: T.State, adj: seq<seq<nat>>, f: Frame) {
    && f.node < |adj|
    && f.child <= |adj[f.node]|
    && forall k :: 0 <= k < f.child && adj[f.node][k] < |adj| ==> (f.node, adj[f.node][k]) in s.looked
  }

  ghost predicate Flags(s: T.State, on: seq<bool>) {
    |on| == |s.num| && forall x: nat :: x < |on| ==> (on[x] <==> x in s.waiting)
  }

  /** The vectors `v` hold the abstract state `s`, in which the invariant is true. */
  ghost predicate Holds(E: set<(nat, nat)>, R: iset<(nat, nat)>, adj: seq<seq<nat>>, s: T.State, v: Vectors) {
    && Represents(adj, E)
    && T.Reachability(E, R)
    && T.Inv(E, R, s)
    && s.num == v.num && s.low == v.low && s.index == v.index
    && |s.num| == |adj|
    && |s.waiting| + |s.gone| == s.index
    && Flags(s, v.on)
    && StackOf(s, v.stack)
    && FramesOf(s, v.frames)
    && (forall i :: 0 <= i < |v.frames| ==> Progress(s, adj, v.frames[i]))
    && CyclesOf(E, s.gone, v.sccs)
  }

  /** At most `n` indices are handed out, so a 32-bit index never overflows. */
  lemma IndexBound(s: T.State)
    requires T.Shape(s) && |s.waiting| + |s.gone| == s.index
    ensures s.index <= |s.num|
    ensures (exists v: nat :: v < |s.num| && s.num[v] == -1) ==> s.index < |s.num|
  {
    var all := Below(|s.num|);
    SubsetSize(s.waiting + s.gone, all);
    if v: nat :| v < |s.num| && s.num[v] == -1 {
      SubsetSize(s.waiting + s.gone, all - {v});
    }
  }

  /** The last frame is the innermost one, and the frame below it its parent. */
  lemma LastFrame(s: T.State, frames: seq<Frame>)
    requires T.Shape(s) && FramesOf(s, frames) && frames != []
    ensures T.Top(s, frames[|frames| - 1].node)
    ensures |frames| > 1 ==> T.Parent(s, frames[|frames| - 1].node, frames[|frames| - 2].node)
    ensures |frames| == 1 ==> s.open == {frames[0].node}
  {
    assert forall x :: x in s.open ==> HasFrame(frames, x);
  }

  lemma EnterLinks(s: T.State, on: seq<bool>, stack: seq<nat>, frames: seq<Frame>, v: nat)
    requires T.Shape(s) && Flags(s, on) && StackOf(s, stack) && FramesOf(s, frames)
    requires v < |s.num| && s.num[v] == -1 && T.Shape(T.Enter(s, v))
    ensures Flags(T.Enter(s, v), on[v := true])
    ensures StackOf(T.Enter(s, v), stack + [v])
    ensures FramesOf(T.Enter(s, v), frames + [Frame(v, 0)])
    ensures |T.Enter(s, v).waiting| == |s.waiting| + 1
  {
    assert v !in s.waiting;
    EnterStack(s, stack, v);
    EnterFrames(s, frames, v);
  }

  lemma EnterStack(s: T.State, stack: seq<nat>, v: nat)
    requires T.Shape(s) && StackOf(s, stack)
    requires v < |s.num| && s.num[v] == -1 && T.Shape(T.Enter(s, v))
    ensures StackOf(T.Enter(s, v), stack + [v])
  {
    assert v !in s.waiting;
  }

  lemma EnterFrames(s: T.State, frames: seq<Frame>, v: nat)
    requires T.Shape(s) && FramesOf(s, frames)
    requires v < |s.num| && s.num[v] == -1 && T.Shape(T.Enter(s, v))
    ensures FramesOf(T.Enter(s, v), frames + [Frame(v, 0)])
  {
    var t := T.Enter(s, v);
    assert v !in s.open;
    var fs := frames + [Frame(v, 0)];
    forall x {:trigger HasFrame(fs, x)} | x in t.open
      ensures HasFrame(fs, x)
    {
      if x == v {
        assert fs[|frames|].node == v;
      } else {
        assert HasFrame(frames, x);
        var i :| 0 <= i < |frames| && frames[i].node == x;
        assert fs[i].node == x;
      }
    }
  }

  lemma AdvanceLinks(s: T.State, t: T.State, adj: seq<seq<nat>>, frames: seq<Frame>)
    requires T.Shape(s) && T.Shape(t) && FramesOf(s, frames) && frames != []
    requires t.num == s.num && t.open == s.open && s.looked <= t.looked
    requires forall i :: 0 <= i < |frames| ==> Progress(s, adj, frames[i])
    requires CanLook(adj, frames)
    requires NextEdge(adj, frames).1 < |adj| ==> NextEdge(adj, frames) in t.looked
    ensures FramesOf(t, Advance(frames))
    ensures forall i :: 0 <= i < |frames| ==> Progress(t, adj, Advance(frames)[i])
  {
    var fs := Advance(frames);
    forall x {:trigger HasFrame(fs, x)} | x in t.open
      ensures HasFrame(fs, x)
    {
      assert HasFrame(frames, x);
      var i :| 0 <= i < |frames| && frames[i].node == x;
      assert fs[i].node == x;
    }
    forall i | 0 <= i < |frames|
      ensures Progress(t, adj, fs[i])
    {
      assert Progress(s, adj, frames[i]);
    }
  }

  lemma EnterChildLinks(adj: seq<seq<nat>>, s: T.State, on: seq<bool>, stack: seq<nat>,
                        frames: seq<Frame>, u: nat, v: nat)
    requires T.Shape(s) && Flags(s, on) && StackOf(s, stack) && FramesOf(s, frames)
    requires |adj| == |s.num| && forall i :: 0 <= i < |frames| ==> Progress(s, adj, frames[i])
    requires CanLook(adj, frames) && (u, v) == NextEdge(adj, frames)
    requires v < |adj| && s.num[v] == -1 && T.Shape(T.Look(T.Enter(s, v), u, v))
    ensures var t := T.Look(T.Enter(s, v), u, v);
            var fs := Advance(frames) + [Frame(v, 0)];
            && Flags(t, on[v := true])
            && StackOf(t, stack + [v])
            && FramesOf(t, fs)
            && (forall i :: 0 <= i < |fs| ==> Progress(t, adj, fs[i]))
            && |t.waiting| == |s.waiting| + 1
  {
    assert T.Enter(T.Look(s, u, v), v) == T.Look(T.Enter(s, v), u, v);
    ChildLinks(adj, s, T.Look(s, u, v), T.Look(T.Enter(s, v), u, v), on, stack, frames, v);
  }

  lemma ChildLinks(adj: seq<seq<nat>>, s: T.State, l: T.State, t: T.State, on: seq<bool>, stack: seq<nat>,
                   frames: seq<Frame>, v: nat)
    requires T.Shape(s) && Flags(s, on) && StackOf(s, stack) && FramesOf(s, frames)
    requires |adj| == |s.num| && forall i :: 0 <= i < |frames| ==> Progress(s, adj, frames[i])
    requires CanLook(adj, frames) && v < |adj| && s.num[v] == -1
    requires l == T.Look(s, NextEdge(adj, frames).0, NextEdge(adj, frames).1)
    requires t == T.Enter(l, v) && T.Shape(t)
    ensures Flags(t, on[v := true]) && StackOf(t, stack + [v]) && FramesOf(t, Advance(frames) + [Frame(v, 0)])
    ensures forall i :: 0 <= i <= |frames| ==> Progress(t, adj, (Advance(frames) + [Frame(v, 0)])[i])
    ensures |t.waiting| == |s.waiting| + 1
  {
    AdvanceLinks(s, l, adj, frames);
    EnterLinks(l, on, stack, Advance(frames), v);
    OpenProgress(l, t, adj, Advance(frames), v);
  }

  /** The frames keep their progress when a frame for `v` is opened on top. */
  lemma OpenProgress(s: T.State, t: T.State, adj: seq<seq<nat>>, frames: seq<Frame>, v: nat)
    requires t.looked == s.looked && v < |adj|
    requires forall i :: 0 <= i < |frames| ==> Progress(s, adj, frames[i])
    ensures forall i :: 0 <= i <= |frames| ==> Progress(t, adj, (frames + [Frame(v, 0)])[i])
  {
    forall i | 0 <= i <= |frames|
      ensures Progress(t, adj, (frames + [Frame(v, 0)])[i])
    {
      assert i < |frames| ==> Progress(s, adj, frames[i]);
    }
  }

  lemma OpenRootHolds(E: set<(nat, nat)>, R: iset<(nat, nat)>, adj: seq<seq<nat>>, s: T.State, v: Vectors, x: nat)
    requires Holds(E, R, adj, s, v) && v.frames == [] && x < |adj| && v.num[x] == -1
    ensures v.stack == []
    ensures Holds(E, R, adj, T.Enter(s, x), Open(v, x))
  {
    NoFrames(E, R, adj, s, v);
    T.EnterRoot(E, R, s, x);
    EnterLinks(s, v.on, v.stack, v.frames, x);
  }

  /** Between roots nothing waits: the node stack is empty. */
  lemma NoFrames(E: set<(nat, nat)>, R: iset<(nat, nat)>, adj: seq<seq<nat>>, s: T.State, v: Vectors)
    requires Holds(E, R, adj, s, v) && v.frames == []
    ensures s.open == {} && s.waiting == {} && v.stack == []
  {
    assert forall x :: x in s.open ==> HasFrame(v.frames, x);
    assert s.open == {};
    T.NothingWaits(R, s);
    NotEmpty(v.stack);
  }

  lemma OpenChildHolds(E: set<(nat, nat)>, R: iset<(nat, nat)>, adj: seq<seq<nat>>, s: T.State, v: Vectors, u: nat,
                       x: nat)
    requires Holds(E, R, adj, s, v) && CanLook(adj, v.frames)
    requires (u, x) == NextEdge(adj, v.frames) && x < |adj| && v.num[x] == -1
    ensures Holds(E, R, adj, T.Look(T.Enter(s, x), u, x), Open(v.(frames := Advance(v.frames)), x))
  {
    LastFrame(s, v.frames);
    assert (u, x) in E;
    T.EnterChild(E, R, s, u, x);
    EnterChildLinks(adj, s, v.on, v.stack, v.frames, u, x);
  }

  lemma SkipHolds(E: set<(nat, nat)>, R: iset<(nat, nat)>, adj: seq<seq<nat>>, s: T.State, v: Vectors)
    requires Holds(E, R, adj, s, v) && CanLook(adj, v.frames) && NextEdge(adj, v.frames).1 >= |adj|
    ensures Holds(E, R, adj, s, v.(frames := Advance(v.frames)))
  {
    AdvanceLinks(s, s, adj, v.frames);
  }

  lemma PastHolds(E: set<(nat, nat)>, R: iset<(nat, nat)>, adj: seq<seq<nat>>, s: T.State, v: Vectors, u: nat, x: nat)
    requires Holds(E, R, adj, s, v) && CanLook(adj, v.frames)
    requires (u, x) == NextEdge(adj, v.frames) && x < |adj| && v.num[x] != -1 && !v.on[x]
    ensures Holds(E, R, adj, T.Look(s, u, x), v.(frames := Advance(v.frames)))
  {
    LastFrame(s, v.frames);
    assert (u, x) in E;
    T.LookPast(E, R, s, u, x);
    AdvanceLinks(s, T.Look(s, u, x), adj, v.frames);
  }

  lemma BackHolds(E: set<(nat, nat)>, R: iset<(nat, nat)>, adj: seq<seq<nat>>, s: T.State, v: Vectors, u: nat, x: nat)
    requires Holds(E, R, adj, s, v) && CanLook(adj, v.frames)
    requires (u, x) == NextEdge(adj, v.frames) && x < |adj| && v.on[x]
    ensures Holds(E, R, adj, T.Look(T.Lower(s, u, s.num[x]), u, x),
                  v.(frames := Advance(v.frames), low := v.low[u := T.Min(v.low[u], v.num[x])]))
  {
    LastFrame(s, v.frames);
    assert (u, x) in E;
    T.LookBack(E, R, s, u, x);
    AdvanceLinks(s, T.Look(T.Lower(s, u, s.num[x]), u, x), adj, v.frames);
  }

  lemma LookHolds(E: set<(nat, nat)>, R: iset<(nat, nat)>, adj: seq<seq<nat>>, s: T.State, v: Vectors)
    returns (t: T.State)
    requires Holds(E, R, adj, s, v) && CanLook(adj, v.frames)
    ensures InRange(adj, v) && Holds(E, R, adj, t, Look(adj, v))
  {
    HoldsInRange(E, R, adj, s, v);
    var (u, x) := NextEdge(adj, v.frames);
    if x >= |adj| {
      SkipHolds(E, R, adj, s, v);
      t := s;
    } else if v.num[x] == -1 {
      OpenChildHolds(E, R, adj, s, v, u, x);
      t := T.Look(T.Enter(s, x), u, x);
    } else if v.on[x] {
      BackHolds(E, R, adj, s, v, u, x);
      t := T.Look(T.Lower(s, u, s.num[x]), u, x);
    } else {
      PastHolds(E, R, adj, s, v, u, x);
      t := T.Look(s, u, x);
    }
  }

  lemma HoldsInRange(E: set<(nat, nat)>, R: iset<(nat, nat)>, adj: seq<seq<nat>>, s: T.State, v: Vectors)
    requires Holds(E, R, adj, s, v)
    ensures InRange(adj, v)
  {
    forall i | 0 <= i < |v.frames|
      ensures v.frames[i].node < |adj| && v.frames[i].child <= |adj[v.frames[i].node]|
    {
      assert Progress(s, adj, v.frames[i]);
    }
  }

  lemma DoneFrame(E: set<(nat, nat)>, adj: seq<seq<nat>>, s: T.State, f: Frame)
    requires Represents(adj, E) && Progress(s, adj, f) && f.child == |adj[f.node]|
    ensures T.Done(E, s, f.node)
  {
    forall w | (f.node, w) in E
      ensures (f.node, w) in s.looked
    {
      assert w in adj[f.node];
    }
  }

  lemma CloseLinks(s: T.State, t: T.State, adj: seq<seq<nat>>, frames: seq<Frame>)
    requires T.Shape(s) && T.Shape(t) && FramesOf(s, frames) && frames != []
    requires t.num == s.num && t.open == s.open - {frames[|frames| - 1].node} && s.looked <= t.looked
    requires forall i :: 0 <= i < |frames| ==> Progress(s, adj, frames[i])
    ensures FramesOf(t, frames[..|frames| - 1])
    ensures forall i :: 0 <= i < |frames| - 1 ==> Progress(t, adj, frames[i])
  {
    var fs := frames[..|frames| - 1];
    forall x {:trigger HasFrame(fs, x)} | x in t.open
      ensures HasFrame(fs, x)
    {
      assert HasFrame(frames, x);
      var i :| 0 <= i < |frames| && frames[i].node == x;
      assert fs[i].node == x;
    }
    forall i | 0 <= i < |frames| - 1
      ensures Progress(t, adj, frames[i])
    {
      assert Progress(s, adj, frames[i]);
    }
  }

  /** A frame whose lowlink equals its index does not lower the lowlink of the frame below. */
  lemma NoLowering(E: set<(nat, nat)>, R: iset<(nat, nat)>, s: T.State, frames: seq<Frame>, u: nat)
    requires T.Inv(E, R, s) && FramesOf(s, frames) && |frames| > 1
    requires u == frames[|frames| - 1].node && s.low[u] == s.num[u]
    ensures T.Lower(s, frames[|frames| - 2].node, s.low[u]) == s
  {
    var p := frames[|frames| - 2].node;
    assert T.LowReached(R, s, p);
    assert s.low[p := s.low[p]] == s.low;
  }

  /** A frame whose lowlink is below its index has a parent and returns to it. */
  lemma PassFrames(E: set<(nat, nat)>, R: iset<(nat, nat)>, adj: seq<seq<nat>>, s: T.State, v: Vectors, u: nat)
    requires Holds(E, R, adj, s, v) && v.frames != []
    requires u < |adj| && v.frames[|v.frames| - 1] == Frame(u, |adj[u]|) && v.low[u] != v.num[u]
    ensures |v.frames| > 1
    ensures var p := v.frames[|v.frames| - 2].node;
            var t := T.Close(T.Lower(s, p, s.low[u]), u);
            var rest := v.frames[..|v.frames| - 1];
            && T.Inv(E, R, t)
            && FramesOf(t, rest)
            && forall i :: 0 <= i < |rest| ==> Progress(t, adj, rest[i])
  {
    LastFrame(s, v.frames);
    assert Progress(s, adj, v.frames[|v.frames| - 1]);
    DoneFrame(E, adj, s, v.frames[|v.frames| - 1]);
    assert T.LowReached(R, s, u);
    if |v.frames| == 1 {
      T.RootCloses(E, R, s, u);
    }
    var p := v.frames[|v.frames| - 2].node;
    T.ReturnInv(E, R, s, u, p);
    CloseLinks(s, T.Close(T.Lower(s, p, s.low[u]), u), adj, v.frames);
  }

  lemma PassHolds(E: set<(nat, nat)>, R: iset<(nat, nat)>, adj: seq<seq<nat>>, s: T.State, v: Vectors, u: nat)
    returns (t: T.State)
    requires Holds(E, R, adj, s, v) && v.frames != []
    requires u < |adj| && v.frames[|v.frames| - 1] == Frame(u, |adj[u]|) && v.low[u] != v.num[u]
    ensures InRange(adj, v) && Holds(E, R, adj, t, Return(adj, v))
  {
    HoldsInRange(E, R, adj, s, v);
    PassFrames(E, R, adj, s, v, u);
    var p := v.frames[|v.frames| - 2].node;
    t := T.Close(T.Lower(s, p, s.low[u]), u);
    var rest := v.frames[..|v.frames| - 1];
    assert p != u;
    assert Return(adj, v) == v.(frames := rest, low := t.low);
  }

  lemma EmitHolds(E: set<(nat, nat)>, R: iset<(nat, nat)>, adj: seq<seq<nat>>, s: T.State, v: Vectors, u: nat)
    returns (t: T.State)
    requires Holds(E, R, adj, s, v) && v.frames != []
    requires u < |adj| && v.frames[|v.frames| - 1] == Frame(u, |adj[u]|) && v.low[u] == v.num[u]
    ensures InRange(adj, v) && Holds(E, R, adj, t, Return(adj, v))
  {
    HoldsInRange(E, R, adj, s, v);
    var rest := v.frames[..|v.frames| - 1];
    if rest != [] {
      NoLowering(E, R, s, v.frames, u);
    }
    var next := v.(frames := rest);
    assert Return(adj, v) == Pop(adj, next, u);
    LastFrame(s, v.frames);
    t := T.Emit(T.Close(s, u), T.Component(s, u));
    PopHolds(E, R, adj, s, v, u);
  }

  lemma PopHolds(E: set<(nat, nat)>, R: iset<(nat, nat)>, adj: seq<seq<nat>>, s: T.State, v: Vectors, u: nat)
    requires Holds(E, R, adj, s, v) && v.frames != []
    requires u < |adj| && v.frames[|v.frames| - 1] == Frame(u, |adj[u]|) && v.low[u] == v.num[u]
    ensures Holds(E, R, adj, T.Emit(T.Close(s, u), T.Component(s, u)),
                  Pop(adj, v.(frames := v.frames[..|v.frames| - 1]), u))
  {
    var t := T.Emit(T.Close(s, u), T.Component(s, u));
    PopFrames(E, R, adj, s, v, u);
    PopLinks(s, t, v, u);
    PopReport(E, R, adj, s, v, u);
  }

  lemma PopFrames(E: set<(nat, nat)>, R: iset<(nat, nat)>, adj: seq<seq<nat>>, s: T.State, v: Vectors, u: nat)
    requires Holds(E, R, adj, s, v) && v.frames != []
    requires u < |adj| && v.frames[|v.frames| - 1] == Frame(u, |adj[u]|) && v.low[u] == v.num[u]
    ensures T.Top(s, u) && T.Done(E, s, u)
    ensures var t := T.Emit(T.Close(s, u), T.Component(s, u));
            var rest := v.frames[..|v.frames| - 1];
            && T.Inv(E, R, t)
            && FramesOf(t, rest)
            && forall i :: 0 <= i < |rest| ==> Progress(t, adj, rest[i])
  {
    LastFrame(s, v.frames);
    assert Progress(s, adj, v.frames[|v.frames| - 1]);
    DoneFrame(E, adj, s, v.frames[|v.frames| - 1]);
    T.EmitInv(E, R, s, u);
    CloseLinks(s, T.Emit(T.Close(s, u), T.Component(s, u)), adj, v.frames);
  }

  lemma PopReport(E: set<(nat, nat)>, R: iset<(nat, nat)>, adj: seq<seq<nat>>, s: T.State, v: Vectors, u: nat)
    requires Represents(adj, E) && T.Reachability(E, R) && T.Inv(E, R, s) && T.Top(s, u) && T.Done(E, s, u)
    requires |s.num| == |adj| && s.low[u] == s.num[u] && StackOf(s, v.stack) && CyclesOf(E, s.gone, v.sccs)
    ensures CyclesOf(E, s.gone + T.Component(s, u), Pop(adj, v, u).sccs)
  {
    var p := CutAt(v.stack, u);
    var scc := v.stack[p..];
    StackSplit(s, v.stack, u, p);
    assert scc[0] == u;
    T.ComponentIsClass(E, R, s, u);
    StackTree(E, s, v.stack, u, p);
    assert (u, u) in E <==> u in adj[u];
    EmitReport(E, s.gone, v.sccs, scc, T.Component(s, u), u, |scc| > 1 || u in adj[u]);
  }

  lemma PopLinks(s: T.State, t: T.State, v: Vectors, u: nat)
    requires T.Shape(s) && StackOf(s, v.stack) && Flags(s, v.on) && u in s.waiting
    requires T.Shape(t) && t.num == s.num && t.gone == s.gone + T.Component(s, u)
    requires t.waiting == s.waiting - T.Component(s, u)
    ensures var p := CutAt(v.stack, u);
            && Flags(t, Unflag(v.on, v.stack[p..]))
            && StackOf(t, v.stack[..p])
            && |t.waiting| + |t.gone| == |s.waiting| + |s.gone|
  {
    var p := CutAt(v.stack, u);
    PopFlags(s, t, v, u, p);
    PopStack(s, t, v, u, p);
    MoveSize(s.waiting, s.gone, T.Component(s, u));
  }

  lemma PopFlags(s: T.State, t: T.State, v: Vectors, u: nat, p: nat)
    requires T.Shape(s) && StackOf(s, v.stack) && Flags(s, v.on) && p < |v.stack| && v.stack[p] == u
    requires t.num == s.num && t.waiting == s.waiting - T.Component(s, u)
    ensures Flags(t, Unflag(v.on, v.stack[p..]))
  {
    StackSplit(s, v.stack, u, p);
    var on := Unflag(v.on, v.stack[p..]);
    forall x: nat | x < |on|
      ensures on[x] <==> x in t.waiting
    {
      assert on[x] == (v.on[x] && x !in v.stack[p..]);
    }
  }

  lemma PopStack(s: T.State, t: T.State, v: Vectors, u: nat, p: nat)
    requires T.Shape(s) && StackOf(s, v.stack) && p < |v.stack| && v.stack[p] == u
    requires T.Shape(t) && t.num == s.num && t.waiting == s.waiting - T.Component(s, u)
    ensures StackOf(t, v.stack[..p])
  {
    StackSplit(s, v.stack, u, p);
    var q := v.stack[..p];
    forall i | 0 <= i < |q|
      ensures q[i] in t.waiting
    {
      assert q[i] in q;
    }
  }

  /** Moving `c` from one set to a disjoint one keeps the total size. */
  lemma MoveSize<X>(a: set<X>, b: set<X>, c: set<X>)
    requires c <= a && a !! b
    ensures |a - c| + |b + c| == |a| + |b|
  {
    assert |a - c| == |a| - |c|;
  }

  lemma EmitReport(E: set<(nat, nat)>, gone: set<nat>, sccs: seq<seq<nat>>, c: seq<nat>, members: set<nat>, u: nat,
                   cyclic: bool)
    requires CyclesOf(E, gone, sccs) && Closed(E, gone)
    requires members !! gone && forall x :: x in c <==> x in members
    requires Distinct(c) && InTreeOrder(E, c) && u in c && (cyclic <==> |c| > 1 || (u, u) in E)
    requires forall x: nat, y: nat :: x in members ==> (y in members <==> Reach(E, x, y) && Reach(E, y, x))
    ensures CyclesOf(E, gone + members, if cyclic then sccs + [c] else sccs)
  {
    ClassIsScc(E, c, members);
    SameMembers(c, members);
    AppendClass(E, gone, sccs, c, u, cyclic);
  }

  lemma ClassIsScc(E: set<(nat, nat)>, c: seq<nat>, members: set<nat>)
    requires c != [] && Distinct(c) && InTreeOrder(E, c) && forall x :: x in c <==> x in members
    requires forall x: nat, y: nat :: x in members ==> (y in members <==> Reach(E, x, y) && Reach(E, y, x))
    ensures IsScc(E, c)
  {
  }

  lemma SameMembers(c: seq<nat>, members: set<nat>)
    requires forall x :: x in c <==> x in members
    ensures (set x | x in c) == members
  {
  }

  /** On the stack every node after an open one is led to from there on. */
  lemma StackTree(E: set<(nat, nat)>, s: T.State, stack: seq<nat>, u: nat, p: nat)
    requires T.Shape(s) && T.Tree(E, s) && StackOf(s, stack) && u in s.open && p < |stack| && stack[p] == u
    ensures InTreeOrder(E, stack[p..])
  {
    var c := stack[p..];
    forall i | 0 < i < |c|
      ensures exists j :: 0 <= j < i && (c[j], c[i]) in E
    {
      assert c[i] == stack[p + i];
      assert T.LedTo(E, s, u, c[i]);
      var x :| x in s.waiting && (x, c[i]) in E && s.num[u] <= s.num[x] < s.num[c[i]];
      var k :| 0 <= k < |stack| && stack[k] == x;
      assert c[k - p] == x;
    }
  }

  /** The stack from `u` on is the component of `u`; the rest is what still waits. */
  lemma StackSplit(s: T.State, stack: seq<nat>, u: nat, p: nat)
    requires T.Shape(s) && StackOf(s, stack) && p < |stack| && stack[p] == u
    ensures forall x :: x in stack[p..] <==> x in T.Component(s, u)
    ensures Distinct(stack[p..])
    ensures forall x :: x in stack[..p] <==> x in s.waiting && x !in T.Component(s, u)
  {
    forall x | x in s.waiting
      ensures x in stack[p..] <==> s.num[x] >= s.num[u]
      ensures x in stack[..p] <==> s.num[x] < s.num[u]
    {
      var i :| 0 <= i < |stack| && stack[i] == x;
      if i >= p {
        assert stack[p..][i - p] == x;
      } else {
        assert stack[..p][i] == x;
      }
    }
  }

  // ---- the invariant of the vectors ----

  /** The vectors can arise in a run over `adj`, the adjacency lists of `E`. */
  ghost predicate Good(E: set<(nat, nat)>, adj: seq<seq<nat>>, v: Vectors) {
    exists R, s :: Holds(E, R, adj, s, v)
  }

  /** The set of the good vectors; membership in it stands for the invariant in the methods. */
  ghost predicate Invariant(E: set<(nat, nat)>, adj: seq<seq<nat>>, I: iset<Vectors>) {
    forall v {:trigger Good(E, adj, v)} :: v in I <==> Good(E, adj, v)
  }

  ghost function GoodVectors(E: set<(nat, nat)>, adj: seq<seq<nat>>): (I: iset<Vectors>)
    ensures Invariant(E, adj, I)
  {
    iset v: Vectors | Good(E, adj, v)
  }

  ghost function Start(n: nat): Vectors {
    Vectors(seq(n, i => -1), seq(n, i => -1), seq(n, i => false), [], [], 0, [])
  }

  lemma StartGood(E: set<(nat, nat)>, adj: seq<seq<nat>>, I: iset<Vectors>)
    requires Invariant(E, adj, I) && Represents(adj, E)
    ensures Start(|adj|) in I
  {
    var R := iset p: (nat, nat) | Reach(E, p.0, p.1);
    T.InitialInv(E, R, |adj|);
    assert Holds(E, R, adj, T.Initial(|adj|), Start(|adj|));
    assert Good(E, adj, Start(|adj|));
  }

  /** Every position is in range, and no index exceeds the number of nodes. */
  lemma GoodInRange(E: set<(nat, nat)>, adj: seq<seq<nat>>, I: iset<Vectors>, v: Vectors)
    requires Invariant(E, adj, I) && v in I
    ensures InRange(adj, v) && 0 <= v.index <= |adj|
    ensures (exists x: nat :: x < |adj| && v.num[x] == -1) ==> v.index < |adj|
  {
    assert Good(E, adj, v);
    var R, s :| Holds(E, R, adj, s, v);
    HoldsInRange(E, R, adj, s, v);
    IndexBound(s);
  }

  lemma OpenRootGood(E: set<(nat, nat)>, adj: seq<seq<nat>>, I: iset<Vectors>, v: Vectors, x: nat)
    requires Invariant(E, adj, I) && v in I && InRange(adj, v)
    requires v.frames == [] && x < |adj| && v.num[x] == -1
    ensures v.stack == []
    ensures Open(v, x) in I
  {
    assert Good(E, adj, v);
    var R, s :| Holds(E, R, adj, s, v);
    OpenRootHolds(E, R, adj, s, v, x);
    assert Good(E, adj, Open(v, x));
  }

  /** The node of the innermost frame waits on the node stack, so popping down to it stops there. */
  lemma FrameWaits(E: set<(nat, nat)>, adj: seq<seq<nat>>, I: iset<Vectors>, v: Vectors)
    requires Invariant(E, adj, I) && v in I && v.frames != []
    ensures v.frames[|v.frames| - 1].node in v.stack
  {
    assert Good(E, adj, v);
    var R, s :| Holds(E, R, adj, s, v);
  }

  lemma LookGood(E: set<(nat, nat)>, adj: seq<seq<nat>>, I: iset<Vectors>, v: Vectors)
    requires Invariant(E, adj, I) && v in I && InRange(adj, v) && CanLook(adj, v.frames)
    ensures Look(adj, v) in I
  {
    assert Good(E, adj, v);
    var R, s :| Holds(E, R, adj, s, v);
    var t := LookHolds(E, R, adj, s, v);
    assert Good(E, adj, Look(adj, v));
  }

  lemma ReturnGood(E: set<(nat, nat)>, adj: seq<seq<nat>>, I: iset<Vectors>, v: Vectors)
    requires Invariant(E, adj, I) && v in I && InRange(adj, v)
    requires v.frames != [] && !CanLook(adj, v.frames)
    ensures Return(adj, v) in I
  {
    assert Good(E, adj, v);
    var R, s :| Holds(E, R, adj, s, v);
    var u := v.frames[|v.frames| - 1].node;
    var t: T.State;
    if v.low[u] == v.num[u] {
      t := EmitHolds(E, R, adj, s, v, u);
    } else {
      t := PassHolds(E, R, adj, s, v, u);
    }
    assert Good(E, adj, Return(adj, v));
  }

  /** When every node has been visited and no frame is open, the report is complete. */
  lemma EndGood(E: set<(nat, nat)>, adj: seq<seq<nat>>, I: iset<Vectors>, v: Vectors)
    requires Invariant(E, adj, I) && v in I && InRange(adj, v) && v.frames == []
    requires forall x: nat :: x < |adj| ==> v.num[x] != -1
    ensures IsCycleReport(E, v.sccs)
  {
    assert Good(E, adj, v);
    var R, s :| Holds(E, R, adj, s, v);
    NoFrames(E, R, adj, s, v);
    forall x: nat | OnCycle(E, x)
      ensures x in s.gone
    {
      var w :| (x, w) in E && Reach(E, w, x);
    }
  }

  // ---- the program ----

  /** The out-neighbours of every node, in edge order; edges from beyond `n` are dropped. */
  method Adjacency(n: nat, g: Csr) returns (adj: seq<seq<nat>>)
    requires g.Valid()
    ensures |adj| == n && Represents(adj, g.Inner(n))
  {
    adj := seq(n, i => []);
    for i := 0 to |g.from|
      invariant |adj| == n
      invariant forall u: nat, v: nat ::
                  u < n ==> (v in adj[u] <==> exists j :: 0 <= j < i && g.from[j] == u && g.to[j] == v)
    {
      var from, to := g.from[i], g.to[i];
      if from < n {
        adj := adj[from := adj[from] + [to]];
      }
    }
    forall u: nat, v: nat
      ensures (u, v) in g.Inner(n) <==> u < |adj| && v < |adj| && v in adj[u]
    {
      if u < n && v in adj[u] {
        var j :| 0 <= j < |g.from| && g.from[j] == u && g.to[j] == v;
        assert (g.from[j], g.to[j]) in g.Edges();
      }
    }
  }

  /** Edges left to look at plus open frames: what a run without new nodes consumes. */
  ghost function Work(adj: seq<seq<nat>>, frames: seq<Frame>): nat {
    if frames == [] then 0
    else
      var f := frames[|frames| - 1];
      Work(adj, frames[..|frames| - 1])
        + (if f.node < |adj| && f.child <= |adj[f.node]| then |adj[f.node]| - f.child + 1 else 0)
  }

  lemma WorkAdvance(adj: seq<seq<nat>>, frames: seq<Frame>)
    requires CanLook(adj, frames)
    ensures Work(adj, Advance(frames)) < Work(adj, frames)
  {
    assert Advance(frames)[..|frames| - 1] == frames[..|frames| - 1];
  }

  function Reversed(c: seq<nat>): seq<nat> {
    seq(|c|, i requires 0 <= i < |c| => c[|c| - 1 - i])
  }

  /** Above the last `u` of the stack there is no other. */
  lemma {:induction false} CutIsLast(stack: seq<nat>, u: nat)
    requires u in stack
    ensures stack[CutAt(stack, u)..][0] == u && u !in stack[CutAt(stack, u)..][1..]
  {
    var n := |stack| - 1;
    if stack[n] != u {
      assert stack == stack[..n] + [stack[n]];
      CutIsLast(stack[..n], u);
      var p := CutAt(stack, u);
      assert stack[p..][1..] == stack[..n][p..][1..] + [stack[n]];
    }
  }

  /** One more node is popped. */
  lemma TailGrows(stack0: seq<nat>, m: nat)
    requires 0 < m <= |stack0|
    ensures stack0[m - 1..] == [stack0[m - 1]] + stack0[m..]
    ensures stack0[..m][..m - 1] == stack0[..m - 1]
    ensures Reversed(stack0[m - 1..]) == Reversed(stack0[m..]) + [stack0[m - 1]]
  {
  }

  /** Looking at an edge uses up an index or some work, and unvisits nothing. */
  lemma LookMeasure(adj: seq<seq<nat>>, v: Vectors)
    requires InRange(adj, v) && CanLook(adj, v.frames) && v.index >= 0
    ensures var w := Look(adj, v);
            && (w.index > v.index || (w.index == v.index && Work(adj, w.frames) < Work(adj, v.frames)))
            && forall x: nat :: x < |adj| && v.num[x] != -1 ==> w.num[x] != -1
  {
    WorkAdvance(adj, v.frames);
  }

  /** The vectors as the program holds them: fixed-size arrays and growing lists. */
  class Run {
    const adj: seq<seq<nat>>
    const indices: array<int>
    const lowlinks: array<int>
    const onStack: array<bool>
    var stack: seq<nat>
    var frames: seq<Frame>
    var index: int
    var sccs: seq<seq<nat>>

    ghost function Contents(): Vectors
      reads this, indices, lowlinks, onStack
    {
      Vectors(indices[..], lowlinks[..], onStack[..], stack, frames, index, sccs)
    }

    ghost predicate Valid()
      reads this, indices, lowlinks, onStack
    {
      indices != lowlinks && InRange(adj, Contents())
    }

    constructor (adj: seq<seq<nat>>)
      ensures Valid() && Contents() == Start(|adj|) && this.adj == adj
      ensures fresh(indices) && fresh(lowlinks) && fresh(onStack)
    {
      this.adj := adj;
      indices := new int[|adj|](i => -1);
      lowlinks := new int[|adj|](i => -1);
      onStack := new bool[|adj|](i => false);
      stack, frames, index, sccs := [], [], 0, [];
    }

    method OpenNode(x: nat)
      requires Valid() && x < |adj| && index < MAX_I32
      modifies this, indices, lowlinks, onStack
      ensures Valid() && Contents() == Open(old(Contents()), x)
    {
      indices[x] := index;
      lowlinks[x] := index;
      index := index + 1;
      stack := stack + [x];
      onStack[x] := true;
      frames := frames + [Frame(x, 0)];
    }

    method LookAtEdge()
      requires Valid() && CanLook(adj, frames)
      requires (exists x: nat :: x < |adj| && indices[x] == -1) ==> index < MAX_I32
      modifies this, indices, lowlinks, onStack
      ensures Valid() && Contents() == Look(adj, old(Contents()))
    {
      var u, child := frames[|frames| - 1].node, frames[|frames| - 1].child;
      var x := adj[u][child];
      frames := frames[|frames| - 1 := Frame(u, child + 1)];
      if x >= indices.Length {
        return;
      }
      if indices[x] == -1 {
        OpenNode(x);
      } else if onStack[x] {
        lowlinks[u] := T.Min(lowlinks[u], indices[x]);
      }
    }

    method ReturnFromFrame()
      requires Valid() && frames != [] && frames[|frames| - 1].node in stack
      modifies this, lowlinks, onStack
      ensures Valid() && Contents() == Return(adj, old(Contents()))
    {
      var u := frames[|frames| - 1].node;
      frames := frames[..|frames| - 1];
      if frames != [] {
        var p := frames[|frames| - 1].node;
        lowlinks[p] := T.Min(lowlinks[p], lowlinks[u]);
      }
      if lowlinks[u] == indices[u] {
        PopComponent(u);
      }
    }

    /** One turn of the inner loop keeps the invariant and uses up indices or work. */
    method Step(ghost E: set<(nat, nat)>, ghost I: iset<Vectors>)
      requires Invariant(E, adj, I) && Valid() && Contents() in I && frames != [] && |adj| <= MAX_I32
      modifies this, indices, lowlinks, onStack
      ensures Valid() && Contents() in I && index <= |adj|
      ensures old(index) < index || (old(index) == index && Work(adj, frames) < old(Work(adj, frames)))
      ensures forall x: nat :: x < |adj| && old(indices[x]) != -1 ==> indices[x] != -1
    {
      ghost var before := Contents();
      GoodInRange(E, adj, I, before);
      var frame := frames[|frames| - 1];
      if frame.child < |adj[frame.node]| {
        LookGood(E, adj, I, before);
        LookMeasure(adj, before);
        LookAtEdge();
      } else {
        ReturnGood(E, adj, I, before);
        FrameWaits(E, adj, I, before);
        ReturnFromFrame();
        assert indices[..] == before.num;
      }
      GoodInRange(E, adj, I, Contents());
    }

    /** Visits everything that can be visited from the unvisited node `root`. */
    method Explore(root: nat, ghost E: set<(nat, nat)>, ghost I: iset<Vectors>)
      requires Invariant(E, adj, I) && Valid() && Contents() in I && frames == [] && |adj| <= MAX_I32
      requires root < |adj| && indices[root] == -1
      modifies this, indices, lowlinks, onStack
      ensures Valid() && Contents() in I && frames == []
      ensures forall x: nat :: x < |adj| && (x == root || old(indices[x]) != -1) ==> indices[x] != -1
    {
      GoodInRange(E, adj, I, Contents());
      OpenRootGood(E, adj, I, Contents(), root);
      OpenNode(root);
      Drain(E, I);
    }

    /** Takes turns until no frame is open. */
    method Drain(ghost E: set<(nat, nat)>, ghost I: iset<Vectors>)
      requires Invariant(E, adj, I) && Valid() && Contents() in I && |adj| <= MAX_I32
      modifies this, indices, lowlinks, onStack
      ensures Valid() && Contents() in I && frames == []
      ensures forall x: nat :: x < |adj| && old(indices[x]) != -1 ==> indices[x] != -1
    {
      GoodInRange(E, adj, I, Contents());
      while frames != []
        invariant Valid() && Contents() in I && index <= |adj|
        invariant forall x: nat :: x < |adj| && old(indices[x]) != -1 ==> indices[x] != -1
        decreases |adj| - index, Work(adj, frames)
      {
        Step(E, I);
      }
    }

    /** Closes the component of `u`, and reports it if it has a cycle. */
    method PopComponent(u: nat)
      requires Valid() && u < |adj| && u in stack
      modifies this`stack, this`sccs, onStack
      ensures Valid() && Contents() == Pop(adj, old(Contents()), u)
    {
      var scc := PopUntil(u);
      if |scc| > 1 || (|scc| == 1 && u in adj[u]) {
        sccs := sccs + [scc];
      }
    }

    /** Pops the node stack down to and including `u`; the popped nodes come back in stack order. */
    method PopUntil(u: nat) returns (scc: seq<nat>)
      requires u in stack
      requires forall i :: 0 <= i < |stack| ==> stack[i] < onStack.Length
      modifies this`stack, onStack
      ensures scc == old(stack)[CutAt(old(stack), u)..] && stack == old(stack)[..CutAt(old(stack), u)]
      ensures onStack[..] == Unflag(old(onStack[..]), scc)
      ensures scc != [] && scc[0] == u && u !in scc[1..]
    {
      ghost var stack0 := stack;
      scc := [];
      while stack != []
        invariant |stack| <= |stack0| && stack == stack0[..|stack|]
        invariant scc == Reversed(stack0[|stack|..])
        invariant CutAt(stack, u) == CutAt(stack0, u)
        invariant onStack[..] == Unflag(old(onStack[..]), stack0[|stack|..])
      {
        var w := stack[|stack| - 1];
        TailGrows(stack0, |stack|);
        UnflagOne(old(onStack[..]), w, stack0[|stack|..]);
        stack := stack[..|stack| - 1];
        onStack[w] := false;
        scc := scc + [w];
        if w == u {
          break;
        }
      }
      scc := Reversed(scc);
      assert scc == stack0[|stack|..];
      CutIsLast(stack0, u);
    }
  }

  method FindCycles(n: nat, g: Csr) returns (sccs: seq<seq<nat>>)
    requires g.Valid() && n <= MAX_I32
    ensures IsCycleReport(g.Inner(n), sccs)
  {
    ghost var E := g.Inner(n);
    var adj := Adjacency(n, g);
    ghost var I := GoodVectors(E, adj);
    var run := new Run(adj);
    StartGood(E, adj, I);
    for start := 0 to n
      invariant fresh(run) && fresh(run.indices) && fresh(run.lowlinks) && fresh(run.onStack)
      invariant run.adj == adj && run.Valid() && run.Contents() in I && run.frames == []
      invariant forall x: nat :: x < start ==> run.indices[x] != -1
    {
      if run.indices[start] != -1 {
        continue;
      }
      run.Explore(start, E, I);
    }
    sccs := run.sccs;
    GoodInRange(E, adj, I, run.Contents());
    EndGood(E, adj, I, run.Contents());
  }
}
