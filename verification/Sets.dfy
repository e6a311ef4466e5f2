/** Small facts about finite sets and sequences. */
module Sets {

  /** The numbers below `n`. */
  ghost function Below(n: nat): (s: set<nat>)
    ensures |s| == n
    ensures forall x: nat :: x in s <==> x < n
  {
    if n == 0 then {} else Below(n - 1) + {n - 1}
  }

  lemma {:induction false} SubsetSize<X>(a: set<X>, b: set<X>)
    requires a <= b
    ensures |a| <= |b|
  {
    if x :| x in a {
      SubsetSize(a - {x}, b - {x});
    }
  }

  /** No member of the list occurs twice. */
  ghost predicate Distinct<X>(q: seq<X>) {
    forall i, j :: 0 <= i < j < |q| ==> q[i] != q[j]
  }

  /** `positions` lists, in order, exactly the numbers below `n` with a property. */
  ghost predicate Selects(positions: seq<nat>, n: nat, keep: nat --> bool)
    requires forall i: nat :: i < n ==> keep.requires(i)
  {
    && (forall i, j :: 0 <= i < j < |positions| ==> positions[i] < positions[j])
    && (forall i: nat :: i in positions <==> i < n && keep(i))
  }

  /** `r` consists, in order, of exactly the members of `q` with a property. */
  ghost predicate Filters<X(!new)>(q: seq<X>, r: seq<X>, keep: X -> bool) {
    exists pos: seq<nat> :: FiltersAt(q, r, keep, pos)
  }

  ghost predicate FiltersAt<X(!new)>(q: seq<X>, r: seq<X>, keep: X -> bool, pos: seq<nat>) {
    && Selects(pos, |q|, i requires 0 <= i < |q| => keep(q[i]))
    && |r| == |pos| && forall j :: 0 <= j < |r| ==> pos[j] < |q| && r[j] == q[pos[j]]
  }

  lemma FilterNone<X(!new)>(keep: X -> bool)
    ensures Filters([], [], keep)
  {
    assert FiltersAt([], [], keep, []);
  }

  lemma FilterNext<X(!new)>(q: seq<X>, r: seq<X>, keep: X -> bool, x: X)
    requires Filters(q, r, keep)
    ensures Filters(q + [x], r + (if keep(x) then [x] else []), keep)
  {
    var pos: seq<nat> :| FiltersAt(q, r, keep, pos);
    var pos' := pos + if keep(x) then [|q|] else [];
    assert forall i: nat :: i in pos' <==> i in pos || (i == |q| && keep(x));
    assert FiltersAt(q + [x], r + (if keep(x) then [x] else []), keep, pos');
  }

  lemma Assoc<X>(a: seq<X>, b: seq<X>, c: seq<X>)
    ensures (a + b) + c == a + (b + c)
  {
  }

  lemma NotEmpty<X>(q: seq<X>)
    ensures q != [] ==> exists x :: x in q
  {
    if q != [] {
      assert q[0] in q;
    }
  }
}
