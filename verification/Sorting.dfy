/** Sorted lists of distinct elements under any strict order, and that a set has only one. */
module Sorting {
  import opened Sets

  ghost predicate StrictOrder<T(!new)>(less: (T, T) -> bool) {
    && (forall a, b :: a == b || less(a, b) || less(b, a))
    && (forall a, b :: !(less(a, b) && less(b, a)))
    && (forall a, b, c :: less(a, b) && less(b, c) ==> less(a, c))
  }

  ghost predicate Ascending<T(!new)>(less: (T, T) -> bool, q: seq<T>) {
    forall i, j :: 0 <= i < j < |q| ==> less(q[i], q[j])
  }

  /** `q` lists the members of `s`, each once, in order. */
  ghost predicate Lists<T(!new)>(less: (T, T) -> bool, q: seq<T>, s: set<T>) {
    Ascending(less, q) && forall x :: x in q <==> x in s
  }

  ghost predicate IsLeast<T(!new)>(less: (T, T) -> bool, s: set<T>, m: T) {
    m in s && forall x :: x in s && x != m ==> less(m, x)
  }

  lemma {:induction false} LeastExists<T(!new)>(less: (T, T) -> bool, s: set<T>) returns (m: T)
    requires StrictOrder(less) && s != {}
    ensures IsLeast(less, s, m)
  {
    m :| m in s;
    var rest := s - {m};
    if rest == {} {
      assert s == {m};
    } else {
      var least := LeastExists(less, rest);
      assert forall x :: x in s ==> x == m || x in rest;
      if less(least, m) {
        m := least;
      }
    }
  }

  /** `sort` on a list of distinct elements. */
  method SortedList<T(==, !new)>(less: (T, T) -> bool, s: set<T>) returns (q: seq<T>)
    requires StrictOrder(less)
    ensures Lists(less, q, s)
  {
    q := [];
    var rest := s;
    while rest != {}
      invariant rest <= s && Ascending(less, q)
      invariant forall x :: x in q <==> x in s && x !in rest
      invariant forall x, y :: x in q && y in rest ==> less(x, y)
    {
      ghost var least := LeastExists(less, rest);
      assert IsLeast(less, rest, least);
      var m :| m in rest && forall x :: x in rest && x != m ==> less(m, x);
      assert forall i :: 0 <= i < |q| ==> q[i] in q;
      q := q + [m];
      rest := rest - {m};
    }
  }

  lemma ListedFirst<T(!new)>(less: (T, T) -> bool, q: seq<T>, s: set<T>)
    requires StrictOrder(less) && Lists(less, q, s) && q != []
    ensures IsLeast(less, s, q[0]) && Lists(less, q[1..], s - {q[0]})
  {
    forall x | x in s && x != q[0]
      ensures less(q[0], x)
    {
      var i :| 0 <= i < |q| && q[i] == x;
    }
    assert q == [q[0]] + q[1..];
    forall x
      ensures x in q[1..] <==> x in s - {q[0]}
    {
      if x in q[1..] {
        var i :| 0 <= i < |q| - 1 && q[1..][i] == x;
        assert less(q[0], q[i + 1]);
      }
    }
  }

  /** The sorted list of a set is unique. */
  lemma {:induction false} SortedUnique<T(!new)>(less: (T, T) -> bool, p: seq<T>, q: seq<T>, s: set<T>)
    requires StrictOrder(less) && Lists(less, p, s) && Lists(less, q, s)
    ensures p == q
    decreases |p|
  {
    if p == [] {
      NotEmpty(q);
    } else {
      assert p[0] in s;
      assert q != [] by {
        assert p[0] in q;
      }
      ListedFirst(less, p, s);
      ListedFirst(less, q, s);
      assert p[0] == q[0];
      SortedUnique(less, p[1..], q[1..], s - {p[0]});
      assert p == [p[0]] + p[1..] && q == [q[0]] + q[1..];
    }
  }
}
