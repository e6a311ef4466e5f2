/** The order in which paths are sorted. */
module Paths {
  import opened Sorting

  /** The order of strings by characters, a prefix first. */
  predicate Less(a: string, b: string) {
    if b == "" then false
    else if a == "" then true
    else if a[0] != b[0] then a[0] < b[0]
    else Less(a[1..], b[1..])
  }

  lemma {:induction false} LessTotal(a: string, b: string)
    ensures a == b || Less(a, b) || Less(b, a)
    ensures !(Less(a, b) && Less(b, a)) && !Less(a, a)
  {
    if a != "" {
      LessTotal(a[1..], a[1..]);
      if b != "" && a[0] == b[0] {
        LessTotal(a[1..], b[1..]);
        if a[1..] == b[1..] {
          assert a == [a[0]] + a[1..];
          assert b == [b[0]] + b[1..];
        }
      }
    }
  }

  lemma {:induction false} LessTransitive(a: string, b: string, c: string)
    requires Less(a, b) && Less(b, c)
    ensures Less(a, c)
  {
    if a != "" && a[0] == b[0] && b[0] == c[0] {
      LessTransitive(a[1..], b[1..], c[1..]);
    }
  }

  /** `a` comes before `b` if it is a proper prefix, or has the smaller character where they first differ. */
  lemma {:induction false} LessExactly(a: string, b: string)
    ensures Less(a, b) <==>
              exists k: nat :: Agree(a, b, k) && (k == |a| || a[k] < b[k])
  {
    if a != "" && b != "" && a[0] == b[0] {
      LessExactly(a[1..], b[1..]);
      if k: nat :| Agree(a[1..], b[1..], k) && (k == |a[1..]| || a[1..][k] < b[1..][k]) {
        SharedLonger(a, b, k);
        assert Agree(a, b, k + 1);
      }
      if k: nat :| Agree(a, b, k) && (k == |a| || a[k] < b[k]) {
        assert k > 0;
        SharedShorter(a, b, k);
        assert Agree(a[1..], b[1..], k - 1);
      }
    } else if b != "" {
      assert Agree(a, b, 0);
    }
  }

  /** The first `k` characters agree, and `b` goes on; so does `a`, unless it ends there. */
  ghost predicate Agree(a: string, b: string, k: nat) {
    k <= |a| && k < |b| && a[..k] == b[..k]
  }

  lemma SharedLonger(a: string, b: string, k: nat)
    requires a != "" && b != "" && a[0] == b[0] && Agree(a[1..], b[1..], k)
    ensures a[..k + 1] == b[..k + 1]
  {
    assert a[..k + 1] == [a[0]] + a[1..][..k];
    assert b[..k + 1] == [b[0]] + b[1..][..k];
  }

  lemma SharedShorter(a: string, b: string, k: nat)
    requires k > 0 && a != "" && b != "" && Agree(a, b, k)
    ensures a[1..][..k - 1] == b[1..][..k - 1]
  {
    assert a[1..][..k - 1] == a[..k][1..];
    assert b[1..][..k - 1] == b[..k][1..];
  }

  lemma LessIsOrder()
    ensures StrictOrder(Less)
  {
    forall a, b
      ensures a == b || Less(a, b) || Less(b, a)
      ensures !(Less(a, b) && Less(b, a))
    {
      LessTotal(a, b);
    }
    forall a, b, c | Less(a, b) && Less(b, c)
      ensures Less(a, c)
    {
      LessTransitive(a, b, c);
    }
  }

  /** `q` lists the members of `s`, each once, in path order. */
  ghost predicate IsSortedListOf(q: seq<string>, s: set<string>) {
    Lists(Less, q, s)
  }
}
