/** The flat edge arrays of crates/codegraph/src/lib.rs. */
module CsrGraph {

  /** Index-aligned edge arrays.  `weight` may be shorter; a missing weight counts as 1. */
  datatype Csr = Csr(from: seq<nat>, to: seq<nat>, weight: seq<real>) {

    /** Every loop over the edges runs over `from` and indexes `to`, so `to` must not be shorter. */
    predicate Valid() {
      |from| <= |to|
    }

    ghost function Edges(): set<(nat, nat)>
      requires Valid()
    {
      set i | 0 <= i < |from| :: (from[i], to[i])
    }

    /** The first `k` edges. */
    ghost function Prefix(k: nat): set<(nat, nat)>
      requires Valid() && k <= |from|
    {
      set i | 0 <= i < k :: (from[i], to[i])
    }

    lemma PrefixGrows(k: nat)
      requires Valid() && k < |from|
      ensures Prefix(k + 1) == Prefix(k) + {(from[k], to[k])}
    {
      assert (from[k], to[k]) in Prefix(k + 1);
    }

    /** The edges whose two ends are below `n`. */
    ghost function Inner(n: nat): set<(nat, nat)>
      requires Valid()
    {
      set e | e in Edges() && e.0 < n && e.1 < n
    }
  }
}
