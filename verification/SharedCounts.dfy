/** `shared_counts`: for every entry, how many entries of other groups share more than 30% of its
    tokens, by bitsets or by postings. */
module SharedCounts {
  import opened Bits
  import opened Sets
  import opened Reals

  const MAX_USIZE: nat := 0xffff_ffff_ffff_ffff

  // ---- the brute-force count ----

  ghost function SetOf(q: seq<nat>): set<nat> {
    set t | t in q
  }

  /** `shared / size > 0.3`. */
  predicate Exceeds(shared: nat, size: nat): (r: bool)
    ensures size > 0 ==> (r <==> shared as real / size as real > 0.3)
  {
    QuotientAbove(shared, size);
    10 * shared > 3 * size
  }

  lemma QuotientAbove(shared: nat, size: nat)
    ensures size > 0 ==> (10 * shared > 3 * size <==> shared as real / size as real > 0.3)
  {
    if size > 0 {
      var q := shared as real / size as real;
      assert q * size as real == shared as real;
      SignOfProduct(q - 0.3, size as real);
      assert (q - 0.3) * size as real == shared as real - 0.3 * size as real;
    }
  }

  /** Entry `j` counts for entry `i`. */
  ghost predicate CountsFor(tokens: seq<seq<nat>>, group: seq<nat>, i: nat, j: nat)
    requires i < |tokens| == |group| && j < |tokens|
  {
    group[j] != group[i] && Exceeds(|SetOf(tokens[i]) * SetOf(tokens[j])|, |tokens[i]|)
  }

  ghost function BruteForce(tokens: seq<seq<nat>>, group: seq<nat>, i: nat, k: nat): nat
    requires i < |tokens| == |group| && k <= |tokens|
  {
    if k == 0 then 0 else BruteForce(tokens, group, i, k - 1) + if CountsFor(tokens, group, i, k - 1) then 1 else 0
  }

  /** An entry without tokens shares nothing. */
  lemma {:induction false} EmptyEntry(tokens: seq<seq<nat>>, group: seq<nat>, i: nat, k: nat)
    requires i < |tokens| == |group| && k <= |tokens| && tokens[i] == []
    ensures BruteForce(tokens, group, i, k) == 0
  {
    if k > 0 {
      EmptyEntry(tokens, group, i, k - 1);
      assert SetOf(tokens[i]) * SetOf(tokens[k - 1]) == {};
    }
  }

  ghost predicate IsAnswer(tokens: seq<seq<nat>>, group: seq<nat>, out: seq<nat>) {
    && |out| == |tokens|
    && forall i :: 0 <= i < |tokens| ==>
         out[i] == if |group| == |tokens| then BruteForce(tokens, group, i, |tokens|) else 0
  }

  // ---- postings ----

  /** The entries among the first `n` that have the token, in order. */
  ghost function EntriesWith(tokens: seq<seq<nat>>, t: nat, n: nat): (r: seq<nat>)
    requires n <= |tokens|
    ensures forall i :: 0 <= i < |r| ==> r[i] < n
  {
    if n == 0 then [] else With(EntriesWith(tokens, t, n - 1), t in tokens[n - 1], n - 1)
  }

  function With(entries: seq<nat>, present: bool, i: nat): seq<nat> {
    if present then entries + [i] else entries
  }

  ghost function FirstTokens(list: seq<nat>, k: nat): (r: set<nat>)
    requires k <= |list|
    ensures forall t: nat :: t in r <==> exists m :: 0 <= m < k && list[m] == t
  {
    if k == 0 then {} else FirstTokens(list, k - 1) + {list[k - 1]}
  }

  function Get(postings: map<nat, seq<nat>>, t: nat): seq<nat> {
    if t in postings then postings[t] else []
  }

  ghost predicate IsPostings(tokens: seq<seq<nat>>, postings: map<nat, seq<nat>>) {
    forall t: nat :: Get(postings, t) == EntriesWith(tokens, t, |tokens|)
  }

  /** The postings of the entries before `i`, and of entry `i` as far as its first `k` tokens. */
  ghost predicate PostingsUpTo(tokens: seq<seq<nat>>, i: nat, k: nat, postings: map<nat, seq<nat>>)
    requires i < |tokens| && k <= |tokens[i]|
  {
    forall t: nat :: Get(postings, t) == With(EntriesWith(tokens, t, i), t in FirstTokens(tokens[i], k), i)
  }

  lemma PostingsStep(tokens: seq<seq<nat>>, i: nat, k: nat, postings: map<nat, seq<nat>>, postings': map<nat, seq<nat>>)
    requires i < |tokens| && k < |tokens[i]| && Distinct(tokens[i]) && PostingsUpTo(tokens, i, k, postings)
    requires postings' == postings[tokens[i][k] := Get(postings, tokens[i][k]) + [i]]
    ensures PostingsUpTo(tokens, i, k + 1, postings')
  {
    assert tokens[i][k] !in FirstTokens(tokens[i], k);
  }

  /** One entry's tokens, each of them new to the entry, are added to the postings. */
  method AddEntry(tokens: seq<seq<nat>>, i: nat, maxId: nat, postings: map<nat, seq<nat>>)
    returns (maxId': nat, postings': map<nat, seq<nat>>)
    requires i < |tokens| && Distinct(tokens[i])
    requires forall t: nat :: Get(postings, t) == EntriesWith(tokens, t, i)
    ensures forall t: nat :: Get(postings', t) == EntriesWith(tokens, t, i + 1)
    ensures maxId <= maxId' && forall t :: t in tokens[i] ==> t <= maxId'
  {
    maxId', postings' := maxId, postings;
    for k := 0 to |tokens[i]|
      invariant maxId <= maxId' && forall m :: 0 <= m < k ==> tokens[i][m] <= maxId'
      invariant PostingsUpTo(tokens, i, k, postings')
    {
      var t := tokens[i][k];
      if t > maxId' {
        maxId' := t;
      }
      PostingsStep(tokens, i, k, postings', postings'[t := Get(postings', t) + [i]]);
      postings' := postings'[t := Get(postings', t) + [i]];
    }
  }

  method Postings(tokens: seq<seq<nat>>) returns (maxId: nat, postings: map<nat, seq<nat>>)
    requires forall i :: 0 <= i < |tokens| ==> Distinct(tokens[i])
    ensures IsPostings(tokens, postings)
    ensures forall i, t :: 0 <= i < |tokens| && t in tokens[i] ==> t <= maxId
  {
    maxId, postings := 0, map[];
    for i := 0 to |tokens|
      invariant forall t: nat :: Get(postings, t) == EntriesWith(tokens, t, i)
      invariant forall j, t :: 0 <= j < i && t in tokens[j] ==> t <= maxId
    {
      maxId, postings := AddEntry(tokens, i, maxId, postings);
    }
  }

  /** The sum of the squared posting lengths. */
  method InvertedCost(postings: map<nat, seq<nat>>) returns (cost: nat) {
    cost := 0;
    var rest := postings.Keys;
    while rest != {} {
      var t :| t in rest;
      rest := rest - {t};
      cost := cost + |postings[t]| * |postings[t]|;
    }
  }

  function SaturatingMul(a: nat, b: nat): nat {
    if a * b <= MAX_USIZE then a * b else MAX_USIZE
  }

  // ---- the bitset branch ----

  /** The bitset holds exactly the tokens of the list. */
  ghost predicate IsBitset(b: seq<bv32>, list: seq<nat>) {
    forall t: nat :: Holds(b, t) <==> t in list
  }

  method Bitset(list: seq<nat>, words: nat) returns (b: seq<bv32>)
    requires forall t :: t in list ==> t < 32 * words
    ensures |b| == words && IsBitset(b, list)
  {
    var a := new bv32[words](i => 0);
    forall t: nat
      ensures !Holds(a[..], t)
    {
      BitOfZero(t % 32);
    }
    for k := 0 to |list|
      invariant forall t: nat :: Holds(a[..], t) <==> t in list[..k]
    {
      var t := list[k];
      assert t in list;
      ghost var before := a[..];
      a[t / 32] := Or(a[t / 32], One(t % 32));
      SetHolds(before, a[..], t);
      assert list[..k + 1] == list[..k] + [t];
    }
    assert list[..|list|] == list;
    b := a[..];
  }

  lemma SetHolds(before: seq<bv32>, after: seq<bv32>, t: nat)
    requires t / 32 < |before| && after == before[t / 32 := Or(before[t / 32], One(t % 32))]
    ensures forall s: nat :: Holds(after, s) <==> Holds(before, s) || s == t
  {
    forall s: nat
      ensures Holds(after, s) <==> Holds(before, s) || s == t
    {
      if s / 32 == t / 32 {
        BitOfSet(before[t / 32], t % 32, s % 32);
      }
    }
  }

  /** The number of ones that two bitsets have in common. */
  method CommonOnes(x: seq<bv32>, y: seq<bv32>) returns (shared: nat)
    requires |x| == |y|
    ensures shared == CountAll(AndAll(x, y))
  {
    shared := 0;
    for w := 0 to |x|
      invariant shared == CountAll(AndAll(x, y)[..w])
    {
      assert AndAll(x, y)[..w + 1][..w] == AndAll(x, y)[..w];
      shared := shared + Ones(And(x[w], y[w]), 32);
    }
    assert AndAll(x, y)[..|x|] == AndAll(x, y);
  }

  ghost function AndAll(x: seq<bv32>, y: seq<bv32>): (r: seq<bv32>)
    requires |x| == |y|
    ensures |r| == |x|
  {
    seq(|x|, i requires 0 <= i < |x| => And(x[i], y[i]))
  }

  /** Counting the common ones counts the common tokens. */
  lemma CommonOnesAreShared(x: seq<bv32>, y: seq<bv32>, a: seq<nat>, b: seq<nat>)
    requires |x| == |y| && IsBitset(x, a) && IsBitset(y, b)
    ensures CountAll(AndAll(x, y)) == |SetOf(a) * SetOf(b)|
  {
    var z := AndAll(x, y);
    forall t: nat
      ensures t in Members(z) <==> t in SetOf(a) * SetOf(b)
    {
      if t / 32 < |z| {
        BitOfAnd(x[t / 32], y[t / 32], t % 32);
      }
    }
    assert Members(z) == SetOf(a) * SetOf(b);
  }

  method BitsetBranch(tokens: seq<seq<nat>>, group: seq<nat>, words: nat) returns (out: seq<nat>)
    requires |group| == |tokens|
    requires forall i, t :: 0 <= i < |tokens| && t in tokens[i] ==> t < 32 * words
    ensures IsAnswer(tokens, group, out)
  {
    var n := |tokens|;
    var bits: seq<seq<bv32>> := [];
    for i := 0 to n
      invariant |bits| == i && forall j :: 0 <= j < i ==> |bits[j]| == words && IsBitset(bits[j], tokens[j])
    {
      var b := Bitset(tokens[i], words);
      bits := bits + [b];
    }
    out := [];
    for i := 0 to n
      invariant |out| == i && forall j :: 0 <= j < i ==> out[j] == BruteForce(tokens, group, j, n)
    {
      var count := 0;
      if tokens[i] == [] {
        EmptyEntry(tokens, group, i, n);
      } else {
        for j := 0 to n
          invariant count == BruteForce(tokens, group, i, j)
        {
          if group[j] != group[i] {
            var shared := CommonOnes(bits[i], bits[j]);
            CommonOnesAreShared(bits[i], bits[j], tokens[i], tokens[j]);
            if Exceeds(shared, |tokens[i]|) {
              count := count + 1;
            }
          }
        }
      }
      out := out + [count];
    }
  }

  // ---- the postings branch ----

  /** How many of the first `k` tokens of `a` are in `b`. */
  ghost function Common(a: seq<nat>, b: seq<nat>, k: nat): nat
    requires k <= |a|
  {
    if k == 0 then 0 else Common(a, b, k - 1) + if a[k - 1] in b then 1 else 0
  }

  lemma MeetNext(s: set<nat>, t: set<nat>, x: nat)
    requires x !in s
    ensures |(s + {x}) * t| == |s * t| + if x in t then 1 else 0
  {
    if x in t {
      assert (s + {x}) * t == s * t + {x};
    } else {
      assert (s + {x}) * t == s * t;
    }
  }

  lemma NewToken(a: seq<nat>, k: nat)
    requires k < |a| && Distinct(a)
    ensures a[k] !in FirstTokens(a, k) && FirstTokens(a, k + 1) == FirstTokens(a, k) + {a[k]}
  {
  }

  lemma {:induction false} CommonUpTo(a: seq<nat>, b: seq<nat>, members: set<nat>, k: nat)
    requires k <= |a| && Distinct(a) && forall x :: x in members <==> x in b
    ensures Common(a, b, k) == |FirstTokens(a, k) * members|
  {
    if k == 0 {
      assert FirstTokens(a, 0) * members == {};
    } else {
      var first, x := FirstTokens(a, k - 1), a[k - 1];
      CommonUpTo(a, b, members, k - 1);
      NewToken(a, k - 1);
      MeetNext(first, members, x);
      assert FirstTokens(a, k) * members == (first + {x}) * members;
    }
  }

  /** Counting an entry's tokens that another has counts what they share. */
  lemma CommonIsShared(a: seq<nat>, b: seq<nat>)
    requires Distinct(a)
    ensures Common(a, b, |a|) == |SetOf(a) * SetOf(b)|
  {
    CommonUpTo(a, b, SetOf(b), |a|);
    assert FirstTokens(a, |a|) == SetOf(a);
  }

  /** An entry is among those with a token once if it has the token, and not at all otherwise. */
  lemma {:induction false} EntriesOnce(tokens: seq<seq<nat>>, t: nat, n: nat)
    requires n <= |tokens|
    ensures Distinct(EntriesWith(tokens, t, n))
    ensures forall j: nat :: j in EntriesWith(tokens, t, n) <==> j < n && t in tokens[j]
  {
    if n > 0 {
      EntriesOnce(tokens, t, n - 1);
    }
  }

  /** Adds one for every entry of a posting list. */
  method Bump(counts: array<nat>, list: seq<nat>)
    requires Distinct(list) && forall i :: 0 <= i < |list| ==> list[i] < counts.Length
    modifies counts
    ensures forall j: nat :: j < counts.Length ==> counts[j] == old(counts[j]) + if j in list then 1 else 0
  {
    for k := 0 to |list|
      invariant forall j: nat :: j < counts.Length ==> counts[j] == old(counts[j]) + if j in list[..k] then 1 else 0
    {
      assert list[..k + 1] == list[..k] + [list[k]];
      counts[list[k]] := counts[list[k]] + 1;
    }
    assert list[..|list|] == list;
  }

  /** For every entry, how many of entry `i`'s tokens it has. */
  method CommonCounts(tokens: seq<seq<nat>>, i: nat, postings: map<nat, seq<nat>>) returns (counts: seq<nat>)
    requires i < |tokens| && IsPostings(tokens, postings)
    ensures |counts| == |tokens|
    ensures forall j :: 0 <= j < |tokens| ==> counts[j] == Common(tokens[i], tokens[j], |tokens[i]|)
  {
    var a := new nat[|tokens|](j => 0);
    for k := 0 to |tokens[i]|
      invariant forall j :: 0 <= j < |tokens| ==> a[j] == Common(tokens[i], tokens[j], k)
    {
      var t := tokens[i][k];
      assert Get(postings, t) == EntriesWith(tokens, t, |tokens|);
      EntriesOnce(tokens, t, |tokens|);
      if t in postings {
        Bump(a, postings[t]);
      }
    }
    counts := a[..];
  }

  method PostingsBranch(tokens: seq<seq<nat>>, group: seq<nat>, postings: map<nat, seq<nat>>) returns (out: seq<nat>)
    requires |group| == |tokens| && IsPostings(tokens, postings)
    requires forall i :: 0 <= i < |tokens| ==> Distinct(tokens[i])
    ensures IsAnswer(tokens, group, out)
  {
    var n := |tokens|;
    out := [];
    for i := 0 to n
      invariant |out| == i && forall j :: 0 <= j < i ==> out[j] == BruteForce(tokens, group, j, n)
    {
      var count := 0;
      if tokens[i] == [] {
        EmptyEntry(tokens, group, i, n);
      } else {
        var counts := CommonCounts(tokens, i, postings);
        for j := 0 to n
          invariant count == BruteForce(tokens, group, i, j)
        {
          CommonIsShared(tokens[i], tokens[j]);
          if group[j] != group[i] && Exceeds(counts[j], |tokens[i]|) {
            count := count + 1;
          }
        }
      }
      out := out + [count];
    }
  }

  // ---- the program ----

  /** Whichever branch the cost estimate picks, the result is the brute-force count. */
  method ComputeSharedCounts(tokens: seq<seq<nat>>, group: seq<nat>) returns (out: seq<nat>)
    requires forall i :: 0 <= i < |tokens| ==> Distinct(tokens[i])
    ensures IsAnswer(tokens, group, out)
  {
    var n := |tokens|;
    if |group| != n || n == 0 {
      return seq(n, i => 0);
    }
    var maxId, postings := Postings(tokens);
    var vocab := maxId + 1;
    var words := (vocab + 31) / 32;
    var invCost := InvertedCost(postings);
    var bitCost := SaturatingMul(SaturatingMul(n, n), words);
    if bitCost <= invCost {
      out := BitsetBranch(tokens, group, words);
    } else {
      out := PostingsBranch(tokens, group, postings);
    }
  }
}
