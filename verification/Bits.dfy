/** Bitsets of 32-bit words: which numbers a bitset holds, and how many.  The word operations have
    names, so that proofs by induction over bit positions use their laws only. */
module Bits {

  function Shr(w: bv32): bv32 {
    w >> 1
  }

  function Shl(w: bv32): bv32 {
    w << 1
  }

  function And(a: bv32, b: bv32): bv32 {
    a & b
  }

  function Or(a: bv32, b: bv32): bv32 {
    a | b
  }

  predicate Low(w: bv32) {
    w & 1 == 1
  }

  predicate Top(w: bv32) {
    w & 0x8000_0000 != 0
  }

  /** `1 << m`. */
  function One(m: nat): bv32 {
    if m == 0 then 1 else Shl(One(m - 1))
  }

  /** Bit `k` of a word: the lowest bit after shifting right `k` times. */
  predicate Bit(w: bv32, k: nat) {
    if k == 0 then Low(w) else Bit(Shr(w), k - 1)
  }

  /** The number of ones among the first `m` bits; `count_ones` is that of all 32. */
  function Ones(w: bv32, m: nat): nat {
    if m == 0 then 0 else Ones(w, m - 1) + if Bit(w, m - 1) then 1 else 0
  }

  // ---- laws of the word operations ----

  lemma AndLaws(a: bv32, b: bv32)
    ensures Shr(And(a, b)) == And(Shr(a), Shr(b))
    ensures Low(And(a, b)) <==> Low(a) && Low(b)
  {
  }

  lemma ShrOfOr(a: bv32, b: bv32)
    ensures Shr(Or(a, b)) == Or(Shr(a), Shr(b))
  {
  }

  lemma LowOfOr(a: bv32, b: bv32)
    ensures Low(Or(a, b)) <==> Low(a) || Low(b)
  {
  }

  lemma OrZero(a: bv32)
    ensures Or(a, 0) == a
  {
  }

  lemma ShlLaws(x: bv32)
    ensures !Low(Shl(x)) && (!Top(x) ==> Shr(Shl(x)) == x)
  {
  }

  lemma Constants()
    ensures Low(1) && Shr(1) == 0 && Shl(0) == 0 && !Low(0) && Shr(0) == 0
  {
  }

  // ---- single bits ----

  lemma {:induction false} BitOfAnd(a: bv32, b: bv32, k: nat)
    ensures Bit(And(a, b), k) <==> Bit(a, k) && Bit(b, k)
  {
    AndLaws(a, b);
    if k > 0 {
      BitOfAnd(Shr(a), Shr(b), k - 1);
    }
  }

  lemma {:induction false} BitOfZero(k: nat)
    ensures !Bit(0, k)
  {
    Constants();
    if k > 0 {
      BitOfZero(k - 1);
    }
  }

  /** A word with at most one bit. */
  predicate OneBit(x: bv32) {
    x & (x - 1) == 0
  }

  lemma OneBitLaws(x: bv32)
    requires OneBit(x)
    ensures OneBit(Shl(x)) && (Top(x) ==> Shl(x) == 0)
  {
  }

  lemma {:induction false} OneIsOneBit(m: nat)
    ensures OneBit(One(m))
  {
    if m > 0 {
      OneIsOneBit(m - 1);
      OneBitLaws(One(m - 1));
    }
  }

  lemma {:induction false} ZeroStays(m: nat)
    requires m <= 31 && One(m) == 0
    ensures One(31) == 0
    decreases 31 - m
  {
    Constants();
    if m < 31 {
      ZeroStays(m + 1);
    }
  }

  lemma LastOne()
    ensures One(31) == 0x8000_0000
  {
    assert One(2) == 0x4;
    assert One(4) == 0x10;
    assert One(6) == 0x40;
    assert One(8) == 0x100;
    assert One(10) == 0x400;
    assert One(12) == 0x1000;
    assert One(14) == 0x4000;
    assert One(16) == 0x1_0000;
    assert One(18) == 0x4_0000;
    assert One(20) == 0x10_0000;
    assert One(22) == 0x40_0000;
    assert One(24) == 0x100_0000;
    assert One(26) == 0x400_0000;
    assert One(28) == 0x1000_0000;
    assert One(30) == 0x4000_0000;
  }

  /** Shifting 1 loses nothing before the last place. */
  lemma TopClear(m: nat)
    requires m < 31
    ensures !Top(One(m))
  {
    OneIsOneBit(m);
    OneBitLaws(One(m));
    LastOne();
    if Top(One(m)) {
      ZeroStays(m + 1);
    }
  }

  /** Setting bit `m` sets that bit and no other. */
  lemma {:induction false} BitOfSet(w: bv32, m: nat, k: nat)
    requires m < 32 && k < 32
    ensures Bit(Or(w, One(m)), k) <==> Bit(w, k) || k == m
    decreases k
  {
    ShrOfOr(w, One(m));
    LowOfOr(w, One(m));
    Constants();
    if m == 0 {
      OrZero(Shr(w));
    } else {
      ShlLaws(One(m - 1));
      TopClear(m - 1);
      if k > 0 {
        BitOfSet(Shr(w), m - 1, k - 1);
      }
    }
  }

  // ---- bitsets ----

  /** The number `t` is in the bitset. */
  predicate Holds(b: seq<bv32>, t: nat) {
    t / 32 < |b| && Bit(b[t / 32], t % 32)
  }

  /** The number of bit `k` of word `n`. */
  function NumberOf(n: nat, k: nat): (t: nat)
    requires k < 32
    ensures t / 32 == n && t % 32 == k
  {
    32 * n + k
  }

  lemma NumberBack(t: nat)
    ensures NumberOf(t / 32, t % 32) == t
  {
  }

  /** The numbers in the first `m` bits of word `n`. */
  ghost function InWord(w: bv32, n: nat, m: nat): (s: set<nat>)
    requires m <= 32
    ensures forall t: nat :: t in s <==> t / 32 == n && t % 32 < m && Bit(w, t % 32)
    ensures |s| == Ones(w, m)
  {
    if m == 0 then {}
    else
      var before := InWord(w, n, m - 1);
      InWordStep(before, w, n, m);
      if Bit(w, m - 1) then before + {NumberOf(n, m - 1)} else before
  }

  lemma InWordStep(before: set<nat>, w: bv32, n: nat, m: nat)
    requires 0 < m <= 32
    requires forall t: nat :: t in before <==> t / 32 == n && t % 32 < m - 1 && Bit(w, t % 32)
    ensures NumberOf(n, m - 1) !in before
    ensures forall t: nat :: t / 32 == n && t % 32 < m && Bit(w, t % 32) <==>
              t in before || (Bit(w, m - 1) && t == NumberOf(n, m - 1))
  {
    forall t: nat | t / 32 == n && t % 32 == m - 1
      ensures t == NumberOf(n, m - 1)
    {
      NumberBack(t);
    }
  }

  ghost function Members(b: seq<bv32>): (s: set<nat>)
    ensures forall t: nat :: t in s <==> Holds(b, t)
    ensures |s| == CountAll(b)
  {
    if b == [] then {}
    else
      var n := |b| - 1;
      var before, here := Members(b[..n]), InWord(b[n], n, 32);
      MembersStep(b, before, here);
      before + here
  }

  /** The ones of all words. */
  function CountAll(b: seq<bv32>): nat {
    if b == [] then 0 else CountAll(b[..|b| - 1]) + Ones(b[|b| - 1], 32)
  }

  lemma MembersStep(b: seq<bv32>, before: set<nat>, here: set<nat>)
    requires b != []
    requires forall t: nat :: t in before <==> Holds(b[..|b| - 1], t)
    requires forall t: nat :: t in here <==> t / 32 == |b| - 1 && t % 32 < 32 && Bit(b[|b| - 1], t % 32)
    ensures forall t: nat :: t in before + here <==> Holds(b, t)
    ensures |before + here| == |before| + |here|
  {
    assert before !! here;
  }
}
