/** Powers of two, single bits and alignment of natural numbers, all by halving. */
module Bits {

  function Pow2(k: nat): (r: nat)
    ensures r >= 1
  {
    if k == 0 then 1 else 2 * Pow2(k - 1)
  }

  /** Bit `k` of `x`: the value of `x & (1 << k)` read as a truth value. */
  predicate Bit(x: nat, k: nat) {
    if k == 0 then x % 2 == 1 else Bit(x / 2, k - 1)
  }

  /** `x & y`. */
  function And(x: nat, y: nat): nat {
    if x == 0 || y == 0 then 0
    else 2 * And(x / 2, y / 2) + (if x % 2 == 1 && y % 2 == 1 then 1 else 0)
  }

  /** `x` with its low `k` bits cleared. */
  function RoundDown(x: nat, k: nat): (r: nat)
    ensures r <= x < r + Pow2(k)
  {
    if k == 0 then x else 2 * RoundDown(x / 2, k - 1)
  }

  predicate Aligned(x: nat, k: nat) {
    RoundDown(x, k) == x
  }

  lemma {:induction false} RoundDownAligned(x: nat, k: nat)
    ensures Aligned(RoundDown(x, k), k)
  {
    if k > 0 { RoundDownAligned(x / 2, k - 1); }
  }

  /** The aligned block of size 2^k around `x` is the only one. */
  lemma {:induction false} AlignedBlockUnique(b: nat, x: nat, k: nat)
    requires Aligned(b, k) && b <= x < b + Pow2(k)
    ensures RoundDown(x, k) == b
  {
    if k > 0 { AlignedBlockUnique(b / 2, x / 2, k - 1); }
  }

  lemma {:induction false} RoundDownNest(x: nat, j: nat, k: nat)
    requires j <= k
    ensures RoundDown(RoundDown(x, j), k) == RoundDown(x, k)
    ensures RoundDown(x, k) <= RoundDown(x, j)
    ensures RoundDown(x, j) + Pow2(j) <= RoundDown(x, k) + Pow2(k)
  {
    if j > 0 { RoundDownNest(x / 2, j - 1, k - 1); }
  }

  lemma {:induction false} AlignedWeaken(x: nat, j: nat, k: nat)
    requires j <= k && Aligned(x, k)
    ensures Aligned(x, j)
  {
    if j > 0 { AlignedWeaken(x / 2, j - 1, k - 1); }
  }

  lemma {:induction false} Pow2Mono(j: nat, k: nat)
    requires j <= k
    ensures Pow2(j) <= Pow2(k)
  {
    if j > 0 { Pow2Mono(j - 1, k - 1); }
  }

  /** The left half of an aligned block has bit `k` clear, the right half has it set. */
  lemma {:induction false} Halves(x: nat, k: nat)
    requires Aligned(x, k + 1)
    ensures Aligned(x, k) && !Bit(x, k)
    ensures Aligned(x + Pow2(k), k) && Bit(x + Pow2(k), k)
  {
    if k > 0 {
      Halves(x / 2, k - 1);
      assert (x + Pow2(k)) / 2 == x / 2 + Pow2(k - 1);
    }
  }

  /** Conversely, bit `k` tells which half of its parent block an aligned block is. */
  lemma {:induction false} WhichHalf(x: nat, k: nat)
    requires Aligned(x, k)
    ensures Bit(x, k) ==> x >= Pow2(k) && Aligned(x - Pow2(k), k + 1)
    ensures !Bit(x, k) ==> Aligned(x, k + 1)
  {
    if k > 0 {
      WhichHalf(x / 2, k - 1);
      if Bit(x, k) { assert (x - Pow2(k)) / 2 == x / 2 - Pow2(k - 1); }
    }
  }

  lemma {:induction false} BlockInside(x: nat, k: nat, limit: nat)
    requires x < Pow2(limit) && k <= limit
    ensures RoundDown(x, k) + Pow2(k) <= Pow2(limit)
  {
    if k > 0 { BlockInside(x / 2, k - 1, limit - 1); }
  }

  /** An aligned block, its buddy and the block of double size that they make up. */
  lemma Pair(x: nat, k: nat, limit: nat)
    requires Aligned(x, k) && k < limit && x < Pow2(limit)
    ensures Bit(x, k) ==> x >= Pow2(k)
    ensures var m := if Bit(x, k) then x - Pow2(k) else x;
            && Aligned(m, k + 1) && m + 2 * Pow2(k) <= Pow2(limit)
            && Aligned(m, k) && Aligned(m + Pow2(k), k) && Pow2(k + 1) == 2 * Pow2(k)
  {
    WhichHalf(x, k);
    var m := if Bit(x, k) then x - Pow2(k) else x;
    Halves(m, k);
    BlockInside(m, k + 1, limit);
  }

  /** The buddy of an aligned block lies outside every larger aligned block that the block lies outside. */
  lemma PairOutside(h: nat, x: nat, k: nat)
    requires Aligned(h, k + 1) && Aligned(x, k) && !(h <= x < h + 2 * Pow2(k))
    ensures Bit(x, k) ==> x >= Pow2(k)
    ensures var y := if Bit(x, k) then x - Pow2(k) else x + Pow2(k); !(h <= y < h + 2 * Pow2(k))
  {
    WhichHalf(x, k);
    Pow2Half(k + 1);
    var y := if Bit(x, k) then x - Pow2(k) else x + Pow2(k);
    var m := if y < x then y else x;
    hide Pow2, Bit, Aligned;
    if h <= y < h + 2 * Pow2(k) {
      AlignedBlockUnique(h, y, k + 1);
      AlignedBlockUnique(m, y, k + 1);
    }
  }

  /** Being buddies is mutual. */
  lemma PairMutual(h: nat, x: nat, k: nat)
    requires Aligned(h, k) && Aligned(x, k)
    requires var y := if Bit(x, k) then x - Pow2(k) else x + Pow2(k); h <= y < h + Pow2(k)
    ensures h == if Bit(x, k) then x - Pow2(k) else x + Pow2(k)
    ensures x == if Bit(h, k) then h - Pow2(k) else h + Pow2(k)
  {
    WhichHalf(x, k);
    var y: nat := if Bit(x, k) then x - Pow2(k) else x + Pow2(k);
    var m := if y < x then y else x;
    Halves(m, k);
    AlignedBlockUnique(h, y, k);
    assert Aligned(y, k);
    hide Pow2, Bit, Aligned;
    AlignedBlockUnique(y, y, k);
  }

  lemma {:induction false} BitShift(x: nat, k: nat, s: nat)
    ensures Bit(Pow2(s) * x, k + s) == Bit(x, k)
  {
    if s > 0 {
      assert Pow2(s) * x == 2 * (Pow2(s - 1) * x);
      BitShift(x, k, s - 1);
    }
  }

  lemma {:induction false} AndSelf(x: nat)
    ensures And(x, x) == x
  {
    if x > 0 { AndSelf(x / 2); }
  }

  lemma Pow2Half(k: nat)
    requires k > 0
    ensures Pow2(k) == 2 * Pow2(k - 1)
  {
  }

  /** `(x - 1) & x` is zero exactly for the powers of two. */
  lemma {:induction false} PowerOfTwoTest(x: nat, k: nat)
    requires Pow2(k) <= x < Pow2(k + 1)
    ensures And(x - 1, x) == 0 <==> x == Pow2(k)
  {
    if k > 0 {
      if x % 2 == 0 {
        assert (x - 1) / 2 == x / 2 - 1;
        PowerOfTwoTest(x / 2, k - 1);
      } else {
        assert (x - 1) / 2 == x / 2;
        AndSelf(x / 2);
      }
    } else {
      assert x == 1;
    }
  }

  /** `x >> k`. */
  function Shr(x: nat, k: nat): nat {
    if k == 0 then x else Shr(x / 2, k - 1)
  }

  lemma {:induction false} ShrStep(x: nat, k: nat)
    ensures Shr(x, k + 1) == Shr(x, k) / 2
  {
    if k > 0 { ShrStep(x / 2, k - 1); }
  }

  lemma {:induction false} ShrZero(x: nat, k: nat)
    ensures Shr(x, k) == 0 <==> x < Pow2(k)
  {
    if k > 0 { ShrZero(x / 2, k - 1); }
  }
}
