/**
 Blocks of 2^k page frames: alignment, buddies, and the ownership map that says of each
 frame which block it belongs to.
 */
module BuddyBlocks {
  import opened Common

  /** The low k bits of pfn are zero: (pfn & ((1 << k) - 1)) == 0. */
  predicate Aligned(pfn: nat, k: nat) {
    k == 0 || (pfn % 2 == 0 && Aligned(pfn / 2, k - 1))
  }

  /** pfn with bit k flipped: pfn ^ (1 << k). */
  function FlipBit(pfn: nat, k: nat): nat {
    if k == 0 then (if pfn % 2 == 0 then pfn + 1 else pfn - 1)
    else pfn % 2 + 2 * FlipBit(pfn / 2, k - 1)
  }

  /** An aligned block of order k + 1 splits into two aligned buddies of order k. */
  lemma {:induction false} Halves(pfn: nat, k: nat)
    requires Aligned(pfn, k + 1)
    ensures Aligned(pfn, k) && Aligned(pfn + Pow2(k), k) && !Aligned(pfn + Pow2(k), k + 1)
    ensures FlipBit(pfn, k) == pfn + Pow2(k) && FlipBit(pfn + Pow2(k), k) == pfn
  {
    if k > 0 {
      Halves(pfn / 2, k - 1);
      assert (pfn + Pow2(k)) / 2 == pfn / 2 + Pow2(k - 1);
    }
  }

  /** A block that cannot grow upwards is the upper half of an aligned block. */
  lemma {:induction false} UpperHalf(pfn: nat, k: nat)
    requires Aligned(pfn, k) && !Aligned(pfn, k + 1)
    ensures pfn >= Pow2(k) && Aligned(pfn - Pow2(k), k + 1)
  {
    if k == 0 {
      assert Aligned((pfn - 1) / 2, 0);
    } else {
      UpperHalf(pfn / 2, k - 1);
      assert (pfn - Pow2(k)) / 2 == pfn / 2 - Pow2(k - 1);
    }
  }

  /** The buddy of an aligned block, and the block they form together. */
  lemma {:induction false} Buddy(pfn: nat, k: nat)
    requires Aligned(pfn, k)
    ensures var b := FlipBit(pfn, k);
            && Aligned(b, k) && FlipBit(b, k) == pfn
            && if Aligned(pfn, k + 1) then b == pfn + Pow2(k)
               else pfn >= Pow2(k) && b == pfn - Pow2(k) && Aligned(b, k + 1)
  {
    if Aligned(pfn, k + 1) {
      Halves(pfn, k);
    } else {
      UpperHalf(pfn, k);
      Halves(pfn - Pow2(k), k);
    }
  }

  /** Aligned frames are the multiples of the size. */
  lemma {:induction false} AlignedMultiple(pfn: nat, k: nat)
    ensures Aligned(pfn, k) <==> pfn % Pow2(k) == 0
  {
    if k > 0 {
      AlignedMultiple(pfn / 2, k - 1);
      ModuloSplit(pfn, 2, Pow2(k - 1));
    }
  }

  ghost predicate Within(h: nat, k: nat, end: nat) {
    Aligned(h, k) && h < end ==> h + Pow2(k) <= end
  }

  /** All aligned blocks that begin below the end lie below it exactly if the end is aligned. */
  lemma {:induction false} BlocksBelow(end: nat, k: nat)
    ensures Aligned(end, k) <==> forall h: nat :: Within(h, k, end)
  {
    if Aligned(end, k) {
      forall h: nat
        ensures Within(h, k, end)
      {
        if Aligned(h, k) && h < end {
          BlockBelow(end, h, k);
        }
      }
    } else {
      var h := BlockAround(end, k);
      assert !Within(h, k, end);
    }
  }

  lemma {:induction false} BlockBelow(end: nat, h: nat, k: nat)
    requires Aligned(end, k) && Aligned(h, k) && h < end
    ensures h + Pow2(k) <= end
  {
    if k > 0 {
      BlockBelow(end / 2, h / 2, k - 1);
    }
  }

  lemma {:induction false} BlockAround(f: nat, k: nat) returns (h: nat)
    ensures Aligned(h, k) && h <= f < h + Pow2(k)
  {
    if k == 0 {
      h := f;
    } else {
      var half := BlockAround(f / 2, k - 1);
      h := 2 * half;
      assert h / 2 == half && f == 2 * (f / 2) + f % 2;
    }
  }

  predicate InBlock(f: nat, pfn: nat, k: nat) {
    pfn <= f < pfn + Pow2(k)
  }

  /** Two aligned blocks that share a frame are nested. */
  lemma {:induction false} Nested(g: nat, j: nat, h: nat, k: nat, f: nat)
    requires j <= k && Aligned(g, j) && Aligned(h, k) && InBlock(f, g, j) && InBlock(f, h, k)
    ensures h <= g && g + Pow2(j) <= h + Pow2(k)
  {
    if j > 0 {
      Nested(g / 2, j - 1, h / 2, k - 1, f / 2);
    }
  }
}
