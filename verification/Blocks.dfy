/** Aligned power-of-two blocks of page frame numbers.

    A block of order k is a class of frame numbers that agree once their k low bits are
    shifted out, so nesting and disjointness of blocks need no division by a variable. */
module Blocks {

  function Pow2(k: nat): (p: nat)
    ensures p > 0
  {
    if k == 0 then 1 else 2 * Pow2(k - 1)
  }

  /** x >> k */
  function Shr(x: nat, k: nat): nat {
    if k == 0 then x else Shr(x / 2, k - 1)
  }

  /** The k low bits of x are zero. */
  predicate Aligned(x: nat, k: nat) {
    k == 0 || (x % 2 == 0 && Aligned(x / 2, k - 1))
  }

  /** x ^ (1 << k), bit by bit */
  function Flip(x: nat, k: nat): nat {
    if k == 0 then (if x % 2 == 0 then x + 1 else x - 1) else 2 * Flip(x / 2, k - 1) + x % 2
  }

  /** x with its k low bits cleared */
  function Base(x: nat, k: nat): nat {
    if k == 0 then x else 2 * Base(x / 2, k - 1)
  }

  predicate SameBlock(x: nat, y: nat, k: nat) {
    Shr(x, k) == Shr(y, k)
  }

  lemma {:induction false} ShrStep(x: nat, k: nat)
    ensures Shr(x, k + 1) == Shr(x, k) / 2
  {
    if k > 0 {
      ShrStep(x / 2, k - 1);
    }
  }

  /** A block lies within the blocks of higher order that it meets. */
  lemma {:induction false} Nested(x: nat, y: nat, k: nat, j: nat)
    requires k <= j && SameBlock(x, y, k)
    ensures SameBlock(x, y, j)
  {
    if k < j {
      Nested(x, y, k, j - 1);
      ShrStep(x, j - 1);
      ShrStep(y, j - 1);
    }
  }

  lemma {:induction false} AlignedLower(x: nat, k: nat, j: nat)
    requires j <= k && Aligned(x, k)
    ensures Aligned(x, j)
  {
    if j > 0 {
      AlignedLower(x / 2, k - 1, j - 1);
    }
  }

  /** A block has one aligned member only. */
  lemma {:induction false} OneHead(x: nat, y: nat, k: nat)
    requires Aligned(x, k) && Aligned(y, k) && SameBlock(x, y, k)
    ensures x == y
  {
    if k > 0 {
      OneHead(x / 2, y / 2, k - 1);
    }
  }

  /** The aligned member of a block is its first, and the block is the run of 2^k numbers from it. */
  lemma {:induction false} BlockIsRun(x: nat, y: nat, k: nat)
    requires Aligned(x, k)
    ensures SameBlock(x, y, k) <==> x <= y < x + Pow2(k)
  {
    if k > 0 {
      BlockIsRun(x / 2, y / 2, k - 1);
    }
  }

  lemma {:induction false} BaseIsHead(x: nat, k: nat)
    ensures Aligned(Base(x, k), k) && SameBlock(Base(x, k), x, k) && Base(x, k) <= x
  {
    if k > 0 {
      BaseIsHead(x / 2, k - 1);
    }
  }

  /** The two halves of a block of order k + 1. */
  lemma {:induction false} FlipHalves(x: nat, k: nat)
    ensures !SameBlock(x, Flip(x, k), k) && SameBlock(x, Flip(x, k), k + 1)
    ensures Flip(Flip(x, k), k) == x
    ensures Aligned(x, k) ==> Aligned(Flip(x, k), k)
  {
    if k > 0 {
      FlipHalves(x / 2, k - 1);
      assert Flip(x, k) / 2 == Flip(x / 2, k - 1);
    }
  }

  lemma {:induction false} FlipCovers(x: nat, y: nat, k: nat)
    requires SameBlock(x, y, k + 1)
    ensures SameBlock(x, y, k) || SameBlock(Flip(x, k), y, k)
  {
    if k > 0 {
      FlipCovers(x / 2, y / 2, k - 1);
      assert Flip(x, k) / 2 == Flip(x / 2, k - 1);
    } else {
      ShrStep(x, 0);
      ShrStep(y, 0);
    }
  }

  /** A block is its two halves. */
  lemma HalvesCover(x: nat, y: nat, k: nat)
    ensures SameBlock(x, y, k + 1) <==> SameBlock(x, y, k) || SameBlock(Flip(x, k), y, k)
  {
    FlipHalves(x, k);
    if SameBlock(x, y, k) {
      Nested(x, y, k, k + 1);
    }
    if SameBlock(Flip(x, k), y, k) {
      Nested(Flip(x, k), y, k, k + 1);
    }
    if SameBlock(x, y, k + 1) {
      FlipCovers(x, y, k);
    }
  }

  /** The lower of two buddies heads the block they form together. */
  lemma {:induction false} FlipAligned(x: nat, k: nat)
    requires Aligned(x, k)
    ensures Aligned(if x > Flip(x, k) then Flip(x, k) else x, k + 1)
  {
    if k > 0 {
      FlipAligned(x / 2, k - 1);
      assert Flip(x, k) / 2 == Flip(x / 2, k - 1);
    }
  }

  lemma {:induction false} FlipUp(x: nat, k: nat)
    requires Aligned(x, k + 1)
    ensures Flip(x, k) == x + Pow2(k)
  {
    if k > 0 {
      FlipUp(x / 2, k - 1);
    }
  }

  /** An upper half and the block it belongs to. */
  lemma UpperHalf(m: nat, k: nat)
    requires Aligned(m, k) && Flip(m, k) < m
    ensures Aligned(Flip(m, k), k + 1) && m == Flip(m, k) + Pow2(k) && SameBlock(Flip(m, k), m, k + 1)
  {
    FlipAligned(m, k);
    FlipHalves(m, k);
    FlipUp(Flip(m, k), k);
  }

  /** A larger block that contains one of two halves contains both. */
  lemma LargerBlock(x: nat, m: nat, k: nat, o: nat)
    requires Aligned(m, k) && Flip(m, k) < m && (x == m || x == Flip(m, k)) && k < o
    ensures Base(x, o) <= Flip(m, k) && m + Pow2(k) <= Base(x, o) + Pow2(o)
  {
    UpperHalf(m, k);
    var low := Flip(m, k);
    var h := Base(x, o);
    BaseIsHead(x, o);
    Nested(low, m, k + 1, o);
    BlockIsRun(low, m + Pow2(k) - 1, k + 1);
    Nested(low, m + Pow2(k) - 1, k + 1, o);
    BlockIsRun(h, low, o);
    BlockIsRun(h, m + Pow2(k) - 1, o);
  }

  /** Blocks of order at most 10 do not straddle the end of a memory of 1024 * m pages. */
  lemma {:induction false} WithinMemory(x: nat, y: nat, k: nat, n: nat)
    requires k <= 10 && n % 1024 == 0 && x < n && SameBlock(x, y, k)
    ensures y < n
  {
    Nested(x, y, k, 10);
    ShiftTen(x);
    ShiftTen(y);
  }

  /** A block with a page in memory is a run within memory. */
  lemma RunInMemory(x: nat, k: nat, n: nat)
    requires k <= 10 && n % 1024 == 0 && x < n && Aligned(x, k)
    ensures x + Pow2(k) <= n
    ensures forall y: nat :: SameBlock(x, y, k) <==> x <= y < x + Pow2(k)
  {
    forall y: nat
      ensures SameBlock(x, y, k) <==> x <= y < x + Pow2(k)
    {
      BlockIsRun(x, y, k);
    }
    WithinMemory(x, x + Pow2(k) - 1, k, n);
  }

  lemma ShiftTen(x: nat)
    ensures Shr(x, 10) == x / 1024
  {
    ShrStep(x, 0); ShrStep(x, 1); ShrStep(x, 2); ShrStep(x, 3); ShrStep(x, 4);
    ShrStep(x, 5); ShrStep(x, 6); ShrStep(x, 7); ShrStep(x, 8); ShrStep(x, 9);
    assert Shr(x, 0) == x;
  }
}
