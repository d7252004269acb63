/** Whole numbers of blocks. */
module Alignment {
  /** Sizes of blocks. */
  type pos = n: nat | 0 < n witness 1

  /** `n` is a multiple of `block`. */
  predicate Aligned(n: nat, block: pos) {
    n == 0 || (block <= n && Aligned(n - block, block))
  }

  lemma {:induction false} AlignedMultiple(k: nat, block: pos)
    ensures Aligned(k * block, block)
  {
    if k > 0 {
      AlignedMultiple(k - 1, block);
      assert k * block == (k - 1) * block + block;
    }
  }

  lemma {:induction false} AlignedCount(n: nat, block: pos) returns (k: nat)
    requires Aligned(n, block)
    ensures n == k * block
  {
    if n == 0 {
      k := 0;
    } else {
      k := AlignedCount(n - block, block);
      assert (k + 1) * block == k * block + block;
      k := k + 1;
    }
  }

  lemma AlignedIff(n: nat, block: pos)
    ensures Aligned(n, block) <==> exists k: nat :: n == k * block
  {
    if Aligned(n, block) {
      var k := AlignedCount(n, block);
    }
    if k: nat :| n == k * block {
      AlignedMultiple(k, block);
    }
  }

  lemma {:induction false} AlignedSum(m: nat, n: nat, block: pos)
    requires Aligned(m, block) && Aligned(n, block)
    ensures Aligned(m + n, block)
  {
    if m > 0 {
      AlignedSum(m - block, n, block);
    }
  }

  /** Two different multiples are at least a block apart. */
  lemma {:induction false} AlignedApart(m: nat, n: nat, block: pos)
    requires Aligned(m, block) && Aligned(n, block) && m < n
    ensures m + block <= n
  {
    if m > 0 {
      AlignedApart(m - block, n - block, block);
    }
  }
}
