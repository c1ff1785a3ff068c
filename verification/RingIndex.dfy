/**
 Positions of an endless byte stream in a ring of `size` cells.
 */
module RingIndex {
  import opened WrapTime

  newtype byte = x: int | 0 <= x < 256

  /** The cell that holds stream position `x`. */
  function Pos(x: nat, size: nat): (p: nat)
    requires size > 0
    ensures p < size
  {
    x % size
  }

  /** Going `k` positions on from a cell, at most once around. */
  lemma PosStep(x: nat, k: nat, size: nat)
    requires size > 0 && k <= size
    ensures Pos(x + k, size) == if Pos(x, size) + k < size then Pos(x, size) + k else Pos(x, size) + k - size
  {
    var q, r := x / size, x % size;
    assert x + k == q * size + (r + k);
    if r + k < size {
      ModUnique(size, x + k, q, r + k);
    } else {
      assert x + k == (q + 1) * size + (r + k - size) by {
        assert (q + 1) * size == q * size + size;
      }
      ModUnique(size, x + k, q + 1, r + k - size);
    }
  }

  /** Going `k` positions back, less than once around. */
  lemma PosBack(x: nat, k: nat, size: nat)
    requires size > 0 && k < size && k <= x
    ensures Pos(x - k, size) == if Pos(x, size) >= k then Pos(x, size) - k else size + Pos(x, size) - k
  {
    PosStep(x - k, k, size);
  }

  lemma PosSmall(x: nat, size: nat)
    requires x < size
    ensures Pos(x, size) == x
  {
    ModUnique(size, x, 0, x);
  }
}
