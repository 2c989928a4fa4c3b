/** Fan-in by doubling: blocks of ranks combined with the block above, mask after mask. */
module FanIn {
  import opened Bits
  import opened Folds

  function Upto(a: nat, b: nat): nat { if a < b then a else b }

  /** The contributions of ranks lo to hi-1, combined from the highest down. */
  ghost function Gathered<T>(op: (T, T) -> T, x: seq<T>, lo: nat, hi: nat): T
    requires lo < hi <= |x|
  {
    if hi == lo + 1 then x[lo] else op(x[hi - 1], Gathered(op, x, lo, hi - 1))
  }

  lemma {:induction false} GatheredJoin<T(!new)>(op: (T, T) -> T, x: seq<T>, lo: nat, mid: nat, hi: nat)
    requires Associative(op) && lo < mid < hi <= |x|
    ensures Gathered(op, x, lo, hi) == op(Gathered(op, x, mid, hi), Gathered(op, x, lo, mid))
    decreases hi
  {
    if hi > mid + 1 {
      GatheredJoin(op, x, lo, mid, hi - 1);
      assert Associates(op, x[hi - 1], Gathered(op, x, mid, hi - 1), Gathered(op, x, lo, mid));
    }
  }

  lemma {:induction false} GatheredIsFold<T(!new)>(op: (T, T) -> T, x: seq<T>, hi: nat)
    requires Associative(op) && 0 < hi <= |x|
    ensures Gathered(op, x, 0, hi) == Fold(op, Reverse(x[..hi]))
    decreases hi
  {
    if hi == 1 {
      assert Reverse(x[..1]) == [x[0]];
    } else {
      GatheredIsFold(op, x, hi - 1);
      assert x[..hi][..hi - 1] == x[..hi - 1];
      assert Reverse(x[..hi]) == [x[hi - 1]] + Reverse(x[..hi - 1]);
      FoldConcat(op, [x[hi - 1]], Reverse(x[..hi - 1]));
    }
  }

  /** Combining blocks of doubling width, each with the one above it. */
  ghost function Doubling<T>(op: (T, T) -> T, x: seq<T>, lo: nat, k: nat): T
    requires lo < |x|
    decreases k
  {
    if k == 0 then x[lo]
    else if lo + Pow2(k - 1) < |x| then op(Doubling(op, x, lo + Pow2(k - 1), k - 1), Doubling(op, x, lo, k - 1))
    else Doubling(op, x, lo, k - 1)
  }

  lemma {:induction false} DoublingGathers<T(!new)>(op: (T, T) -> T, x: seq<T>, lo: nat, k: nat)
    requires Associative(op) && lo < |x|
    ensures Doubling(op, x, lo, k) == Gathered(op, x, lo, Upto(lo + Pow2(k), |x|))
    decreases k
  {
    if k > 0 {
      DoublingGathers(op, x, lo, k - 1);
      var mid := lo + Pow2(k - 1);
      if mid < |x| {
        DoublingGathers(op, x, mid, k - 1);
        GatheredJoin(op, x, lo, mid, Upto(lo + Pow2(k), |x|));
      }
    }
  }

  /** With 2^k at least the number of ranks, the lowest block is everything, once each. */
  lemma {:induction false} DoublingIsFold<T(!new)>(op: (T, T) -> T, x: seq<T>, k: nat)
    requires Associative(op) && 0 < |x| <= Pow2(k)
    ensures Doubling(op, x, 0, k) == Fold(op, Reverse(x))
    ensures Commutative(op) ==> Doubling(op, x, 0, k) == Fold(op, x)
  {
    DoublingGathers(op, x, 0, k);
    GatheredIsFold(op, x, |x|);
    assert x[..|x|] == x;
    if Commutative(op) {
      ReverseMultiset(x);
      FoldPermutation(op, Reverse(x), x);
    }
  }

  lemma {:induction false} UpperHalf(self: nat, k: nat)
    requires Low(self, k + 1) == 0
    ensures Low(self, k) == 0 && !Bit(self, k) && Low(self + Pow2(k), k) == 0
  {
    LowStep(self, k);
    FlipValue(self, k);
    FlipLow(self, k, k);
  }

  lemma {:induction false} LowOfZero(k: nat)
    ensures Low(0, k) == 0 && !Bit(0, k)
  {
    if k > 0 {
      LowOfZero(k - 1);
    }
  }
}
