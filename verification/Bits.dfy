/**
 Powers of two and the bit operations the hypercube algorithms use.  `Xor` is the
 meaning of the C operator `^` on non-negative integers; `Flip(x, k)` is `x ^ (1 << k)`.
 Everything is defined by halving, so that the proofs stay in linear arithmetic.
 */
module Bits {

  function Pow2(k: nat): (r: nat)
    ensures r >= 1
    ensures r > k
  {
    if k == 0 then 1 else 2 * Pow2(k - 1)
  }

  /** Bitwise exclusive or. */
  function Xor(x: nat, y: nat): nat
    decreases x + y
  {
    if x == 0 && y == 0 then 0 else (x % 2 + y % 2) % 2 + 2 * Xor(x / 2, y / 2)
  }

  /** Bit `k` of `x`. */
  predicate Bit(x: nat, k: nat)
    decreases k
  {
    if k == 0 then x % 2 == 1 else Bit(x / 2, k - 1)
  }

  /** `x` with bit `k` inverted. */
  function Flip(x: nat, k: nat): nat
    decreases k
  {
    if k == 0 then (if x % 2 == 0 then x + 1 else x - 1) else 2 * Flip(x / 2, k - 1) + x % 2
  }

  /** `x >> k`. */
  function High(x: nat, k: nat): nat
    decreases k
  {
    if k == 0 then x else High(x / 2, k - 1)
  }

  /** The `k` low bits of `x`. */
  function Low(x: nat, k: nat): nat
    decreases k
  {
    if k == 0 then 0 else x % 2 + 2 * Low(x / 2, k - 1)
  }

  lemma {:induction false} XorZero(x: nat)
    ensures Xor(x, 0) == x
  {
    if x > 0 {
      XorZero(x / 2);
    }
  }

  /** With an even number only the upper bits are combined. */
  lemma {:induction false} XorStep(x: nat, y: nat)
    requires y > 0
    ensures Xor(x, 2 * y) == x % 2 + 2 * Xor(x / 2, y)
  {
    assert (2 * y) / 2 == y && (2 * y) % 2 == 0;
  }

  lemma {:induction false} XorPow2IsFlip(x: nat, k: nat)
    ensures Xor(x, Pow2(k)) == Flip(x, k)
    decreases k
  {
    if k == 0 {
      XorZero(x / 2);
    } else {
      XorPow2IsFlip(x / 2, k - 1);
      XorStep(x, Pow2(k - 1));
    }
  }

  lemma {:induction false} FlipValue(x: nat, k: nat)
    ensures Bit(x, k) ==> x >= Pow2(k) && Flip(x, k) == x - Pow2(k)
    ensures !Bit(x, k) ==> Flip(x, k) == x + Pow2(k)
    decreases k
  {
    if k > 0 {
      FlipValue(x / 2, k - 1);
    }
  }

  lemma {:induction false} FlipBit(x: nat, k: nat, j: nat)
    ensures Bit(Flip(x, k), j) == if j == k then !Bit(x, k) else Bit(x, j)
    decreases k
  {
    if k > 0 {
      assert Flip(x, k) / 2 == Flip(x / 2, k - 1);
      if j > 0 {
        FlipBit(x / 2, k - 1, j - 1);
      }
    } else if j > 0 {
      assert Flip(x, 0) / 2 == x / 2;
    }
  }

  lemma {:induction false} FlipTwice(x: nat, k: nat)
    ensures Flip(Flip(x, k), k) == x
    decreases k
  {
    if k > 0 {
      assert Flip(x, k) / 2 == Flip(x / 2, k - 1);
      FlipTwice(x / 2, k - 1);
    }
  }

  lemma {:induction false} FlipHigh(x: nat, k: nat, j: nat)
    requires k < j
    ensures High(Flip(x, k), j) == High(x, j)
    decreases k
  {
    if k == 0 {
      assert Flip(x, 0) / 2 == x / 2;
    } else {
      assert Flip(x, k) / 2 == Flip(x / 2, k - 1);
      FlipHigh(x / 2, k - 1, j - 1);
    }
  }

  lemma {:induction false} FlipLow(x: nat, k: nat, j: nat)
    requires j <= k
    ensures Low(Flip(x, k), j) == Low(x, j)
    decreases j
  {
    if j > 0 {
      assert Flip(x, k) / 2 == Flip(x / 2, k - 1);
      FlipLow(x / 2, k - 1, j - 1);
    }
  }

  lemma {:induction false} FlipBound(x: nat, k: nat, m: nat)
    requires x < Pow2(m) && k < m
    ensures Flip(x, k) < Pow2(m)
    decreases k
  {
    if k > 0 {
      FlipBound(x / 2, k - 1, m - 1);
    }
  }

  lemma {:induction false} Pow2Monotone(a: nat, b: nat)
    requires a <= b
    ensures Pow2(a) <= Pow2(b)
    decreases b
  {
    if a < b {
      Pow2Monotone(a, b - 1);
    }
  }

  lemma {:induction false} Split(x: nat, k: nat)
    ensures x == High(x, k) * Pow2(k) + Low(x, k)
    ensures Low(x, k) < Pow2(k)
    decreases k
  {
    if k > 0 {
      Split(x / 2, k - 1);
      Doubled(High(x / 2, k - 1), Pow2(k - 1));
    }
  }

  lemma {:induction false} Doubled(a: nat, b: nat)
    ensures a * (2 * b) == 2 * (a * b)
  {
  }

  /** Below `2^k` there are no high bits. */
  lemma {:induction false} HighOfSmall(x: nat, k: nat)
    ensures High(x, k) == 0 <==> x < Pow2(k)
    decreases k
  {
    if k > 0 {
      HighOfSmall(x / 2, k - 1);
    }
  }

  /** Peeling off one more bit. */
  lemma {:induction false} HighStep(x: nat, k: nat)
    ensures High(x, k) == 2 * High(x, k + 1) + (if Bit(x, k) then 1 else 0)
    decreases k
  {
    if k > 0 {
      HighStep(x / 2, k - 1);
    }
  }

  lemma {:induction false} LowStep(x: nat, k: nat)
    ensures Low(x, k + 1) == Low(x, k) + (if Bit(x, k) then Pow2(k) else 0)
    decreases k
  {
    if k > 0 {
      LowStep(x / 2, k - 1);
    }
  }
}
