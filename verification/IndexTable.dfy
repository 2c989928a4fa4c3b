/** `getLog2` and `createIndexTable`: who exchanges with whom in the bit-exchange all-to-all. */
module IndexTable {
  import opened Arith
  import opened Bits

  /** The largest power of two that is not above the communicator size, and what is left over. */
  method GetLog2(commSize: nat) returns (log2: nat, power2: nat, leftover: nat)
    requires commSize >= 1
    ensures power2 == Pow2(log2) <= commSize < 2 * power2 && leftover == commSize - power2
  {
    var i := 1;
    log2, leftover, power2 := 0, 0, 1;
    while i < commSize
      invariant i == Pow2(log2) && (log2 > 0 ==> Pow2(log2 - 1) < commSize)
      decreases commSize - i
    {
      i := i * 2;
      log2 := log2 + 1;
    }
    for j := 0 to log2
      invariant power2 == Pow2(j)
    {
      power2 := power2 * 2;
    }
    if power2 != commSize {
      log2 := log2 - 1;
      power2 := power2 / 2;
      leftover := commSize - power2;
    }
  }

  lemma {:induction false} LowNext(x: nat, k: nat)
    ensures Low(x + 1, k) == if Low(x, k) + 1 == Pow2(k) then 0 else Low(x, k) + 1
    decreases k
  {
    if k > 0 {
      if x % 2 == 0 {
        assert (x + 1) / 2 == x / 2;
      } else {
        assert (x + 1) / 2 == x / 2 + 1;
        LowNext(x / 2, k - 1);
      }
    }
  }

  lemma {:induction false} LowOfPower(m: nat, k: nat)
    requires k <= m
    ensures Low(Pow2(m), k) == 0
    decreases k
  {
    if k > 0 {
      assert Pow2(m) / 2 == Pow2(m - 1) && Pow2(m) % 2 == 0;
      LowOfPower(m - 1, k - 1);
    }
  }

  lemma {:induction false} LowBit(x: nat, k: nat)
    ensures Low(x, k) < Pow2(k) && Pow2(k + 1) == 2 * Pow2(k)
    ensures Low(x, k + 1) < Pow2(k) <==> !Bit(x, k)
    ensures Low(x, k + 1) < Pow2(k + 1)
    ensures Low(x, k) <= x
  {
    Split(x, k);
    Split(x, k + 1);
    LowStep(x, k);
    LowAtMost(x, k);
  }

  lemma {:induction false} LowAtMost(x: nat, k: nat)
    ensures Low(x, k) <= x
    decreases k
  {
    if k > 0 {
      LowAtMost(x / 2, k - 1);
    }
  }

  /** `self % (count * 2) < count` asks for the bit. */
  lemma {:induction false} ModuloBit(x: nat, k: nat)
    ensures x % (Pow2(k) * 2) == Low(x, k + 1)
    ensures x % (Pow2(k) * 2) < Pow2(k) <==> !Bit(x, k)
  {
    Split(x, k + 1);
    LowBit(x, k);
    DivisionIs(x, Pow2(k) * 2, High(x, k + 1), Low(x, k + 1));
  }

  /** One turn of the inner loop: the running counters give the partner. */
  lemma {:induction false} CounterStep(j: nat, i: nat, k: nat, dest2: int)
    requires k == Low(j, i + 1) + 1
    requires k == 2 * Pow2(i) ==> dest2 == j - Pow2(i)
    ensures 1 <= k <= 2 * Pow2(i)
    ensures Flip(j, i) == if k <= Pow2(i) then j + Pow2(i) else j - Pow2(i)
    ensures var k', d' := if k < 2 * Pow2(i) then k + 1 else 1,
                          if k >= 2 * Pow2(i) then dest2
                          else if k <= Pow2(i) then j + (Pow2(i) - 1) else j - Pow2(i) + 1;
      k' == Low(j + 1, i + 1) + 1 && (k' == 2 * Pow2(i) ==> d' == j + 1 - Pow2(i))
  {
    LowBit(j, i);
    FlipValue(j, i);
    LowNext(j, i + 1);
  }

  /** `dest[j][i] == j ^ 2^i` and `elements[j][i] == 2^i`. */
  method CreateIndexTable(commSize: nat, log2: nat) returns (dest: array2<nat>, elements: array2<nat>)
    requires commSize == Pow2(log2)
    ensures dest.Length0 == elements.Length0 == commSize && dest.Length1 == elements.Length1 == log2
    ensures forall j, i :: 0 <= j < commSize && 0 <= i < log2 ==>
      dest[j, i] == Xor(j, Pow2(i)) && elements[j, i] == Pow2(i)
  {
    hide Low, Flip, Pow2, Xor;
    dest := new nat[commSize, log2];
    elements := new nat[commSize, log2];
    var k, dest2, group := 1, 0, 1;
    PowerUp(0);
    for i := 0 to log2
      invariant k == 1 && group == Pow2(i)
      invariant forall j, c :: 0 <= j < commSize && 0 <= c < i ==>
        dest[j, c] == Xor(j, Pow2(c)) && elements[j, c] == Pow2(c)
    {
      LowStart(i + 1);
      for j := 0 to commSize
        invariant k == Low(j, i + 1) + 1 && (k == 2 * group ==> dest2 == j - group)
        invariant forall q, c :: 0 <= q < commSize && 0 <= c < i ==>
          dest[q, c] == Xor(q, Pow2(c)) && elements[q, c] == Pow2(c)
        invariant forall q :: 0 <= q < j ==> dest[q, i] == Xor(q, Pow2(i)) && elements[q, i] == Pow2(i)
      {
        CounterStep(j, i, k, dest2);
        XorPow2IsFlip(j, i);
        if k < group * 2 {
          if k <= group {
            dest[j, i] := j + group;
            elements[j, i] := group;
            dest2 := j + (group - 1);
          } else {
            dest2 := j - group;
            dest[j, i] := dest2;
            elements[j, i] := group;
            dest2 := dest2 + 1;
          }
          k := k + 1;
        } else {
          dest[j, i] := dest2;
          elements[j, i] := group;
          k := 1;
        }
      }
      LowOfPower(log2, i + 1);
      PowerUp(i);
      group := group * 2;
    }
  }

  lemma {:induction false} PowerUp(i: nat)
    ensures Pow2(0) == 1 && Pow2(i + 1) == 2 * Pow2(i)
  {
  }

  /** The counters start a column at its first pair. */
  lemma {:induction false} LowStart(k: nat)
    requires k > 0
    ensures Low(0, k) == 0 && Pow2(k) >= 2 && Pow2(k) == 2 * Pow2(k - 1) && 2 * Pow2(k - 1) != 1
  {
    if k > 1 {
      LowStart(k - 1);
    }
  }
}
