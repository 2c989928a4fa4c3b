/**
 The exchange pattern on a number of hosts that need not be a power of two: the hosts past
 the largest power of two first hand over to a low host, the low hosts exchange across the
 dimensions of a hypercube, and the result goes back to the extra hosts.
 */
module Hypercube {
  import opened Bits
  import opened Layout
  import opened Network

  /** The dimension of the largest hypercube that fits into n hosts. */
  function Levels(n: nat): (m: nat)
    requires n >= 1
    ensures Pow2(m) <= n < 2 * Pow2(m)
  {
    if n == 1 then 0 else 1 + Levels(n / 2)
  }

  ghost function PeerOut(p: nat, r: nat, n: nat): Option<nat>
    requires p < n
  {
    var m := Levels(n);
    if r == 0 then (if Pow2(m) <= p then Some(p - Pow2(m)) else None)
    else if r <= m then (if p < Pow2(m) then Some(Flip(p, r - 1)) else None)
    else if r == m + 1 && p + Pow2(m) < n then Some(p + Pow2(m)) else None
  }

  ghost function PeerIn(p: nat, r: nat, n: nat): Option<nat>
    requires p < n
  {
    var m := Levels(n);
    if r == 0 then (if p + Pow2(m) < n then Some(p + Pow2(m)) else None)
    else if r <= m then (if p < Pow2(m) then Some(Flip(p, r - 1)) else None)
    else if r == m + 1 && Pow2(m) <= p then Some(p - Pow2(m)) else None
  }

  lemma {:induction false} PeersPair(p: nat, r: nat, n: nat)
    requires p < n
    ensures PeerOut(p, r, n).Some? ==>
      PeerOut(p, r, n).value < n && PeerIn(PeerOut(p, r, n).value, r, n) == Some(p)
    ensures PeerIn(p, r, n).Some? ==>
      PeerIn(p, r, n).value < n && PeerOut(PeerIn(p, r, n).value, r, n) == Some(p)
  {
    var m := Levels(n);
    if 1 <= r <= m && p < Pow2(m) {
      FlipBound(p, r - 1, m);
      FlipTwice(p, r - 1);
    }
  }

  /** The hosts whose contribution host h < 2^m has after l dimensions, in buffer order. */
  ghost function Order(h: nat, l: nat, n: nat): (order: seq<nat>)
    requires n >= 1
    decreases l
  {
    if l == 0 then (if h + Pow2(Levels(n)) < n then [h, h + Pow2(Levels(n))] else [h])
    else Order(h, l - 1, n) + Order(Flip(h, l - 1), l - 1, n)
  }

  /** The hypercube corner of a host: itself, or the low host it hands over to. */
  ghost function Corner(x: nat, n: nat): nat
    requires n >= 1
  {
    if x < Pow2(Levels(n)) then x else x - Pow2(Levels(n))
  }

  lemma {:induction false} OrderMembers(h: nat, l: nat, n: nat, x: nat)
    requires n >= 1 && h < Pow2(Levels(n)) && l <= Levels(n)
    ensures x in Order(h, l, n) <==> x < n && High(Corner(x, n), l) == High(h, l)
    decreases l
  {
    if l > 0 {
      FlipBound(h, l - 1, Levels(n));
      OrderMembers(h, l - 1, n, x);
      OrderMembers(Flip(h, l - 1), l - 1, n, x);
      HalvesOf(h, l - 1, Corner(x, n));
    }
  }

  /** A block of 2^(l+1) corners is two blocks of 2^l, told apart by bit l. */
  lemma {:induction false} HalvesOf(h: nat, l: nat, c: nat)
    ensures High(c, l + 1) == High(h, l + 1) <==> High(c, l) == High(h, l) || High(c, l) == High(Flip(h, l), l)
    ensures High(h, l) != High(Flip(h, l), l)
  {
    HighStep(h, l);
    HighStep(c, l);
    HighStep(Flip(h, l), l);
    FlipHigh(h, l, l + 1);
    FlipBit(h, l, l);
  }

  lemma {:induction false} OrderHasNoDuplicates(h: nat, l: nat, n: nat)
    requires n >= 1 && h < Pow2(Levels(n)) && l <= Levels(n)
    ensures NoDuplicates(Order(h, l, n))
    decreases l
  {
    if l > 0 {
      var g := Flip(h, l - 1);
      FlipBound(h, l - 1, Levels(n));
      OrderHasNoDuplicates(h, l - 1, n);
      OrderHasNoDuplicates(g, l - 1, n);
      var a, b := Order(h, l - 1, n), Order(g, l - 1, n);
      forall i, j | 0 <= i < |a| && 0 <= j < |b|
        ensures a[i] != b[j]
      {
        if a[i] == b[j] {
          assert a[i] in a && b[j] in b;
          OrderMembers(h, l - 1, n, a[i]);
          OrderMembers(g, l - 1, n, b[j]);
          HalvesOf(h, l - 1, 0);
        }
      }
    }
  }

  lemma {:induction false} OrderInRange(h: nat, l: nat, n: nat)
    requires n >= 1 && h < Pow2(Levels(n)) && l <= Levels(n)
    ensures InRange(Order(h, l, n), n)
  {
    forall i | 0 <= i < |Order(h, l, n)|
      ensures Order(h, l, n)[i] < n
    {
      assert Order(h, l, n)[i] in Order(h, l, n);
      OrderMembers(h, l, n, Order(h, l, n)[i]);
    }
  }

  /** After all dimensions a host has every host's contribution exactly once. */
  lemma {:induction false} FullOrderIsPermutation(h: nat, n: nat)
    requires n >= 1 && h < Pow2(Levels(n))
    ensures IsPermutation(Order(h, Levels(n), n), n)
  {
    var m := Levels(n);
    OrderHasNoDuplicates(h, m, n);
    OrderInRange(h, m, n);
    forall x: nat
      ensures x in Order(h, m, n) <==> x < n
    {
      OrderMembers(h, m, n, x);
      HighOfSmall(h, m);
      HighOfSmall(Corner(x, n), m);
    }
  }

  /** The hosts whose contribution host h has before round r, in buffer order. */
  ghost function Held(h: nat, r: nat, n: nat): seq<nat>
    requires h < n
  {
    var m := Levels(n);
    if h < Pow2(m) then (if r == 0 then [h] else Order(h, if r <= m + 1 then r - 1 else m, n))
    else if r <= m + 1 then [h] else Order(h - Pow2(m), m, n)
  }

  lemma {:induction false} HeldInRange(h: nat, r: nat, n: nat)
    requires h < n
    ensures InRange(Held(h, r, n), n)
  {
    var m := Levels(n);
    if h < Pow2(m) && r > 0 {
      OrderInRange(h, if r <= m + 1 then r - 1 else m, n);
    } else if r > m + 1 {
      OrderInRange(h - Pow2(m), m, n);
    }
  }

  /** A receive appends what the peer holds; the last one replaces the buffer. */
  lemma {:induction false} HeldStep(h: nat, r: nat, n: nat)
    requires h < n
    ensures PeerIn(h, r, n).None? ==> Held(h, r + 1, n) == Held(h, r, n)
    ensures PeerIn(h, r, n).Some? && r <= Levels(n) ==>
      PeerIn(h, r, n).value < n && Held(h, r + 1, n) == Held(h, r, n) + Held(PeerIn(h, r, n).value, r, n)
    ensures PeerIn(h, r, n).Some? && r > Levels(n) ==>
      PeerIn(h, r, n).value < n && Held(h, r + 1, n) == Held(PeerIn(h, r, n).value, r, n)
  {
    PeersPair(h, r, n);
    var m := Levels(n);
    if 1 <= r <= m && h < Pow2(m) {
      FlipBound(h, r - 1, m);
    }
  }
}
