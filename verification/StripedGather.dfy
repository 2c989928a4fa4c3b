/**
 The stripe loops of `ulm_gatherv` and `ulm_allgatherv` seen from a process that collects:
 stripe by stripe, every rank's bytes arrive at its displacement.
 */
module StripedGather {
  import opened Layout
  import opened Ranks
  import opened Stripes
  import opened Placement
  import opened CopyOut

  /** After some stripes: every region has its first pieces, and the rest is as it was. */
  ghost predicate Filled<T>(now: seq<T>, before: seq<T>, data: seq<seq<T>>, displs: seq<nat>, stripe: nat, size: nat)
    requires |displs| == |data| && |now| == |before| && AllInside(displs, Sizes(data), |now|)
  {
    && (forall r :: 0 <= r < |data| ==> Arrived(now, data[r], displs[r], stripe, size))
    && (forall i :: 0 <= i < |now| && !InRegion(displs, Sizes(data), i) ==> now[i] == before[i])
  }

  ghost predicate Arrived<T>(now: seq<T>, d: seq<T>, displ: nat, stripe: nat, size: nat) {
    Read(now, Segment(displ, |Before(d, stripe, size)|)) == Before(d, stripe, size)
  }

  /** Is byte i in some rank's receive region? */
  ghost predicate InRegion(displs: seq<nat>, bytes: seq<nat>, i: nat)
    requires |displs| == |bytes|
  {
    exists r :: 0 <= r < |bytes| && displs[r] <= i < displs[r] + bytes[r]
  }

  lemma {:induction false} RegionOf(displs: seq<nat>, bytes: seq<nat>, i: nat, r: nat)
    requires |displs| == |bytes| && r < |bytes| && displs[r] <= i < displs[r] + bytes[r]
    ensures InRegion(displs, bytes, i)
  {
  }

  /** The pieces of a stripe keep out of each other's regions. */
  lemma {:induction false} PiecesSeparate<T>(data: seq<seq<T>>, displs: seq<nat>, stripe: nat, size: nat, total: nat)
    requires Separate(displs, Sizes(data), total)
    ensures Separate(StripeOffsets(displs, stripe, size), Sizes(Pieces(data, stripe, size)), total)
  {
    hide PieceLen;
    var offs, lens := StripeOffsets(displs, stripe, size), Sizes(Pieces(data, stripe, size));
    forall r | 0 <= r < |lens|
      ensures Inside(offs[r], lens[r], total)
    {
      assert Inside(displs[r], Sizes(data)[r], total);
      PieceInside(|data[r]|, displs[r], stripe, size, total);
    }
    forall r, q | 0 <= r < |lens| && 0 <= q < |lens| && r != q
      ensures NoOverlap(offs[r], lens[r], offs[q], lens[q])
    {
      assert NoOverlap(displs[r], Sizes(data)[r], displs[q], Sizes(data)[q]);
      PieceWithin(|data[r]|, stripe, size);
      PieceWithin(|data[q]|, stripe, size);
    }
  }

  lemma {:induction false} PieceWithin(bytes: nat, stripe: nat, size: nat)
    ensures PieceLen(bytes, stripe, size) > 0 ==> bytes > 0 && stripe * size + PieceLen(bytes, stripe, size) <= bytes
  {
  }

  lemma {:induction false} KeepRange<T>(buf: seq<T>, offs: seq<nat>, pieces: seq<seq<T>>, ranks: seq<nat>, a: nat,
                                        la: nat)
    requires |offs| == |pieces| && InRange(ranks, |pieces|) && a + la <= |buf|
    requires forall i :: a <= i < a + la ==> !Touched(offs, Sizes(pieces), ranks, i)
    ensures Read(Placed(buf, offs, pieces, ranks), Segment(a, la)) == Read(buf, Segment(a, la))
  {
    hide Placed, Touched;
    forall i | a <= i < a + la
      ensures Placed(buf, offs, pieces, ranks)[i] == buf[i]
    {
      PlacedElsewhere(buf, offs, pieces, ranks, i);
    }
  }

  lemma {:induction false} ReadTwice<T>(buf: seq<T>, a: nat, x: seq<T>, y: seq<T>)
    requires Read(buf, Segment(a, |x|)) == x && Read(buf, Segment(a + |x|, |y|)) == y
    ensures Read(buf, Segment(a, |x + y|)) == x + y
  {
  }

  /** A byte touched in a stripe lies in the region of the rank whose piece it is, behind what arrived before. */
  lemma {:induction false} TouchedWhere<T>(data: seq<seq<T>>, displs: seq<nat>, stripe: nat, size: nat,
                                           ranks: seq<nat>, i: nat) returns (q: nat)
    requires |displs| == |data| && InRange(ranks, |data|)
    requires Touched(StripeOffsets(displs, stripe, size), Sizes(Pieces(data, stripe, size)), ranks, i)
    ensures q < |data| && displs[q] + |Before(data[q], stripe, size)| <= i < displs[q] + |data[q]|
  {
    hide PieceLen, Before;
    var offs, lens := StripeOffsets(displs, stripe, size), Sizes(Pieces(data, stripe, size));
    var k :| 0 <= k < |ranks| && offs[ranks[k]] <= i < offs[ranks[k]] + lens[ranks[k]];
    q := ranks[k];
    PieceWithin(|data[q]|, stripe, size);
    PiecesJoin(data[q], stripe, size);
  }

  lemma {:induction false} OneOwner(displs: seq<nat>, bytes: seq<nat>, total: nat, q: nat, r: nat, i: nat)
    requires Separate(displs, bytes, total) && q < |bytes| && r < |bytes|
    requires displs[q] <= i < displs[q] + bytes[q] && displs[r] <= i < displs[r] + bytes[r]
    ensures q == r
  {
    assert NoOverlap(displs[q], bytes[q], displs[r], bytes[r]) || q == r;
  }

  /** What arrived before a stripe stays, for every rank. */
  lemma {:induction false} EarlierStays<T>(now: seq<T>, data: seq<seq<T>>, displs: seq<nat>, stripe: nat, size: nat,
                                           ranks: seq<nat>, r: nat)
    requires Separate(displs, Sizes(data), |now|) && InRange(ranks, |data|) && r < |data|
    requires Arrived(now, data[r], displs[r], stripe, size)
    ensures Arrived(Placed(now, StripeOffsets(displs, stripe, size), Pieces(data, stripe, size), ranks), data[r],
                    displs[r], stripe, size)
  {
    hide Placed, Touched, Before, PieceLen, Pieces, StripeOffsets;
    var offs, pieces := StripeOffsets(displs, stripe, size), Pieces(data, stripe, size);
    var len := |Before(data[r], stripe, size)|;
    assert Inside(displs[r], Sizes(data)[r], |now|);
    if len > 0 {
      forall i | displs[r] <= i < displs[r] + len
        ensures !Touched(offs, Sizes(pieces), ranks, i)
      {
        if Touched(offs, Sizes(pieces), ranks, i) {
          var q := TouchedWhere(data, displs, stripe, size, ranks, i);
          OneOwner(displs, Sizes(data), |now|, q, r, i);
        }
      }
      KeepRange(now, offs, pieces, ranks, displs[r], len);
    }
  }

  lemma {:induction false} PieceArrives<T>(now: seq<T>, data: seq<seq<T>>, displs: seq<nat>, stripe: nat, size: nat,
                                           ranks: seq<nat>, r: nat)
    requires Separate(displs, Sizes(data), |now|) && InRange(ranks, |data|) && r < |data| && r in ranks
    requires Arrived(now, data[r], displs[r], stripe, size)
    ensures Arrived(Placed(now, StripeOffsets(displs, stripe, size), Pieces(data, stripe, size), ranks), data[r],
                    displs[r], stripe + 1, size)
  {
    hide Placed, Before, PieceLen, Read, Separate;
    var offs, pieces := StripeOffsets(displs, stripe, size), Pieces(data, stripe, size);
    Separation(displs, Sizes(data), |now|);
    var next := Placed(now, offs, pieces, ranks);
    EarlierStays(now, data, displs, stripe, size, ranks, r);
    PiecesSeparate(data, displs, stripe, size, |now|);
    PlacedThere(now, offs, pieces, ranks, r);
    PiecesJoin(data[r], stripe, size);
    var x, y := Before(data[r], stripe, size), pieces[r];
    if y == [] {
      assert x + y == x;
    } else {
      ReadTwice(next, displs[r], x, y);
    }
  }

  lemma {:induction false} Separation(displs: seq<nat>, bytes: seq<nat>, total: nat)
    requires Separate(displs, bytes, total)
    ensures |displs| == |bytes| && AllInside(displs, bytes, total)
  {
  }

  /** One stripe. */
  lemma {:induction false} FilledStep<T>(now: seq<T>, before: seq<T>, data: seq<seq<T>>, displs: seq<nat>,
                                         stripe: nat, size: nat, ranks: seq<nat>)
    requires Separate(displs, Sizes(data), |now|) && |now| == |before| && IsPermutation(ranks, |data|)
    requires |displs| == |data| && AllInside(displs, Sizes(data), |now|)
    requires Filled(now, before, data, displs, stripe, size)
    ensures Filled(Placed(now, StripeOffsets(displs, stripe, size), Pieces(data, stripe, size), ranks), before, data,
                   displs, stripe + 1, size)
  {
    hide Placed, Before, Separate, Touched, InRegion, Arrived, Pieces, StripeOffsets, AllInside;
    var offs, pieces := StripeOffsets(displs, stripe, size), Pieces(data, stripe, size);
    var next := Placed(now, offs, pieces, ranks);
    forall r | 0 <= r < |data|
      ensures Arrived(next, data[r], displs[r], stripe + 1, size)
    {
      assert Arrived(now, data[r], displs[r], stripe, size);
      PieceArrives(now, data, displs, stripe, size, ranks, r);
    }
    forall i | 0 <= i < |next| && !InRegion(displs, Sizes(data), i)
      ensures next[i] == before[i]
    {
      OutsideStays(now, data, displs, stripe, size, ranks, i);
    }
  }

  lemma {:induction false} OutsideStays<T>(now: seq<T>, data: seq<seq<T>>, displs: seq<nat>, stripe: nat, size: nat,
                                           ranks: seq<nat>, i: nat)
    requires |displs| == |data| && InRange(ranks, |data|) && i < |now| && !InRegion(displs, Sizes(data), i)
    ensures Placed(now, StripeOffsets(displs, stripe, size), Pieces(data, stripe, size), ranks)[i] == now[i]
  {
    hide Placed, Before, Touched, InRegion, Pieces, StripeOffsets;
    if Touched(StripeOffsets(displs, stripe, size), Sizes(Pieces(data, stripe, size)), ranks, i) {
      var q := TouchedWhere(data, displs, stripe, size, ranks, i);
      RegionOf(displs, Sizes(data), i, q);
    } else {
      PlacedElsewhere(now, StripeOffsets(displs, stripe, size), Pieces(data, stripe, size), ranks, i);
    }
  }

  /** Nothing has arrived before the first stripe. */
  lemma {:induction false} FilledAtStart<T>(buf: seq<T>, data: seq<seq<T>>, displs: seq<nat>, size: nat)
    requires |displs| == |data| && AllInside(displs, Sizes(data), |buf|)
    ensures Filled(buf, buf, data, displs, 0, size)
  {
    hide InRegion, AllInside;
    forall r | 0 <= r < |data|
      ensures Arrived(buf, data[r], displs[r], 0, size)
    {
      PiecesJoin(data[r], 0, size);
    }
  }

  /** What an unstriped gather does: every rank's bytes at its displacement, the rest untouched. */
  ghost predicate Gathered<T>(now: seq<T>, before: seq<T>, data: seq<seq<T>>, displs: seq<nat>)
    requires |displs| == |data| && |now| == |before|
  {
    && (forall r :: 0 <= r < |data| ==> Read(now, Segment(displs[r], |data[r]|)) == data[r])
    && (forall i :: 0 <= i < |now| && !InRegion(displs, Sizes(data), i) ==> now[i] == before[i])
  }

  lemma {:induction false} FilledAtEnd<T>(now: seq<T>, before: seq<T>, data: seq<seq<T>>, displs: seq<nat>,
                                          ranks: seq<nat>, stripes: nat, size: nat)
    requires |displs| == |data| && |now| == |before| && AllInside(displs, Sizes(data), |now|)
    requires Filled(now, before, data, displs, stripes, size)
    requires IsPermutation(ranks, |data|) && IsStripeCount(Sizes(data), ranks, stripes, size)
    ensures Gathered(now, before, data, displs)
  {
    hide InRegion, AllInside;
    forall r | 0 <= r < |data|
      ensures Read(now, Segment(displs[r], |data[r]|)) == data[r]
    {
      assert Arrived(now, data[r], displs[r], stripes, size);
      assert r in ranks;
      var i :| 0 <= i < |ranks| && ranks[i] == r;
      assert Covered(Sizes(data)[ranks[i]], stripes, size);
      PiecesJoin(data[r], stripes, size);
    }
  }

  lemma {:induction false} HostsPermuted(order: seq<nat>, root: nat, n: nat)
    requires root < n && IsPermutation(order, n)
    ensures IsPermutation(HostsOf(order, root, n), n)
  {
    var hosts := HostsOf(order, root, n);
    forall h: nat | h < n
      ensures h in hosts
    {
      ModuloForms(h, root, n);
      assert ToRelative(h, root, n) in order;
      var i :| 0 <= i < |order| && order[i] == ToRelative(h, root, n);
      assert hosts[i] == h;
    }
  }

  /** The ranks in the order in which the shared buffer has their pieces. */
  ghost function BufferOrder(procs: seq<seq<nat>>, dataHostOrder: seq<nat>, rootHost: nat, n: nat): (ranks: seq<nat>)
    requires IsPlacement(procs, n) && rootHost < |procs| && IsPermutation(dataHostOrder, |procs|)
    ensures IsPermutation(ranks, n)
  {
    HostsPermuted(dataHostOrder, rootHost, |procs|);
    RanksInOrder(procs, HostsOf(dataHostOrder, rootHost, |procs|), n);
    Flat(procs, HostsOf(dataHostOrder, rootHost, |procs|))
  }

  lemma {:induction false} AscendingIsPermutation(n: nat)
    ensures IsPermutation(Ascending(n), n)
  {
    forall h: nat | h < n
      ensures h in Ascending(n)
    {
      assert Ascending(n)[h] == h;
    }
  }
}
