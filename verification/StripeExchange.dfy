/**
 One stripe of `ulm_gatherv` and `ulm_allgatherv`: the writers on a host fill its shared
 buffer, the hosts exchange, and what the readers then find is what `StripedGather` starts from.
 */
module StripeExchange {
  import opened Layout
  import opened Ranks
  import opened Stripes
  import opened Placement
  import opened CopyOut
  import opened StripedGather

  // ---------------------------------------------------------------- the writers of one host

  /** `offsetIntoSharedBuffer` of every local rank: the pieces of the local ranks before it. */
  ghost function WriterOffsets(lens: seq<nat>, ranks: seq<nat>): (offs: seq<nat>)
    requires InRange(ranks, |lens|)
    ensures |offs| == |ranks|
    ensures forall k :: 0 <= k < |ranks| ==> InRange(ranks[..k], |lens|) && offs[k] == Bytes(lens, ranks[..k])
  {
    seq(|ranks|, k requires 0 <= k < |ranks| => Bytes(lens, ranks[..k]))
  }

  ghost function LocalPieces<T>(pieces: seq<seq<T>>, ranks: seq<nat>): (ps: seq<seq<T>>)
    requires InRange(ranks, |pieces|)
    ensures |ps| == |ranks| && forall k :: 0 <= k < |ranks| ==> ps[k] == pieces[ranks[k]]
  {
    seq(|ranks|, k requires 0 <= k < |ranks| => pieces[ranks[k]])
  }

  lemma {:induction false} PrefixSum(lens: seq<nat>, ranks: seq<nat>, k: nat, j: nat)
    requires InRange(ranks, |lens|) && k < j <= |ranks|
    ensures InRange(ranks[..k], |lens|) && InRange(ranks[..j], |lens|)
    ensures Bytes(lens, ranks[..k]) + lens[ranks[k]] <= Bytes(lens, ranks[..j])
    decreases j
  {
    assert ranks[..j][..j - 1] == ranks[..j - 1];
    if k < j - 1 {
      PrefixSum(lens, ranks, k, j - 1);
    }
  }

  lemma {:induction false} WritersApart<T>(pieces: seq<seq<T>>, ranks: seq<nat>, total: nat)
    requires InRange(ranks, |pieces|) && Bytes(Sizes(pieces), ranks) <= total
    ensures Separate(WriterOffsets(Sizes(pieces), ranks), Sizes(LocalPieces(pieces, ranks)), total)
  {
    hide Bytes;
    var lens := Sizes(pieces);
    var offs, local := WriterOffsets(lens, ranks), Sizes(LocalPieces(pieces, ranks));
    assert ranks[..|ranks|] == ranks;
    forall k | 0 <= k < |local|
      ensures Inside(offs[k], local[k], total)
    {
      PrefixSum(lens, ranks, k, |ranks|);
    }
    forall k, j | 0 <= k < |local| && 0 <= j < |local| && k != j
      ensures NoOverlap(offs[k], local[k], offs[j], local[j])
    {
      PrefixSum(lens, ranks, if k < j then k else j, if k < j then j else k);
    }
  }

  /** In whatever order the local processes write, the buffer begins with their pieces in local order. */
  lemma {:induction false} WritersFill<T>(buf: seq<T>, pieces: seq<seq<T>>, ranks: seq<nat>, writes: seq<nat>)
    requires InRange(ranks, |pieces|) && Bytes(Sizes(pieces), ranks) <= |buf|
    requires InRange(writes, |ranks|) && forall k: nat :: k < |ranks| ==> k in writes
    ensures Flat(pieces, ranks) <= Placed(buf, WriterOffsets(Sizes(pieces), ranks), LocalPieces(pieces, ranks), writes)
  {
    hide Placed, Bytes, Flat, Separate;
    WritersApart(pieces, ranks, |buf|);
    var after := Placed(buf, WriterOffsets(Sizes(pieces), ranks), LocalPieces(pieces, ranks), writes);
    forall k: nat | k < |ranks|
      ensures Read(after, Segment(WriterOffsets(Sizes(pieces), ranks)[k], |pieces[ranks[k]]|)) == pieces[ranks[k]]
    {
      PlacedThere(buf, WriterOffsets(Sizes(pieces), ranks), LocalPieces(pieces, ranks), writes, k);
    }
    BlocksJoin(after, pieces, ranks, |ranks|);
    assert ranks[..|ranks|] == ranks;
  }

  lemma {:induction false} BlocksJoin<T>(buf: seq<T>, pieces: seq<seq<T>>, ranks: seq<nat>, k: nat)
    requires InRange(ranks, |pieces|) && k <= |ranks| && Bytes(Sizes(pieces), ranks) <= |buf|
    requires forall j: nat :: j < |ranks| ==>
      Read(buf, Segment(WriterOffsets(Sizes(pieces), ranks)[j], |pieces[ranks[j]]|)) == pieces[ranks[j]]
    ensures InRange(ranks[..k], |pieces|) && Flat(pieces, ranks[..k]) <= buf
    decreases k
  {
    hide Bytes, Flat;
    if k == 0 {
      assert ranks[..k] == [];
      FlatOfNone(pieces);
    } else {
      BlocksJoin(buf, pieces, ranks, k - 1);
      var off := WriterOffsets(Sizes(pieces), ranks)[k - 1];
      FlatLength(pieces, ranks[..k - 1]);
      FlatStep(pieces, ranks[..k]);
      assert ranks[..k][..k - 1] == ranks[..k - 1];
      PrefixSum(Sizes(pieces), ranks, k - 1, |ranks|);
      assert ranks[..|ranks|] == ranks;
      assert Read(buf, Segment(off, |pieces[ranks[k - 1]]|)) == pieces[ranks[k - 1]];
    }
  }

  // ---------------------------------------------------------------- the exchange

  /** The lengths that the writers, the interhost step and the readers compute are the same. */
  lemma {:induction false} LengthsMatch<T>(data: seq<seq<T>>, procs: seq<seq<nat>>, stripe: nat, size: nat, h: nat)
    requires (forall k :: 0 <= k < |procs| ==> InRange(procs[k], |data|)) && h < |procs|
    ensures InRange(procs[h], |data|)
    ensures Sizes(HostData(Pieces(data, stripe, size), procs))[h] ==
      Bytes(PieceLens(Sizes(data), stripe, size), procs[h])
  {
    PieceSizes(data, stripe, size);
    FlatLength(Pieces(data, stripe, size), procs[h]);
  }

  lemma {:induction false} FlatShift<T>(data: seq<seq<T>>, order: seq<nat>, root: nat)
    requires root < |data| && InRange(order, |data|)
    ensures Flat(Shifted(data, root), order) == Flat(data, HostsOf(order, root, |data|))
    decreases |order|
  {
    if order != [] {
      var front := order[..|order| - 1];
      FlatShift(data, front, root);
      assert HostsOf(order, root, |data|)[..|order| - 1] == HostsOf(front, root, |data|);
    }
  }

  /** What the readers find: the pieces of all ranks, host by host. */
  lemma {:induction false} ReadersFind<T>(pieces: seq<seq<T>>, procs: seq<seq<nat>>, order: seq<nat>, root: nat)
    requires IsPlacement(procs, |pieces|) && root < |procs| && IsPermutation(order, |procs|)
    ensures Flat(Shifted(HostData(pieces, procs), root), order) ==
      Flat(pieces, BufferOrder(procs, order, root, |pieces|))
  {
    hide Flat, HostData, Shifted;
    FlatShift(HostData(pieces, procs), order, root);
    FlatOfHosts(pieces, procs, HostsOf(order, root, |procs|));
  }

  lemma {:induction false} NoShift<X>(s: seq<X>)
    requires s != []
    ensures Shifted(s, 0) == s
  {
  }

  // ---------------------------------------------------------------- from the writers to the readers

  /** `writes[h]` lists the local processes of host h in the order in which they happen to write. */
  ghost predicate AllWrite(procs: seq<seq<nat>>, writes: seq<seq<nat>>) {
    && |writes| == |procs|
    && forall h :: 0 <= h < |procs| ==> InRange(writes[h], |procs[h]|) && Covers(writes[h], |procs[h]|)
  }

  ghost predicate Covers(writes: seq<nat>, n: nat) { forall k: nat :: k < n ==> k in writes }

  /** What the hosts contribute to stripe k. */
  ghost function StripeData<T>(data: seq<seq<T>>, procs: seq<seq<nat>>, k: nat, size: nat): (d: seq<seq<T>>)
    requires IsPlacement(procs, |data|)
    ensures |d| == |procs|
  {
    HostData(Pieces(data, k, size), procs)
  }

  /** The processes of host h write stripe k in the order `writes[h]`. */
  ghost function WriteAll<T>(data: seq<seq<T>>, procs: seq<seq<nat>>, writes: seq<seq<nat>>, h: nat, k: nat, size: nat,
                             shared: seq<T>): (b: seq<T>)
    requires IsPlacement(procs, |data|) && h < |procs| && AllWrite(procs, writes)
    ensures |b| == |shared|
  {
    var pieces, ranks := Pieces(data, k, size), procs[h];
    assert InRange(ranks, |pieces|) && InRange(writes[h], |ranks|);
    Placed(shared, WriterOffsets(Sizes(pieces), ranks), LocalPieces(pieces, ranks), writes[h])
  }

  /** When they have, the buffer begins with the host's share of the stripe, and there is room for all shares. */
  lemma {:induction false} AllWritten<T>(data: seq<seq<T>>, procs: seq<seq<nat>>, writes: seq<seq<nat>>, root: nat,
                                         h: nat, k: nat, size: nat, shared: seq<T>)
    requires IsPlacement(procs, |data|) && h < |procs| && root < |procs| && AllWrite(procs, writes)
    requires |shared| >= |data| * size
    ensures var share := StripeData(data, procs, k, size);
      && share[h] <= WriteAll(data, procs, writes, h, k, size, shared)
      && Bytes(Sizes(Shifted(share, root)), Ascending(|procs|)) <= |shared|
  {
    hide Bytes, Flat, Placed, HostData, Shifted, IsPlacement;
    var pieces := Pieces(data, k, size);
    SharesFit(data, procs, root, h, k, size);
    assert InRange(procs[h], |pieces|) && InRange(writes[h], |procs[h]|) && Covers(writes[h], |procs[h]|);
    FlatLength(pieces, procs[h]);
    WritersFill(shared, pieces, procs[h], writes[h]);
  }

  /** Where every rank has room for a whole piece, the pieces of a host's ranks fit, and so do those of all. */
  lemma {:induction false} SharesFit<T>(data: seq<seq<T>>, procs: seq<seq<nat>>, root: nat, h: nat, k: nat, size: nat)
    requires IsPlacement(procs, |data|) && h < |procs| && root < |procs|
    ensures InRange(procs[h], |data|)
    ensures var all := Bytes(Sizes(Shifted(StripeData(data, procs, k, size), root)), Ascending(|procs|));
      Bytes(Sizes(Pieces(data, k, size)), procs[h]) <= all <= |data| * size
  {
    hide Bytes, Flat, HostData, Shifted, IsPlacement, PieceLen;
    var pieces := Pieces(data, k, size);
    forall r | 0 <= r < |pieces|
      ensures |pieces[r]| <= size
    {
      PieceAtMost(|data[r]|, k, size);
    }
    TotalFits(pieces, procs, root, size);
    PlacedRanks(procs, |data|, h);
    ShareFits(HostData(pieces, procs), root, h);
    FlatLength(pieces, procs[h]);
  }

  lemma {:induction false} PieceAtMost(bytes: nat, k: nat, size: nat)
    ensures PieceLen(bytes, k, size) <= size
  {
  }

  /** One host's share is no more than everything. */
  lemma {:induction false} ShareFits<T>(hosts: seq<seq<T>>, root: nat, h: nat)
    requires root < |hosts| && h < |hosts|
    ensures |hosts[h]| <= Bytes(Sizes(Shifted(hosts, root)), Ascending(|hosts|))
  {
    var n, v := |hosts|, ToRelative(h, root, |hosts|);
    ModuloForms(h, root, n);
    BytesOfSome(Sizes(Shifted(hosts, root)), [v], n);
    assert Bytes(Sizes(Shifted(hosts, root)), [v]) == |hosts[h]|;
  }

  /** All pieces of a stripe together fit where every rank has room for a whole piece. */
  lemma {:induction false} TotalFits<T>(pieces: seq<seq<T>>, procs: seq<seq<nat>>, root: nat, size: nat)
    requires IsPlacement(procs, |pieces|) && root < |procs| && forall r :: 0 <= r < |pieces| ==> |pieces[r]| <= size
    ensures Bytes(Sizes(Shifted(HostData(pieces, procs), root)), Ascending(|procs|)) <= |pieces| * size
  {
    hide Bytes, Flat, HostData, Shifted, IsPlacement, BufferOrder;
    AscendingIsPermutation(|procs|);
    var n, order := |pieces|, Ascending(|procs|);
    ReadersFind(pieces, procs, order, root);
    FlatLength(Shifted(HostData(pieces, procs), root), order);
    var ranks := BufferOrder(procs, order, root, n);
    FlatLength(pieces, ranks);
    BytesOfPermutation(Sizes(pieces), ranks, n);
    BytesAtMost(Sizes(pieces), n, size);
  }

  lemma {:induction false} BytesAtMost(sizes: seq<nat>, n: nat, size: nat)
    requires n <= |sizes| && forall r :: 0 <= r < |sizes| ==> sizes[r] <= size
    ensures Bytes(sizes, Ascending(n)) <= n * size
    decreases n
  {
    if n == 0 {
      assert 0 * size == 0;
    } else {
      BytesAtMost(sizes, n - 1, size);
      assert Ascending(n)[..n - 1] == Ascending(n - 1);
      assert n * size == (n - 1) * size + size;
    }
  }

  /** The stripe size that a communicator computes leaves room for a piece of every rank. */
  lemma {:induction false} RoomForAll(procs: seq<seq<nat>>, n: nat, maxLocalProcs: nat, size: nat, maxLength: nat)
    requires IsPlacement(procs, n) && size * (|procs| * maxLocalProcs) <= maxLength
    requires forall h :: 0 <= h < |procs| ==> |procs[h]| <= maxLocalProcs
    ensures n * size <= maxLength
  {
    hide Bytes, Flat, IsPlacement;
    var order := Ascending(|procs|);
    AscendingIsPermutation(|procs|);
    RanksInOrder(procs, order, n);
    PermutationLength(Flat(procs, order), n);
    FlatLength(procs, order);
    BytesAtMost(Sizes(procs), |procs|, maxLocalProcs);
    assert n <= |procs| * maxLocalProcs;
    assert n * size <= |procs| * maxLocalProcs * size;
  }

  /** One process's write: its piece, behind the pieces of the local ranks before it. */
  method WritePiece<T>(shared: array<T>, sendbuf: seq<T>, myLocalRank: nat, ranks: seq<nat>, bytesPerProc: seq<nat>,
                       stripeID: nat, perRankStripeSize: nat)
    requires InRange(ranks, |bytesPerProc|) && myLocalRank < |ranks| && |sendbuf| == bytesPerProc[ranks[myLocalRank]]
    requires Bytes(PieceLens(bytesPerProc, stripeID, perRankStripeSize), ranks) <= shared.Length
    modifies shared
    ensures shared[..] == Write(old(shared[..]),
                                WriterOffsets(PieceLens(bytesPerProc, stripeID, perRankStripeSize), ranks)[myLocalRank],
                                Piece(sendbuf, stripeID, perRankStripeSize))
  {
    hide Bytes, Write, Piece, PieceLen, PieceLens, WriterOffsets;
    WhatIsLeft(sendbuf, stripeID, perRankStripeSize);
    var leftToCopy: int := bytesPerProc[ranks[myLocalRank]] - stripeID * perRankStripeSize;
    if leftToCopy > 0 {
      var bytesToCopy := leftToCopy;
      if bytesToCopy > perRankStripeSize {
        bytesToCopy := perRankStripeSize;
      }
      var bytesAlreadyCopied := stripeID * perRankStripeSize;
      var offset := AddPieces(ranks[..myLocalRank], bytesPerProc, stripeID, perRankStripeSize);
      PrefixSum(PieceLens(bytesPerProc, stripeID, perRankStripeSize), ranks, myLocalRank, |ranks|);
      assert ranks[..|ranks|] == ranks;
      MemCopy(sendbuf, bytesAlreadyCopied, shared, offset, bytesToCopy);
    } else {
      WriteNothing(shared[..], WriterOffsets(PieceLens(bytesPerProc, stripeID, perRankStripeSize), ranks)[myLocalRank]);
    }
  }

  lemma {:induction false} WhatIsLeft<T>(d: seq<T>, stripe: nat, size: nat)
    ensures var left, at := |d| - stripe * size, stripe * size;
      if left <= 0 then PieceLen(|d|, stripe, size) == 0 && Piece(d, stripe, size) == []
      else
        var n := if left > size then size else left;
        PieceLen(|d|, stripe, size) == n && at + n <= |d| && Piece(d, stripe, size) == d[at..at + n]
  {
  }

  lemma {:induction false} WriteNothing<T>(buf: seq<T>, off: nat)
    ensures Write(buf, off, []) == buf
  {
  }
}
