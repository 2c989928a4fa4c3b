/**
 Copying between a shared buffer, which lists pieces one after the other, and the places
 where the pieces belong.
 */
module CopyOut {
  import opened Layout
  import opened Placement
  import opened Ranks
  import opened Stripes

  /** `MEMCOPY_FUNC` */
  method MemCopy<T>(source: seq<T>, from: nat, dest: array<T>, to: nat, len: nat)
    requires from + len <= |source| && to + len <= dest.Length
    modifies dest
    ensures dest[..] == Write(old(dest[..]), to, source[from..from + len])
  {
    for i := 0 to len
      invariant forall j :: 0 <= j < dest.Length ==>
        dest[j] == if to <= j < to + i then source[from + (j - to)] else old(dest[j])
    {
      dest[to + i] := source[from + i];
    }
  }

  // ---------------------------------------------------------------- writing pieces to their places

  /** A buffer after the pieces of some ranks were written, in order, to their offsets. */
  ghost function Placed<T>(buf: seq<T>, offs: seq<nat>, pieces: seq<seq<T>>, ranks: seq<nat>): (b: seq<T>)
    requires |offs| == |pieces| && InRange(ranks, |pieces|)
    ensures |b| == |buf|
  {
    if ranks == [] then buf
    else
      var r := ranks[|ranks| - 1];
      Write(Placed(buf, offs, pieces, ranks[..|ranks| - 1]), offs[r], pieces[r])
  }

  /** Places are inside the buffer and do not overlap. */
  ghost predicate Separate(offs: seq<nat>, lens: seq<nat>, total: nat) {
    && |offs| == |lens|
    && (forall r :: 0 <= r < |lens| ==> Inside(offs[r], lens[r], total))
    && (forall r, q {:trigger NoOverlap(offs[r], lens[r], offs[q], lens[q])} ::
          0 <= r < |lens| && 0 <= q < |lens| && r != q ==>
          NoOverlap(offs[r], lens[r], offs[q], lens[q]))
  }

  ghost predicate Inside(off: nat, len: nat, total: nat) { len > 0 ==> off + len <= total }

  ghost predicate NoOverlap(a: nat, la: nat, b: nat, lb: nat) {
    la == 0 || lb == 0 || a + la <= b || b + lb <= a
  }

  /** Is byte i in the place of one of the ranks? */
  ghost predicate Touched(offs: seq<nat>, lens: seq<nat>, ranks: seq<nat>, i: nat)
    requires |offs| == |lens| && InRange(ranks, |lens|)
  {
    exists k :: 0 <= k < |ranks| && offs[ranks[k]] <= i < offs[ranks[k]] + lens[ranks[k]]
  }

  lemma {:induction false} WriteElsewhere<T>(buf: seq<T>, off: nat, m: seq<T>, a: nat, la: nat)
    requires NoOverlap(off, |m|, a, la) && (la > 0 ==> a + la <= |buf|)
    ensures Read(Write(buf, off, m), Segment(a, la)) == Read(buf, Segment(a, la))
  {
  }

  lemma {:induction false} WriteThere<T>(buf: seq<T>, off: nat, m: seq<T>)
    requires Inside(off, |m|, |buf|)
    ensures Read(Write(buf, off, m), Segment(off, |m|)) == m
  {
  }

  /** Whatever the order of the writes, every piece is at its place in the end. */
  lemma {:induction false} PlacedThere<T>(buf: seq<T>, offs: seq<nat>, pieces: seq<seq<T>>, ranks: seq<nat>, r: nat)
    requires Separate(offs, Sizes(pieces), |buf|) && InRange(ranks, |pieces|) && r in ranks
    ensures Read(Placed(buf, offs, pieces, ranks), Segment(offs[r], |pieces[r]|)) == pieces[r]
    decreases |ranks|
  {
    hide Read, Write;
    var front, last := ranks[..|ranks| - 1], ranks[|ranks| - 1];
    assert Inside(offs[r], Sizes(pieces)[r], |buf|) && Inside(offs[last], Sizes(pieces)[last], |buf|);
    if last == r {
      WriteThere(Placed(buf, offs, pieces, front), offs[r], pieces[r]);
    } else {
      PlacedThere(buf, offs, pieces, front, r);
      assert NoOverlap(offs[last], Sizes(pieces)[last], offs[r], Sizes(pieces)[r]);
      WriteElsewhere(Placed(buf, offs, pieces, front), offs[last], pieces[last], offs[r], |pieces[r]|);
    }
  }

  lemma {:induction false} PlacedElsewhere<T>(buf: seq<T>, offs: seq<nat>, pieces: seq<seq<T>>, ranks: seq<nat>, i: nat)
    requires |offs| == |pieces| && InRange(ranks, |pieces|) && i < |buf| && !Touched(offs, Sizes(pieces), ranks, i)
    ensures Placed(buf, offs, pieces, ranks)[i] == buf[i]
    decreases |ranks|
  {
    if ranks != [] {
      var front, last := ranks[..|ranks| - 1], ranks[|ranks| - 1];
      assert ranks[|ranks| - 1] == last;
      PlacedElsewhere(buf, offs, pieces, front, i);
    }
  }

  lemma {:induction false} PlacedAt<T>(buf: seq<T>, offs: seq<nat>, pieces: seq<seq<T>>, ranks: seq<nat>, r: nat,
                                       i: nat)
    requires Separate(offs, Sizes(pieces), |buf|) && InRange(ranks, |pieces|) && r in ranks
    requires i < |buf| && offs[r] <= i < offs[r] + |pieces[r]|
    ensures Placed(buf, offs, pieces, ranks)[i] == pieces[r][i - offs[r]]
  {
    hide Placed;
    PlacedThere(buf, offs, pieces, ranks, r);
    assert Inside(offs[r], Sizes(pieces)[r], |buf|);
    assert Read(Placed(buf, offs, pieces, ranks), Segment(offs[r], |pieces[r]|))[i - offs[r]] ==
      Placed(buf, offs, pieces, ranks)[i];
  }

  /** The order of the writes does not matter at all. */
  lemma {:induction false} PlacedAnyOrder<T>(buf: seq<T>, offs: seq<nat>, pieces: seq<seq<T>>, a: seq<nat>, b: seq<nat>)
    requires Separate(offs, Sizes(pieces), |buf|) && IsPermutation(a, |pieces|) && IsPermutation(b, |pieces|)
    ensures Placed(buf, offs, pieces, a) == Placed(buf, offs, pieces, b)
  {
    hide Placed;
    forall i | 0 <= i < |buf|
      ensures Placed(buf, offs, pieces, a)[i] == Placed(buf, offs, pieces, b)[i]
    {
      if r :| 0 <= r < |pieces| && offs[r] <= i < offs[r] + |pieces[r]| {
        PlacedAt(buf, offs, pieces, a, r, i);
        PlacedAt(buf, offs, pieces, b, r, i);
      } else {
        PlacedElsewhere(buf, offs, pieces, a, i);
        PlacedElsewhere(buf, offs, pieces, b, i);
      }
    }
  }

  // ---------------------------------------------------------------- copyDataFromSharedBuffer

  /** Where the pieces of a stripe belong: behind the pieces before it. */
  function StripeOffsets(displs: seq<nat>, stripe: nat, size: nat): (offs: seq<nat>)
    ensures |offs| == |displs| && forall r :: 0 <= r < |displs| ==> offs[r] == displs[r] + stripe * size
  {
    seq(|displs|, r requires 0 <= r < |displs| => displs[r] + stripe * size)
  }

  lemma {:induction false} CursorStep<T>(pieces: seq<seq<T>>, ranks: seq<nat>, k: nat, shared: seq<T>)
    requires InRange(ranks, |pieces|) && k < |ranks| && Flat(pieces, ranks) <= shared
    ensures InRange(ranks[..k], |pieces|) && InRange(ranks[..k + 1], |pieces|)
    ensures var at, p := Bytes(Sizes(pieces), ranks[..k]), pieces[ranks[k]];
      && Bytes(Sizes(pieces), ranks[..k + 1]) == at + |p|
      && at + |p| <= |shared| && shared[at..at + |p|] == p
  {
    hide Flat, Bytes;
    var front, rest := ranks[..k + 1], ranks[k + 1..];
    assert ranks == front + rest && front == ranks[..k] + [ranks[k]];
    FlatConcat(pieces, front, rest);
    FlatConcat(pieces, ranks[..k], [ranks[k]]);
    FlatStep(pieces, [ranks[k]]);
    FlatOfNone(pieces);
    FlatLength(pieces, ranks[..k]);
    FlatLength(pieces, front);
  }

  /** A buffer after the blocks of a shared buffer, one for each rank in order, were copied to their places. */
  ghost function CopiedOut<T>(buf: seq<T>, shared: seq<T>, offs: seq<nat>, lens: seq<nat>, ranks: seq<nat>): (b: seq<T>)
    requires |offs| == |lens| && InRange(ranks, |lens|)
    ensures |b| == |buf|
  {
    if ranks == [] then buf
    else
      var front, r := ranks[..|ranks| - 1], ranks[|ranks| - 1];
      Write(CopiedOut(buf, shared, offs, lens, front), offs[r], Read(shared, Segment(Bytes(lens, front), lens[r])))
  }

  lemma {:induction false} CopiedStep<T>(buf: seq<T>, shared: seq<T>, offs: seq<nat>, lens: seq<nat>, ranks: seq<nat>,
                                         k: nat)
    requires |offs| == |lens| && InRange(ranks, |lens|) && k < |ranks|
    ensures InRange(ranks[..k], |lens|) && InRange(ranks[..k + 1], |lens|)
    ensures Bytes(lens, ranks[..k + 1]) == Bytes(lens, ranks[..k]) + lens[ranks[k]]
    ensures CopiedOut(buf, shared, offs, lens, ranks[..k + 1]) ==
      Write(CopiedOut(buf, shared, offs, lens, ranks[..k]), offs[ranks[k]],
            Read(shared, Segment(Bytes(lens, ranks[..k]), lens[ranks[k]])))
  {
    assert ranks[..k + 1][..k] == ranks[..k];
  }

  /** If the shared buffer begins with the ranks' pieces in order, every piece goes to its place. */
  lemma {:induction false} CopiedIsPlaced<T>(buf: seq<T>, shared: seq<T>, offs: seq<nat>, pieces: seq<seq<T>>,
                                             ranks: seq<nat>, k: nat)
    requires |offs| == |pieces| && InRange(ranks, |pieces|) && Flat(pieces, ranks) <= shared && k <= |ranks|
    ensures InRange(ranks[..k], |pieces|)
    ensures CopiedOut(buf, shared, offs, Sizes(pieces), ranks[..k]) == Placed(buf, offs, pieces, ranks[..k])
    decreases k
  {
    hide Flat, Bytes, Write, CopiedOut, Placed;
    if k > 0 {
      CopiedIsPlaced(buf, shared, offs, pieces, ranks, k - 1);
      CursorStep(pieces, ranks, k - 1, shared);
      CopiedStep(buf, shared, offs, Sizes(pieces), ranks, k - 1);
      PlacedStep(buf, offs, pieces, ranks, k - 1);
    } else {
      assert ranks[..0] == [];
      NothingMoved(buf, shared, offs, pieces);
    }
  }

  lemma {:induction false} PlacedStep<T>(buf: seq<T>, offs: seq<nat>, pieces: seq<seq<T>>, ranks: seq<nat>, k: nat)
    requires |offs| == |pieces| && InRange(ranks, |pieces|) && k < |ranks|
    ensures InRange(ranks[..k], |pieces|) && InRange(ranks[..k + 1], |pieces|)
    ensures Placed(buf, offs, pieces, ranks[..k + 1]) ==
      Write(Placed(buf, offs, pieces, ranks[..k]), offs[ranks[k]], pieces[ranks[k]])
  {
    hide Write;
    assert ranks[..k + 1][..k] == ranks[..k];
  }

  lemma {:induction false} NothingMoved<T>(buf: seq<T>, shared: seq<T>, offs: seq<nat>, pieces: seq<seq<T>>)
    requires |offs| == |pieces|
    ensures CopiedOut(buf, shared, offs, Sizes(pieces), []) == buf == Placed(buf, offs, pieces, [])
  {
  }

  /** Every rank's receive region is inside the destination. */
  ghost predicate AllInside(displs: seq<nat>, bytes: seq<nat>, total: nat) {
    |displs| == |bytes| && forall r :: 0 <= r < |bytes| ==> Inside(displs[r], bytes[r], total)
  }

  lemma {:induction false} PieceInside(bytes: nat, displ: nat, stripe: nat, size: nat, total: nat)
    requires Inside(displ, bytes, total)
    ensures Inside(displ + stripe * size, PieceLen(bytes, stripe, size), total)
    ensures PieceLen(bytes, stripe, size) > 0 ==> stripe * size + PieceLen(bytes, stripe, size) <= bytes
  {
  }

  lemma {:induction false} RestFits(lens: seq<nat>, ranks: seq<nat>, k: nat)
    requires InRange(ranks, |lens|) && k <= |ranks|
    ensures InRange(ranks[..k], |lens|) && Bytes(lens, ranks[..k]) <= Bytes(lens, ranks)
    decreases |ranks|
  {
    if k == |ranks| {
      assert ranks[..k] == ranks;
    } else {
      RestFits(lens, ranks[..|ranks| - 1], k);
      assert ranks[..|ranks| - 1][..k] == ranks[..k];
    }
  }

  /** The ranks of one host: `all` are the ranks of all hosts in buffer order, k0 of them done. */
  method CopyRanks<T>(dest: array<T>, shared: seq<T>, source0: nat, ranks: seq<nat>, recvBytes: seq<nat>,
                      displs: seq<nat>, stripeID: nat, size: nat, ghost all: seq<nat>, ghost k0: nat,
                      ghost buf0: seq<T>)
    returns (source: nat)
    requires AllInside(displs, recvBytes, dest.Length) && |buf0| == dest.Length
    requires InRange(all, |recvBytes|) && k0 + |ranks| <= |all| && all[k0..k0 + |ranks|] == ranks
    requires Bytes(PieceLens(recvBytes, stripeID, size), all) <= |shared|
    requires source0 == Bytes(PieceLens(recvBytes, stripeID, size), all[..k0])
    requires dest[..] == CopiedOut(buf0, shared, StripeOffsets(displs, stripeID, size),
                                   PieceLens(recvBytes, stripeID, size), all[..k0])
    modifies dest
    ensures source == Bytes(PieceLens(recvBytes, stripeID, size), all[..k0 + |ranks|])
    ensures dest[..] == CopiedOut(buf0, shared, StripeOffsets(displs, stripeID, size),
                                  PieceLens(recvBytes, stripeID, size), all[..k0 + |ranks|])
  {
    hide CopiedOut, Bytes, Write, Read, PieceLen, PieceLens, StripeOffsets, AllInside;
    SameCount(displs, recvBytes, dest.Length);
    ghost var lens, offs := PieceLens(recvBytes, stripeID, size), StripeOffsets(displs, stripeID, size);
    source := source0;
    for proc := 0 to |ranks|
      invariant source == Bytes(lens, all[..k0 + proc])
      invariant dest[..] == CopiedOut(buf0, shared, offs, lens, all[..k0 + proc])
    {
      assert all[k0 + proc] == all[k0..k0 + |ranks|][proc] == ranks[proc];
      CopiedStep(buf0, shared, offs, lens, all, k0 + proc);
      RestFits(lens, all, k0 + proc + 1);
      source := CopyRank(dest, shared, source, ranks[proc], recvBytes, displs, stripeID, size);
    }
  }

  lemma {:induction false} SameCount(displs: seq<nat>, bytes: seq<nat>, total: nat)
    requires AllInside(displs, bytes, total)
    ensures |displs| == |bytes|
  {
  }

  /** One rank's piece goes from the shared buffer to its place. */
  method CopyRank<T>(dest: array<T>, shared: seq<T>, source0: nat, groupRank: nat, recvBytes: seq<nat>,
                     displs: seq<nat>, stripeID: nat, size: nat)
    returns (source: nat)
    requires AllInside(displs, recvBytes, dest.Length) && groupRank < |recvBytes|
    requires source0 + PieceLen(recvBytes[groupRank], stripeID, size) <= |shared|
    modifies dest
    ensures source == source0 + PieceLen(recvBytes[groupRank], stripeID, size)
    ensures dest[..] == Write(old(dest[..]), displs[groupRank] + stripeID * size,
                              Read(shared, Segment(source0, PieceLen(recvBytes[groupRank], stripeID, size))))
  {
    hide PieceLen;
    source := source0;
    assert Inside(displs[groupRank], recvBytes[groupRank], dest.Length);
    PieceInside(recvBytes[groupRank], displs[groupRank], stripeID, size, dest.Length);
    var rankOffset := stripeID * size;
    var bytesToCopyNow := StripeShare(recvBytes[groupRank], rankOffset, stripeID, size);
    if bytesToCopyNow <= 0 {
      return;
    }
    MemCopy(shared, source, dest, displs[groupRank] + rankOffset, bytesToCopyNow);
    source := source + bytesToCopyNow;
  }

  method StripeShare(bytes: nat, rankOffset: nat, stripeID: nat, size: nat) returns (now: int)
    requires rankOffset == stripeID * size
    ensures if now <= 0 then PieceLen(bytes, stripeID, size) == 0 else now == PieceLen(bytes, stripeID, size)
  {
    now := bytes - rankOffset;
    if now > size {
      now := size;
    }
  }

  /** The hosts of a list of relative ranks. */
  function HostsOf(order: seq<nat>, root: nat, n: nat): (hosts: seq<nat>)
    requires root < n && InRange(order, n)
    ensures |hosts| == |order| && InRange(hosts, n)
    ensures forall i :: 0 <= i < |order| ==> hosts[i] == ToAbsolute(order[i], root, n)
  {
    seq(|order|, i requires 0 <= i < |order| => ToAbsolute(order[i], root, n))
  }

  lemma {:induction false} HostRanks(procs: seq<seq<nat>>, hosts: seq<nat>, k: nat)
    requires InRange(hosts, |procs|) && k < |hosts|
    ensures InRange(hosts[..k], |procs|) && InRange(hosts[..k + 1], |procs|)
    ensures var all, a, b := Flat(procs, hosts), |Flat(procs, hosts[..k])|, |Flat(procs, hosts[..k + 1])|;
      b == a + |procs[hosts[k]]| && b <= |all| && all[a..b] == procs[hosts[k]]
  {
    hide Flat;
    var front, rest := hosts[..k + 1], hosts[k + 1..];
    assert hosts == front + rest && front[..k] == hosts[..k];
    FlatConcat(procs, front, rest);
    FlatStep(procs, front);
  }

  /**
   `copyDataFromSharedBufferGatherV`, and with root host 0
   `copyDataFromSharedBufferMultipleStripes`: contiguous data.
   */
  method CopyDataFromSharedBuffer<T>(dest: array<T>, shared: seq<T>, dataHostOrder: seq<nat>, rootHost: nat,
                                     procs: seq<seq<nat>>, recvBytes: seq<nat>, displs: seq<nat>, stripeID: nat,
                                     size: nat)
    requires AllInside(displs, recvBytes, dest.Length)
    requires rootHost < |procs| && InRange(dataHostOrder, |procs|)
    requires forall h :: 0 <= h < |procs| ==> InRange(procs[h], |recvBytes|)
    requires InRange(Flat(procs, HostsOf(dataHostOrder, rootHost, |procs|)), |recvBytes|)
    requires var all := Flat(procs, HostsOf(dataHostOrder, rootHost, |procs|));
      Bytes(PieceLens(recvBytes, stripeID, size), all) <= |shared|
    modifies dest
    ensures dest[..] == CopiedOut(old(dest[..]), shared, StripeOffsets(displs, stripeID, size),
                                  PieceLens(recvBytes, stripeID, size),
                                  Flat(procs, HostsOf(dataHostOrder, rootHost, |procs|)))
  {
    hide CopiedOut, Flat, Bytes, Write, Inside, PieceLens, StripeOffsets;
    ghost var hosts := HostsOf(dataHostOrder, rootHost, |procs|);
    ghost var all, buf0 := Flat(procs, hosts), dest[..];
    ghost var lens, offs := PieceLens(recvBytes, stripeID, size), StripeOffsets(displs, stripeID, size);
    NothingCopied(buf0, shared, offs, lens, procs);
    var numHosts, sourcePointer := |procs|, 0;
    assert hosts[..0] == [] && all[..0] == [];
    for hostIdx := 0 to |dataHostOrder|
      invariant InRange(hosts[..hostIdx], |procs|) && |Flat(procs, hosts[..hostIdx])| <= |all|
      invariant sourcePointer == Bytes(lens, all[..|Flat(procs, hosts[..hostIdx])|])
      invariant dest[..] == CopiedOut(buf0, shared, offs, lens, all[..|Flat(procs, hosts[..hostIdx])|])
    {
      var host := dataHostOrder[hostIdx] + rootHost;
      if host >= numHosts {
        host := host - numHosts;
      }
      HostRanks(procs, hosts, hostIdx);
      sourcePointer := CopyRanks(dest, shared, sourcePointer, procs[host], recvBytes, displs, stripeID, size,
                                 all, |Flat(procs, hosts[..hostIdx])|, buf0);
    }
    assert hosts[..|hosts|] == hosts && all[..|all|] == all;
  }

  lemma {:induction false} NothingCopied<T>(buf: seq<T>, shared: seq<T>, offs: seq<nat>, lens: seq<nat>,
                                            procs: seq<seq<nat>>)
    requires |offs| == |lens|
    ensures CopiedOut(buf, shared, offs, lens, []) == buf && Bytes(lens, []) == 0 && Flat(procs, []) == []
  {
  }
}
