/** The writers of a stripe, one by one and in any order, as `WholeRun` has them. */
module StripeRun {
  import opened Layout
  import opened Stripes
  import opened Placement
  import opened CopyOut
  import opened StripedGather
  import opened StripeExchange
  import WholeRun

  /** The processes of every host, in order. */
  ghost function InOrder(procs: seq<seq<nat>>): (writes: seq<seq<nat>>)
    ensures |writes| == |procs| && forall h :: 0 <= h < |procs| ==> writes[h] == Ascending(|procs[h]|)
  {
    seq(|procs|, h requires 0 <= h < |procs| => Ascending(|procs[h]|))
  }

  ghost function Orders(procs: seq<seq<nat>>, stripes: nat): (writes: seq<seq<seq<nat>>>)
    ensures |writes| == stripes && forall k :: 0 <= k < stripes ==> writes[k] == InOrder(procs)
  {
    seq(stripes, k => InOrder(procs))
  }

  lemma {:induction false} AllInOrder(procs: seq<seq<nat>>)
    ensures AllWrite(procs, InOrder(procs))
  {
    forall h | 0 <= h < |procs|
      ensures InRange(InOrder(procs)[h], |procs[h]|) && Covers(InOrder(procs)[h], |procs[h]|)
    {
      AscendingIsPermutation(|procs[h]|);
    }
  }

  /** Process p of host h writes its piece of stripe k. */
  ghost function WriteOne<T>(data: seq<seq<T>>, procs: seq<seq<nat>>, size: nat, h: nat, k: nat, p: nat,
                             buf: seq<T>): seq<T>
    requires IsPlacement(procs, |data|)
  {
    if h < |procs| && p < |procs[h]| then
      var pieces, ranks := Pieces(data, k, size), procs[h];
      assert InRange(ranks, |pieces|);
      Write(buf, WriterOffsets(Sizes(pieces), ranks)[p], LocalPieces(pieces, ranks)[p])
    else buf
  }

  lemma {:induction false} WrittenIsPlaced<T, Y, M, X>(w: WholeRun.Collective<Segment, seq<T>, Y, M, X>,
                                                       data: seq<seq<T>>, procs: seq<seq<nat>>, size: nat, h: nat,
                                                       k: nat, order: seq<nat>, buf: seq<T>)
    requires IsPlacement(procs, |data|) && h < |procs| && InRange(order, |procs[h]|)
    requires forall p, b :: w.write(h, k, p, b) == WriteOne(data, procs, size, h, k, p, b)
    ensures InRange(procs[h], |data|)
    ensures var pieces, ranks := Pieces(data, k, size), procs[h];
      WholeRun.Written(w, h, k, order, buf) ==
      Placed(buf, WriterOffsets(Sizes(pieces), ranks), LocalPieces(pieces, ranks), order)
    decreases |order|
  {
    hide Pieces, WriterOffsets, LocalPieces, Write;
    if order != [] {
      WrittenIsPlaced(w, data, procs, size, h, k, order[..|order| - 1], buf);
    }
  }

  /** In whatever order the processes write, the buffer is what the plan makes of it. */
  lemma {:induction false} AnyOrderWrites<T, Y, M, X>(w: WholeRun.Collective<Segment, seq<T>, Y, M, X>,
                                                      data: seq<seq<T>>, procs: seq<seq<nat>>, size: nat, h: nat,
                                                      k: nat, order: seq<nat>, buf: seq<T>)
    requires IsPlacement(procs, |data|) && h < |procs| && IsPermutation(order, |procs[h]|)
    requires forall p, b :: w.write(h, k, p, b) == WriteOne(data, procs, size, h, k, p, b)
    requires |buf| >= |data| * size
    ensures AllWrite(procs, InOrder(procs))
    ensures WholeRun.Written(w, h, k, order, buf) == WriteAll(data, procs, InOrder(procs), h, k, size, buf)
  {
    hide Placed, WriterOffsets, LocalPieces, IsPlacement, Pieces, Separate, Bytes;
    AllInOrder(procs);
    PlacedRanks(procs, |data|, h);
    var pieces, ranks := Pieces(data, k, size), procs[h];
    WrittenIsPlaced(w, data, procs, size, h, k, order, buf);
    SharesFit(data, procs, 0, h, k, size);
    WritersApart(pieces, ranks, |buf|);
    AscendingIsPermutation(|ranks|);
    PlacedAnyOrder(buf, WriterOffsets(Sizes(pieces), ranks), LocalPieces(pieces, ranks), order, Ascending(|ranks|));
  }
}
