/**
 Cutting every rank's bytes into pieces of at most `perRankStripeSize`: how long the pieces
 are, where they go in a host's shared buffer, and how many rounds of pieces there are.
 */
module Stripes {
  import opened Arith
  import opened Layout

  /** The length of piece number `stripe`, as all parts of the source compute it. */
  function PieceLen(bytes: nat, stripe: nat, size: nat): nat {
    var left := bytes - stripe * size;
    if left <= 0 then 0 else if left > size then size else left
  }

  function Piece<T>(d: seq<T>, stripe: nat, size: nat): (p: seq<T>)
    ensures |p| == PieceLen(|d|, stripe, size)
  {
    var from := stripe * size;
    if |d| <= from then [] else d[from..from + PieceLen(|d|, stripe, size)]
  }

  /** The part of d that the pieces before `stripe` make up. */
  function Before<T>(d: seq<T>, stripe: nat, size: nat): (p: seq<T>)
    ensures p <= d
  {
    if |d| <= stripe * size then d else d[..stripe * size]
  }

  lemma {:induction false} PiecesJoin<T>(d: seq<T>, stripe: nat, size: nat)
    ensures Before(d, 0, size) == []
    ensures Before(d, stripe + 1, size) == Before(d, stripe, size) + Piece(d, stripe, size)
    ensures Piece(d, stripe, size) != [] ==> |Before(d, stripe, size)| == stripe * size
    ensures |d| <= stripe * size ==> Before(d, stripe, size) == d
  {
    assert 0 * size == 0;
    assert (stripe + 1) * size == stripe * size + size;
  }

  /** Every rank's piece for one stripe. */
  function Pieces<T>(data: seq<seq<T>>, stripe: nat, size: nat): (ps: seq<seq<T>>)
    ensures |ps| == |data| && forall r :: 0 <= r < |data| ==> ps[r] == Piece(data[r], stripe, size)
  {
    seq(|data|, r requires 0 <= r < |data| => Piece(data[r], stripe, size))
  }

  /** The pieces, one behind the other. */
  lemma {:induction false} PiecesMakeWhole<T>(out: seq<seq<T>>, w: seq<T>, size: nat, k: nat)
    requires k <= |out| && forall b :: 0 <= b < |out| ==> out[b] == Piece(w, b, size)
    ensures Flat(out, Ascending(k)) == Before(w, k, size)
    decreases k
  {
    hide Piece, Before;
    PiecesJoin(w, if k > 0 then k - 1 else 0, size);
    if k > 0 {
      PiecesMakeWhole(out, w, size, k - 1);
      assert Ascending(k)[..k - 1] == Ascending(k - 1);
    }
  }

  function PieceLens(bytes: seq<nat>, stripe: nat, size: nat): (ls: seq<nat>)
    ensures |ls| == |bytes| && forall r :: 0 <= r < |bytes| ==> ls[r] == PieceLen(bytes[r], stripe, size)
  {
    seq(|bytes|, r requires 0 <= r < |bytes| => PieceLen(bytes[r], stripe, size))
  }

  lemma {:induction false} PieceSizes<T>(data: seq<seq<T>>, stripe: nat, size: nat)
    ensures Sizes(Pieces(data, stripe, size)) == PieceLens(Sizes(data), stripe, size)
  {
  }

  // ---------------------------------------------------------------- the source's loops

  /** Adds up the pieces of some ranks: a writer's offset, or a host's share of the stripe. */
  method AddPieces(ranks: seq<nat>, bytesPerProc: seq<nat>, stripe: nat, perRankStripeSize: nat) returns (sum: nat)
    requires InRange(ranks, |bytesPerProc|)
    ensures sum == Bytes(PieceLens(bytesPerProc, stripe, perRankStripeSize), ranks)
  {
    sum := 0;
    for proc := 0 to |ranks|
      invariant sum == Bytes(PieceLens(bytesPerProc, stripe, perRankStripeSize), ranks[..proc])
    {
      assert ranks[..proc + 1][..proc] == ranks[..proc];
      var bytesToCopyNow: int := bytesPerProc[ranks[proc]] - stripe * perRankStripeSize;
      if bytesToCopyNow <= 0 {
        continue;
      }
      if bytesToCopyNow > perRankStripeSize {
        bytesToCopyNow := perRankStripeSize;
      }
      sum := sum + bytesToCopyNow;
    }
    assert ranks[..|ranks|] == ranks;
  }

  /** `dataToSendNow`: what every host contributes to the stripe. */
  method StripeSizes(procs: seq<seq<nat>>, bytesPerProc: seq<nat>, stripe: nat, perRankStripeSize: nat)
    returns (dataToSendNow: seq<nat>)
    requires forall h :: 0 <= h < |procs| ==> InRange(procs[h], |bytesPerProc|)
    ensures |dataToSendNow| == |procs|
    ensures forall h :: 0 <= h < |procs| ==>
      InRange(procs[h], |bytesPerProc|) &&
        dataToSendNow[h] == Bytes(PieceLens(bytesPerProc, stripe, perRankStripeSize), procs[h])
  {
    dataToSendNow := [];
    for host := 0 to |procs|
      invariant |dataToSendNow| == host
      invariant forall h :: 0 <= h < host ==>
        dataToSendNow[h] == Bytes(PieceLens(bytesPerProc, stripe, perRankStripeSize), procs[h])
    {
      var sum := AddPieces(procs[host], bytesPerProc, stripe, perRankStripeSize);
      dataToSendNow := dataToSendNow + [sum];
    }
  }

  /** Do k stripes take all of these bytes? */
  ghost predicate Covered(bytes: nat, k: nat, size: nat) { bytes <= k * size }

  lemma {:induction false} CoveredMonotone(bytes: nat, k: nat, k': nat, size: nat)
    requires Covered(bytes, k, size) && k <= k'
    ensures Covered(bytes, k', size)
  {
    if k < k' {
      MultiplesApart(k, k', size);
    }
  }

  /** `((procBytes - 1) / perRankStripeSize) + 1` is the least number of stripes that take all. */
  lemma {:induction false} StripesOfOne(bytes: nat, size: nat)
    requires bytes > 0 && size > 0
    ensures Covered(bytes, Quotient(bytes - 1, size) + 1, size) && !Covered(bytes, Quotient(bytes - 1, size), size)
  {
    var q := (bytes - 1) / size;
    assert bytes - 1 == q * size + (bytes - 1) % size;
    assert (q + 1) * size == q * size + size;
  }

  /** The number of stripes: enough for every rank, and needed by some rank. */
  ghost predicate IsStripeCount(bytes: seq<nat>, ranks: seq<nat>, k: nat, size: nat)
    requires InRange(ranks, |bytes|)
  {
    && (forall i :: 0 <= i < |ranks| ==> Covered(bytes[ranks[i]], k, size))
    && (k > 0 ==> exists i :: 0 <= i < |ranks| && !Covered(bytes[ranks[i]], k - 1, size))
  }

  method CountForRanks(ranks: seq<nat>, bytesPerProc: seq<nat>, perRankStripeSize: nat, count0: nat,
                       ghost seen: seq<nat>)
    returns (numStripes: nat)
    requires InRange(ranks, |bytesPerProc|) && InRange(seen, |bytesPerProc|) && perRankStripeSize > 0
    requires IsStripeCount(bytesPerProc, seen, count0, perRankStripeSize)
    ensures IsStripeCount(bytesPerProc, seen + ranks, numStripes, perRankStripeSize)
  {
    hide Covered, IsStripeCount;
    numStripes := count0;
    assert seen + ranks[..0] == seen;
    for p := 0 to |ranks|
      invariant IsStripeCount(bytesPerProc, seen + ranks[..p], numStripes, perRankStripeSize)
    {
      var procBytes := bytesPerProc[ranks[p]];
      assert seen + ranks[..p + 1] == (seen + ranks[..p]) + [ranks[p]];
      CountOneMore(bytesPerProc, seen + ranks[..p], ranks[p], numStripes, perRankStripeSize);
      if procBytes > 0 {
        var nStripesForThisProc := Quotient(procBytes - 1, perRankStripeSize) + 1;
        if nStripesForThisProc > numStripes {
          numStripes := nStripesForThisProc;
        }
      }
    }
    assert seen + ranks[..|ranks|] == seen + ranks;
  }

  lemma {:induction false} CountOneMore(bytes: seq<nat>, ranks: seq<nat>, r: nat, k: nat, size: nat)
    requires InRange(ranks, |bytes|) && r < |bytes| && size > 0 && IsStripeCount(bytes, ranks, k, size)
    ensures var mine := if bytes[r] == 0 then 0 else Quotient(bytes[r] - 1, size) + 1;
      IsStripeCount(bytes, ranks + [r], if mine > k then mine else k, size)
  {
    hide Covered;
    var mine := if bytes[r] == 0 then 0 else Quotient(bytes[r] - 1, size) + 1;
    var k', all := if mine > k then mine else k, ranks + [r];
    assert all[|ranks|] == r;
    if bytes[r] > 0 {
      StripesOfOne(bytes[r], size);
      CoveredMonotone(bytes[r], mine, k', size);
    } else {
      NothingToCover(k', size);
    }
    forall i | 0 <= i < |all|
      ensures Covered(bytes[all[i]], k', size)
    {
      if i < |ranks| {
        assert Covered(bytes[ranks[i]], k, size);
        CoveredMonotone(bytes[ranks[i]], k, k', size);
      }
    }
    if k' > 0 && mine <= k {
      var i :| 0 <= i < |ranks| && !Covered(bytes[ranks[i]], k - 1, size);
      assert all[i] == ranks[i];
    }
  }

  lemma {:induction false} NothingToCover(k: nat, size: nat)
    ensures Covered(0, k, size)
  {
  }

  /** The stripes needed for all ranks of all hosts. */
  method CountStripes(procs: seq<seq<nat>>, bytesPerProc: seq<nat>, perRankStripeSize: nat) returns (numStripes: nat)
    requires perRankStripeSize > 0 && forall h :: 0 <= h < |procs| ==> InRange(procs[h], |bytesPerProc|)
    ensures InRange(Flat(procs, Ascending(|procs|)), |bytesPerProc|)
    ensures IsStripeCount(bytesPerProc, Flat(procs, Ascending(|procs|)), numStripes, perRankStripeSize)
  {
    hide IsStripeCount;
    numStripes := 0;
    NoStripes(bytesPerProc, perRankStripeSize);
    for host := 0 to |procs|
      invariant InRange(Flat(procs, Ascending(host)), |bytesPerProc|)
      invariant IsStripeCount(bytesPerProc, Flat(procs, Ascending(host)), numStripes, perRankStripeSize)
    {
      assert Ascending(host + 1)[..host] == Ascending(host);
      assert Flat(procs, Ascending(host + 1)) == Flat(procs, Ascending(host)) + procs[host];
      ghost var seen := Flat(procs, Ascending(host));
      numStripes := CountForRanks(procs[host], bytesPerProc, perRankStripeSize, numStripes, seen);
    }
  }

  lemma {:induction false} NoStripes(bytes: seq<nat>, size: nat)
    ensures IsStripeCount(bytes, [], 0, size)
  {
  }

  /**
   `perRankStripeSize`: the most that every rank can have of the shared buffer, in whole lines, if
   every host has as many ranks as the largest.
   */
  method PerRankStripeSize(maxLength: nat, procs: seq<seq<nat>>, alignment: nat) returns (size: nat, maxLocalProcs: nat)
    requires |procs| > 0 && alignment > 0 && exists h :: 0 <= h < |procs| && procs[h] != []
    ensures forall h :: 0 <= h < |procs| ==> |procs[h]| <= maxLocalProcs
    ensures exists h :: 0 <= h < |procs| && |procs[h]| == maxLocalProcs
    ensures size * (|procs| * maxLocalProcs) <= maxLength < (size + alignment) * (|procs| * maxLocalProcs)
    ensures size % alignment == 0
    ensures size > 0 <==> alignment * (|procs| * maxLocalProcs) <= maxLength
  {
    maxLocalProcs := 0;
    for host := 0 to |procs|
      invariant forall h :: 0 <= h < host ==> |procs[h]| <= maxLocalProcs
      invariant maxLocalProcs > 0 ==> exists h :: 0 <= h < host && |procs[h]| == maxLocalProcs
    {
      if |procs[host]| > maxLocalProcs {
        maxLocalProcs := |procs[host]|;
      }
    }
    var slots := |procs| * maxLocalProcs;
    NotEmpty(|procs|, maxLocalProcs);
    size := Quotient(maxLength, slots);
    RoundedDown(maxLength, slots, alignment);
    size := Quotient(size, alignment) * alignment;
  }

  lemma {:induction false} NotEmpty(a: nat, b: nat)
    requires a > 0 && b > 0
    ensures a * b > 0
  {
    MultiplesApart(0, a, b);
  }

  /** The largest multiple of `align` of which d fit into x. */
  lemma {:induction false} RoundedDown(x: nat, d: nat, align: nat)
    requires d > 0 && align > 0
    ensures var a := x / d / align * align;
      a * d <= x < (a + align) * d && a % align == 0 && (a > 0 <==> align * d <= x)
  {
    var q := x / d;
    var k := q / align;
    assert q == k * align + q % align;
    DivisionIs(k * align, align, k, 0);
    CopiesFit(x, d, k * align);
    CopiesFit(x, d, k * align + align);
    CopiesFit(x, d, align);
    if k > 0 {
      NextMultiple(k - 1, align);
    }
  }
}
