/**
 Collectives that send their data from host to host in blocks of a fixed number of elements,
 every block by the same pattern of messages.
 */
module Blockwise {
  import opened Arith
  import opened Layout
  import opened Network
  import opened Buffers
  import opened Phases
  import opened Stripes

  /** The elements in a block of at most `limit` bytes, at least one. */
  function BlockCount(limit: nat, packedSize: nat): (c: nat)
    requires packedSize > 0
    ensures c == 1 || (c > 0 && c * packedSize <= limit)
    ensures (c + 1) * packedSize > limit
  {
    CopiesFit(limit, packedSize, limit / packedSize);
    CopiesFit(limit, packedSize, limit / packedSize + 1);
    if limit / packedSize == 0 then 1 else limit / packedSize
  }

  /** The blocks that go between the hosts; with one host there is none. */
  function NumBlocks(count: nat, size: nat, nhost: nat): nat
    requires size > 0
  {
    if nhost == 1 || count == 0 then 0 else Quotient(count - 1, size) + 1
  }

  function BlockSegment(count: nat, size: nat, b: nat): Segment { Segment(b * size, PieceLen(count, b, size)) }

  function SegmentHalf(half: Option<Half<()>>, seg: Segment): Option<Half<Segment>> {
    match half
    case None => None
    case Some(Half(q, _)) => Some(Half(q, seg))
  }

  /** Every message of a block is the block's segment of the buffer. */
  function OnSegment(script: seq<Round<()>>, seg: Segment): (s: seq<Round<Segment>>)
    ensures |s| == |script|
    ensures forall k :: 0 <= k < |s| ==> s[k] == Round(SegmentHalf(script[k].out, seg), SegmentHalf(script[k].inc, seg))
  {
    seq(|script|, k requires 0 <= k < |script| =>
      Round(SegmentHalf(script[k].out, seg), SegmentHalf(script[k].inc, seg)))
  }

  /** What all hosts do in a block. */
  function OnSegments(scripts: seq<seq<Round<()>>>, seg: Segment): (s: seq<seq<Round<Segment>>>)
    ensures |s| == |scripts| && forall h :: 0 <= h < |s| ==> s[h] == OnSegment(scripts[h], seg)
  {
    seq(|scripts|, h requires 0 <= h < |scripts| => OnSegment(scripts[h], seg))
  }

  /** All blocks. */
  ghost function BlockPhases(scripts: seq<seq<Round<()>>>, count: nat,
                             size: nat): (phases: seq<seq<seq<Round<Segment>>>>)
    requires size > 0
    ensures |phases| == NumBlocks(count, size, |scripts|)
    ensures forall b :: 0 <= b < |phases| ==> phases[b] == OnSegments(scripts, BlockSegment(count, size, b))
  {
    seq(NumBlocks(count, size, |scripts|), b requires 0 <= b => OnSegments(scripts, BlockSegment(count, size, b)))
  }

  lemma {:induction false} BlocksInStep(scripts: seq<seq<Round<()>>>, count: nat, size: nat, len: nat)
    requires size > 0 && InStep(scripts, |scripts|, len)
    ensures Phased(BlockPhases(scripts, count, size), |scripts|, len)
  {
    hide BlockPhases, OnSegments, BlockSegment;
  }

  /** What host h does in round k of a block. */
  lemma {:induction false} SegmentRound<S, M, U, N>(net: Net<(), S, M>, on: Net<Segment, U, N>, seg: Segment, h: nat,
                                                    k: nat)
    requires on.scripts == OnSegments(net.scripts, seg) && h < |net.scripts|
    ensures OutAt(on, h, k) == SegmentHalf(OutAt(net, h, k), seg)
    ensures InAt(on, h, k) == SegmentHalf(InAt(net, h, k), seg)
  {
  }

  /** The messages of a block pair up as those of the pattern do. */
  lemma {:induction false} SegmentsPair<S, M, U, N>(net: Net<(), S, M>, on: Net<Segment, U, N>, seg: Segment)
    requires Consistent(net) && on.scripts == OnSegments(net.scripts, seg)
    ensures Consistent(on)
  {
    hide Consistent, RoundAt, OnSegments;
    forall h, k: nat | 0 <= h < |net.scripts|
      ensures SamePeer(OutAt(net, h, k), OutAt(on, h, k))
      ensures SamePeer(InAt(net, h, k), InAt(on, h, k))
    {
      SegmentRound(net, on, seg, h, k);
    }
    SamePeersPair(net, on);
  }

  /** Two buffers that differ in a segment at most. */
  ghost predicate SameOutside<E>(a: seq<E>, b: seq<E>, seg: Segment) {
    |a| == |b| && forall i :: 0 <= i < |a| && !(seg.off <= i < seg.off + seg.len) ==> a[i] == b[i]
  }

  lemma {:induction false} WriteIn<E>(buf: seq<E>, off: nat, m: seq<E>)
    requires off + |m| <= |buf|
    ensures Read(Write(buf, off, m), Segment(off, |m|)) == m && SameOutside(Write(buf, off, m), buf, Segment(off, |m|))
  {
  }

  // ---------------------------------------------------------------- where the blocks are

  lemma {:induction false} SegmentInside(count: nat, size: nat, b: nat)
    requires size > 0
    ensures var seg := BlockSegment(count, size, b);
      && (seg.len > 0 ==> seg.off + seg.len <= count)
      && (b + 1) * size == b * size + size && seg.off == b * size && seg.len <= size
      && (seg.len < size && seg.len > 0 ==> seg.off + seg.len == count)
      && (seg.len == 0 ==> count <= b * size)
  {
    assert (b + 1) * size == b * size + size;
  }

  lemma {:induction false} BlockWithin(count: nat, size: nat, nhost: nat, b: nat)
    requires size > 0 && b < NumBlocks(count, size, nhost)
    ensures var seg := BlockSegment(count, size, b); seg.len > 0 && seg.off + seg.len <= count
  {
    SegmentInside(count, size, b);
    StripesOfOne(count, size);
    var last := Quotient(count - 1, size);
    assert b * size <= last * size by { Scaled(b, last, size); }
  }

  /** The loop over the blocks is not done before the last block, and is done after it. */
  lemma {:induction false} BlockOrEnd(count: nat, size: nat, nhost: nat, b: nat, rp: nat)
    requires size > 0 && nhost > 1 && b <= NumBlocks(count, size, nhost)
    requires rp == if count <= b * size then count else b * size
    ensures b < NumBlocks(count, size, nhost) <==> rp < count
    ensures b < NumBlocks(count, size, nhost) ==>
      var n := if size < count - rp then size else count - rp;
      && BlockSegment(count, size, b) == Segment(rp, n)
      && rp + n == if count <= (b + 1) * size then count else (b + 1) * size
  {
    SegmentInside(count, size, b);
    if b < NumBlocks(count, size, nhost) {
      BlockWithin(count, size, nhost, b);
    } else if count > 0 {
      StripesOfOne(count, size);
    }
  }

  // ---------------------------------------------------------------- what a host posts for a block

  lemma {:induction false} IdleTail<A>(script: seq<Round<A>>, k: nat)
    requires k <= |script| && forall r :: k <= r < |script| ==> script[r] == Idle()
    ensures Active(script) == Active(script[..k])
    decreases |script| - k
  {
    if k < |script| {
      IdleTail(script, k + 1);
      assert script[..k + 1][..k] == script[..k];
    } else {
      assert script[..k] == script;
    }
  }

  /** Scripts that agree in every round post the same. */
  lemma {:induction false} SameActive<A>(a: seq<Round<A>>, b: seq<Round<A>>)
    requires forall r: nat :: RoundAt(a, r) == RoundAt(b, r)
    ensures Active(a) == Active(b)
  {
    var k := if |a| <= |b| then |a| else |b|;
    forall r | 0 <= r < k
      ensures a[r] == b[r]
    {
      assert RoundAt(a, r) == RoundAt(b, r);
    }
    forall r | k <= r
      ensures (r < |a| ==> a[r] == Idle()) && (r < |b| ==> b[r] == Idle())
    {
      assert RoundAt(a, r) == RoundAt(b, r);
    }
    assert a[..k] == b[..k];
    IdleTail(a, k);
    IdleTail(b, k);
  }

  // ---------------------------------------------------------------- how long the messages are

  /** Is the segment sent or received in the round? */
  predicate Carries(round: Round<Deed<Segment>>, seg: Segment) {
    || (round.out.Some? && round.out.value.how == Msg(seg))
    || (round.inc.Some? && round.inc.value.how == Msg(seg))
  }

  /**
   A message is one unit or at most `limit`, and one unit more is over the limit unless the message
   is the last; `scale` turns the length of a segment into bytes.
   */
  predicate FullBlock(seg: Segment, total: nat, unit: nat, scale: nat, limit: nat) {
    && (seg.len == unit || seg.len * scale <= limit)
    && (seg.off + seg.len == total || (seg.len + unit) * scale > limit)
  }

  ghost predicate FullBlocks(ops: seq<Round<Deed<Segment>>>, total: nat, unit: nat, scale: nat, limit: nat) {
    forall r, seg :: 0 <= r < |ops| && Carries(ops[r], seg) ==> FullBlock(seg, total, unit, scale, limit)
  }

  /** A block of n elements, as many as may go in a block unless fewer are left. */
  lemma {:induction false} BlockIsFull(p: nat, n: nat, left: nat, packedSize: nat, limit: nat)
    requires packedSize > 0 && left > 0
    requires n == if BlockCount(limit, packedSize) < left then BlockCount(limit, packedSize) else left
    ensures FullBlock(Segment(p, n), p + left, 1, packedSize, limit)
    ensures FullBlock(Segment(p, n * packedSize), p + left * packedSize, packedSize, 1, limit)
  {
    hide BlockCount;
    var c := BlockCount(limit, packedSize);
    Scaled(n, c, packedSize);
    assert (n + 1) * packedSize == n * packedSize + packedSize;
  }

  /** A block of the messages of one segment goes in between two steps of the host's own. */
  lemma {:induction false} BlockJoins(ops: seq<Round<Deed<Segment>>>, exchange: seq<Round<Segment>>, seg: Segment,
                                      script: seq<Round<()>>, h: nat, k: nat, total: nat, unit: nat, scale: nat,
                                      limit: nat)
    requires FullBlocks(ops, total, unit, scale, limit) && FullBlock(seg, total, unit, scale, limit)
    requires exchange == Active(OnSegment(script, seg))
    ensures FullBlocks(ops + [OwnRound(h, k, 0)] + Lift(exchange) + [OwnRound(h, k, 1)], total, unit, scale, limit)
  {
    hide Active, OnSegment, Lift, FullBlock, FullBlocks, Carries;
    OneSegment(script, seg);
    LiftedFull(exchange, seg, total, unit, scale, limit);
    OwnCarriesNone(h, k, total, unit, scale, limit);
    var own0, own1: seq<Round<Deed<Segment>>> := [OwnRound(h, k, 0)], [OwnRound(h, k, 1)];
    BothFull(ops, own0, total, unit, scale, limit);
    BothFull(ops + own0, Lift(exchange), total, unit, scale, limit);
    BothFull(ops + own0 + Lift(exchange), own1, total, unit, scale, limit);
  }

  lemma {:induction false} BothFull(a: seq<Round<Deed<Segment>>>, b: seq<Round<Deed<Segment>>>, total: nat, unit: nat,
                                    scale: nat, limit: nat)
    requires FullBlocks(a, total, unit, scale, limit) && FullBlocks(b, total, unit, scale, limit)
    ensures FullBlocks(a + b, total, unit, scale, limit)
  {
    hide FullBlock, Carries;
    forall r, seg | 0 <= r < |a + b| && Carries((a + b)[r], seg)
      ensures FullBlock(seg, total, unit, scale, limit)
    {
      assert (a + b)[r] == if r < |a| then a[r] else b[r - |a|];
    }
  }

  lemma {:induction false} NoBlockYet(total: nat, unit: nat, scale: nat, limit: nat)
    ensures FullBlocks([], total, unit, scale, limit)
  {
  }

  lemma {:induction false} OwnCarriesNone(h: nat, k: nat, total: nat, unit: nat, scale: nat, limit: nat)
    ensures FullBlocks([OwnRound(h, k, 0)], total, unit, scale, limit)
    ensures FullBlocks([OwnRound(h, k, 1)], total, unit, scale, limit)
  {
  }

  lemma {:induction false} LiftedFull(exchange: seq<Round<Segment>>, seg: Segment, total: nat, unit: nat, scale: nat,
                                      limit: nat)
    requires forall r :: 0 <= r < |exchange| ==> Only(exchange[r], seg)
    requires FullBlock(seg, total, unit, scale, limit)
    ensures FullBlocks(Lift(exchange), total, unit, scale, limit)
  {
    hide FullBlock;
  }

  /** The round has to do with no other segment. */
  predicate Only(round: Round<Segment>, seg: Segment) {
    (round.out.Some? ==> round.out.value.how == seg) && (round.inc.Some? ==> round.inc.value.how == seg)
  }

  /** Every message of a block is the block's segment. */
  lemma {:induction false} OneSegment(script: seq<Round<()>>, seg: Segment)
    ensures var ops := Active(OnSegment(script, seg)); forall r :: 0 <= r < |ops| ==> Only(ops[r], seg)
  {
    hide Active;
    ActiveKeeps(OnSegment(script, seg), seg);
  }

  lemma {:induction false} ActiveKeeps(on: seq<Round<Segment>>, seg: Segment)
    requires forall r :: 0 <= r < |on| ==> Only(on[r], seg)
    ensures var ops := Active(on); forall r :: 0 <= r < |ops| ==> Only(ops[r], seg)
  {
    hide Only;
    if on != [] {
      var most := on[..|on| - 1];
      forall r | 0 <= r < |most|
        ensures Only(most[r], seg)
      {
        assert most[r] == on[r];
      }
      ActiveKeeps(most, seg);
      var ops, last := Active(on), on[|on| - 1];
      assert ops == Active(most) + (if last.out.None? && last.inc.None? then [] else [last]);
      forall r | 0 <= r < |ops|
        ensures Only(ops[r], seg)
      {
        assert ops[r] == if r < |Active(most)| then Active(most)[r] else last;
      }
    }
  }

  lemma {:induction false} SamePosts(a: seq<Round<()>>, b: seq<Round<()>>, seg: Segment)
    requires forall r: nat :: RoundAt(a, r) == RoundAt(b, r)
    ensures Active(OnSegment(a, seg)) == Active(OnSegment(b, seg))
  {
    hide Active;
    forall r: nat
      ensures RoundAt(OnSegment(a, seg), r) == RoundAt(OnSegment(b, seg), r)
    {
      assert RoundAt(a, r) == RoundAt(b, r);
    }
    SameActive(OnSegment(a, seg), OnSegment(b, seg));
  }
}
