/**
 `ulm_reduce` from end to end: every host reduces in shared memory, and then the hosts' roots
 reduce over the hosts, block by block and in place; a host may be blocks ahead of another.
 */
module ReduceBlocks {
  import opened Bits
  import opened Folds
  import opened Layout
  import opened Network
  import opened Buffers
  import opened Posted
  import opened Phases
  import opened Ranks
  import opened Placement
  import opened Blockwise
  import opened Stripes
  import opened Reduce
  import IntrahostReduce
  import ReduceInterhost

  /** `local[h]` are the ranks on host h, its representative first; `xs[r]` is what rank r contributes. */
  datatype Job<!E> = Job(f: (E, E) -> E, xs: seq<seq<E>>, m: nat, local: seq<seq<nat>>, rootHost: nat, packedSize: nat)

  ghost predicate ValidJob<E>(job: Job<E>) {
    && job.rootHost < |job.local| && job.packedSize > 0 && AllOfLength(job.xs, job.m)
    && IsPlacement(job.local, |job.xs|) && forall h :: 0 <= h < |job.local| ==> job.local[h] != []
  }

  const BLOCK_SIZE := 1048576

  ghost function Size<E>(job: Job<E>): (size: nat)
    requires ValidJob(job)
    ensures size > 0
  {
    BlockCount(BLOCK_SIZE, job.packedSize)
  }

  ghost function Blocks<E>(job: Job<E>): nat
    requires ValidJob(job)
  {
    NumBlocks(job.m, Size(job), |job.local|)
  }

  ghost function Len<E>(job: Job<E>): nat
    requires ValidJob(job)
  {
    IntrahostReduce.Masks(|job.local|)
  }

  // ---------------------------------------------------------------- the messages of a block

  ghost function SegmentOf<E>(job: Job<E>, b: nat): Segment
    requires ValidJob(job)
  {
    BlockSegment(job.m, Size(job), b)
  }

  ghost function FanInScript(h: nat, root: nat, nhost: nat): (script: seq<Round<()>>)
    requires h < nhost && root < nhost
    ensures |script| == IntrahostReduce.Masks(nhost)
  {
    seq(IntrahostReduce.Masks(nhost), k requires 0 <= k =>
      ReduceInterhost.ReduceRound(ToRelative(h, root, nhost), k, root, nhost))
  }

  lemma {:induction false} IsFanInScript(h: nat, root: nat, nhost: nat)
    requires h < nhost && root < nhost
    ensures ReduceInterhost.IsScript(FanInScript(h, root, nhost), h, root, nhost)
  {
    hide ReduceInterhost.ReduceRound, Pow2;
    forall k: nat
      ensures RoundAt(FanInScript(h, root, nhost), k) ==
        ReduceInterhost.ReduceRound(ToRelative(h, root, nhost), k, root, nhost)
    {
      var masks := IntrahostReduce.Masks(nhost);
      if k >= masks {
        Pow2Monotone(masks, k);
        ReduceInterhost.PastTheEnd(ToRelative(h, root, nhost), k, root, nhost);
      }
    }
  }

  ghost function FanInScripts<E>(job: Job<E>): (scripts: seq<seq<Round<()>>>)
    requires ValidJob(job)
    ensures |scripts| == |job.local|
    ensures forall h :: 0 <= h < |job.local| ==> scripts[h] == FanInScript(h, job.rootHost, |job.local|)
  {
    seq(|job.local|, h requires 0 <= h < |job.local| => FanInScript(h, job.rootHost, |job.local|))
  }

  ghost function BlockScripts<E>(job: Job<E>, b: nat): (scripts: seq<seq<Round<Segment>>>)
    requires ValidJob(job)
    ensures |scripts| == |job.local|
  {
    OnSegments(FanInScripts(job), SegmentOf(job, b))
  }

  ghost function BlocksOf<E>(job: Job<E>): (phases: seq<seq<seq<Round<Segment>>>>)
    requires ValidJob(job)
    ensures |phases| == Blocks(job) && forall b :: 0 <= b < |phases| ==> phases[b] == BlockScripts(job, b)
    ensures Phased(phases, |job.local|, Len(job))
  {
    BlocksInStep(FanInScripts(job), job.m, Size(job), Len(job));
    BlockPhases(FanInScripts(job), job.m, Size(job))
  }

  /** A received block is combined into the receive buffer in place. */
  ghost function InPlaceNet<E>(scripts: seq<seq<Round<Segment>>>, f: (E, E) -> E): Net<Segment, seq<E>, seq<E>> {
    Net(scripts, false,
        (seg: Segment, buf: seq<E>) => Read(buf, seg),
        (seg: Segment, buf: seq<E>, m: seq<E>) => Write(buf, seg.off, ZipSeq(f, m, Read(buf, seg))),
        (seg: Segment, m: seq<E>) => |m| == seg.len)
  }

  /** A host: its representative's receive buffer. */
  type Node<E> = Host<seq<E>, ()>

  /** Where there is one process, its block is copied from the send buffer first. */
  ghost function OwnStep<E>(job: Job<E>, h: nat, b: nat, stage: nat, st: Node<E>): Node<E>
    requires ValidJob(job)
  {
    if stage == 0 && h < |job.local| && |job.local[h]| == 1 then
      PlacedRanks(job.local, |job.xs|, h);
      Host(Write(st.shared, b * Size(job), Piece(job.xs[job.local[h][0]], b, Size(job))), ())
    else st
  }

  ghost function ReducePlan<E>(job: Job<E>): (plan: Plan<Segment, seq<E>, (), seq<E>>)
    requires ValidJob(job)
    ensures IsPlan(plan) && |plan.phases| == Blocks(job) && plan.n == |job.local| && plan.len == Len(job)
  {
    Plan(InPlaceNet([], job.f), BlocksOf(job), |job.local|, Len(job),
         (h: nat, b: nat, stage: nat, st: Node<E>) => OwnStep(job, h, b, stage, st))
  }

  lemma {:induction false} BlockNet<E>(job: Job<E>, b: nat)
    requires ValidJob(job) && b < Blocks(job)
    ensures PhaseOf(ReducePlan(job), b) == InPlaceNet(BlockScripts(job, b), job.f)
  {
    hide IsPlacement, BlockScripts, Blocks;
  }

  ghost function FanInNet<E>(job: Job<E>): (net: Net<(), seq<E>, seq<E>>)
    requires ValidJob(job)
    ensures net.scripts == FanInScripts(job)
  {
    ReduceInterhost.ReduceNet(FanInScripts(job), Zip(job.f))
  }

  lemma {:induction false} FanInIs<E>(job: Job<E>)
    requires ValidJob(job)
    ensures ReduceInterhost.AreScripts(FanInNet(job).scripts, job.rootHost, |job.local|)
    ensures Consistent(FanInNet(job))
  {
    hide IsPlacement, FanInScript, ReduceInterhost.IsScript;
    var net := FanInNet(job);
    forall h | 0 <= h < |job.local|
      ensures ReduceInterhost.IsScript(net.scripts[h], h, job.rootHost, |job.local|)
    {
      IsFanInScript(h, job.rootHost, |job.local|);
    }
    assert ReduceInterhost.AreScripts(net.scripts, job.rootHost, |job.local|);
    ReduceInterhost.ReducePairs(net, job.rootHost, |job.local|);
  }

  /** What a host does in round k of a block. */
  lemma {:induction false} BlockRound<E>(job: Job<E>, b: nat, h: nat, k: nat)
    requires ValidJob(job) && h < |job.local|
    ensures var net, seg := InPlaceNet(BlockScripts(job, b), job.f), SegmentOf(job, b);
      && OutAt(net, h, k) == SegmentHalf(OutAt(FanInNet(job), h, k), seg)
      && InAt(net, h, k) == SegmentHalf(InAt(FanInNet(job), h, k), seg)
  {
    hide IsPlacement, FanInNet, RoundAt, OnSegments;
    SegmentRound(FanInNet(job), InPlaceNet(BlockScripts(job, b), job.f), SegmentOf(job, b), h, k);
  }

  lemma {:induction false} BlockPairs<E>(job: Job<E>, b: nat)
    requires ValidJob(job)
    ensures Consistent(InPlaceNet(BlockScripts(job, b), job.f))
  {
    hide IsPlacement, Consistent, FanInNet, RoundAt, OnSegments;
    FanInIs(job);
    SegmentsPair(FanInNet(job), InPlaceNet(BlockScripts(job, b), job.f), SegmentOf(job, b));
  }

  // ---------------------------------------------------------------- one block

  /** `u` is the round-by-round run of the messages of block b. */
  ghost predicate BlockRun<E>(job: Job<E>, b: nat, u: seq<seq<seq<E>>>)
    requires ValidJob(job)
  {
    var net := InPlaceNet(BlockScripts(job, b), job.f);
    && Consistent(net) && |u| == Len(job) + 1 && |u[0]| == |job.local| && IsTrace(net, u[0], u)
    && (forall k :: 0 <= k < |u| ==> |u[k]| == |job.local|)
    && forall h :: 0 <= h < |job.local| ==> SegmentOf(job, b).off + SegmentOf(job, b).len <= |u[0][h]|
  }

  lemma {:induction false} CombineIn<E>(buf: seq<E>, seg: Segment, f: (E, E) -> E, m: seq<E>)
    requires seg.off + seg.len <= |buf| && |m| == seg.len
    ensures var after := Write(buf, seg.off, ZipSeq(f, m, Read(buf, seg)));
      Read(after, seg) == ZipSeq(f, m, Read(buf, seg)) && SameOutside(after, buf, seg)
  {
  }

  /** One round of a block: the receivers combine what their partners have, in the segment only. */
  lemma {:induction false} BlockStep<E>(job: Job<E>, b: nat, u: seq<seq<seq<E>>>, k: nat, h: nat)
    requires ValidJob(job) && BlockRun(job, b, u) && k + 1 < |u| && h < |job.local|
    requires forall q :: 0 <= q < |job.local| ==> |u[k][q]| == |u[0][q]|
    ensures var seg := SegmentOf(job, b);
      && SameOutside(u[k + 1][h], u[k][h], seg)
      && (InAt(FanInNet(job), h, k).None? ==> u[k + 1][h] == u[k][h])
      && (InAt(FanInNet(job), h, k).Some? ==>
            var q := InAt(FanInNet(job), h, k).value.peer;
            q < |job.local| && Read(u[k + 1][h], seg) == ZipSeq(job.f, Read(u[k][q], seg), Read(u[k][h], seg)))
  {
    hide IsPlacement, BlockScripts, Consistent, FanInNet, RoundAt, SegmentOf, Write, IsTrace, Len;
    var net, seg := InPlaceNet(BlockScripts(job, b), job.f), SegmentOf(job, b);
    BlockRound(job, b, h, k);
    TraceNext(net, u[0], u, k, h);
    if InAt(FanInNet(job), h, k).Some? {
      var q := InAt(net, h, k).value.peer;
      BlockRound(job, b, q, k);
      CombineIn(u[k][h], seg, job.f, Read(u[k][q], seg));
    }
  }

  lemma {:induction false} BlockKeeps<E>(job: Job<E>, b: nat, u: seq<seq<seq<E>>>, k: nat)
    requires ValidJob(job) && BlockRun(job, b, u) && k < |u|
    ensures |u[k]| == |u[0]| == |job.local|
    ensures forall h :: 0 <= h < |job.local| ==> SameOutside(u[k][h], u[0][h], SegmentOf(job, b))
    decreases k
  {
    hide BlockRun, SegmentOf, FanInNet, RoundAt, IsPlacement, Read;
    BlockShape(job, b, u);
    if k > 0 {
      BlockKeeps(job, b, u, k - 1);
      forall h | 0 <= h < |job.local|
        ensures SameOutside(u[k][h], u[0][h], SegmentOf(job, b))
      {
        assert SameOutside(u[k - 1][h], u[0][h], SegmentOf(job, b));
        BlockStep(job, b, u, k - 1, h);
      }
    }
  }

  lemma {:induction false} BlockShape<E>(job: Job<E>, b: nat, u: seq<seq<seq<E>>>)
    requires ValidJob(job) && BlockRun(job, b, u)
    ensures |u| == Len(job) + 1 && forall k :: 0 <= k < |u| ==> |u[k]| == |job.local|
    ensures forall h :: 0 <= h < |job.local| ==> SegmentOf(job, b).off + SegmentOf(job, b).len <= |u[0][h]|
  {
  }

  /** What the hosts have of the block, round by round. */
  ghost function Segments<E>(u: seq<seq<seq<E>>>, seg: Segment): (v: seq<seq<seq<E>>>)
    ensures |v| == |u| && forall k :: 0 <= k < |u| ==> v[k] == Parts(u[k], seg)
  {
    seq(|u|, k requires 0 <= k < |u| => Parts(u[k], seg))
  }

  ghost function Parts<E>(bufs: seq<seq<E>>, seg: Segment): (v: seq<seq<E>>)
    ensures |v| == |bufs| && forall h :: 0 <= h < |bufs| ==> v[h] == Read(bufs[h], seg)
  {
    seq(|bufs|, h requires 0 <= h < |bufs| => Read(bufs[h], seg))
  }

  lemma {:induction false} BlockFansIn<E>(job: Job<E>, b: nat, u: seq<seq<seq<E>>>)
    requires ValidJob(job) && BlockRun(job, b, u)
    ensures ReduceInterhost.IsFanIn(Zip(job.f), Segments(u, SegmentOf(job, b)), job.rootHost, |job.local|)
  {
    hide BlockRun, SegmentOf, FanInNet, RoundAt, IsPlacement, Read, ReduceInterhost.AreScripts, Consistent, Low, Bit,
      Pow2;
    BlockShape(job, b, u);
    FanInIs(job);
    var v, root, n := Segments(u, SegmentOf(job, b)), job.rootHost, |job.local|;
    forall k, h | 0 <= k < |v| - 1 && 0 <= h < n
      ensures ReduceInterhost.Stepped(Zip(job.f), v, root, n, k, h)
    {
      BlockKeeps(job, b, u, k);
      BlockStep(job, b, u, k, h);
      ReduceInterhost.RoundPairs(FanInNet(job), root, n, h, k);
      assert v[k + 1][h] == Read(u[k + 1][h], SegmentOf(job, b)) && v[k][h] == Read(u[k][h], SegmentOf(job, b));
    }
  }

  /** After the messages of a block the root has the fold of the hosts' blocks. */
  lemma {:induction false} BlockAtRoot<E(!new)>(job: Job<E>, b: nat, u: seq<seq<seq<E>>>)
    requires ValidJob(job) && BlockRun(job, b, u) && Associative(job.f) && Commutative(job.f)
    ensures |u| == Len(job) + 1 && |u[Len(job)]| == |job.local|
    ensures Read(u[Len(job)][job.rootHost], SegmentOf(job, b)) == Fold(Zip(job.f), Parts(u[0], SegmentOf(job, b)))
  {
    hide BlockRun, SegmentOf, IsPlacement, Read, Associative, Commutative, Zip, ReduceInterhost.IsFanIn, Reverse, Pow2,
      Fold;
    BlockShape(job, b, u);
    BlockFansIn(job, b, u);
    ZipAlgebra(job.f);
    ReduceInterhost.FanInAtRoot(Zip(job.f), Segments(u, SegmentOf(job, b)), job.rootHost, |job.local|);
  }

  // ---------------------------------------------------------------- what the hosts have between the blocks

  /** What the hosts' own reductions give. */
  ghost function Arrays<E>(job: Job<E>): (v: seq<seq<E>>)
    requires ValidJob(job)
    ensures HostArrays(job.f, job.xs, job.m, job.local, v) && AllOfLength(v, job.m) && |v| == |job.local|
  {
    ArraysExist(job);
    seq(|job.local|, h requires 0 <= h < |job.local| => FoldVec(job.f, Select(job.xs, job.local[h]), job.m))
  }

  lemma {:induction false} ArraysExist<E>(job: Job<E>)
    requires ValidJob(job)
    ensures forall h :: 0 <= h < |job.local| ==>
      InRange(job.local[h], |job.xs|) && AllOfLength(Select(job.xs, job.local[h]), job.m)
  {
    forall h | 0 <= h < |job.local|
      ensures InRange(job.local[h], |job.xs|) && AllOfLength(Select(job.xs, job.local[h]), job.m)
    {
      PlacedRanks(job.local, |job.xs|, h);
    }
  }

  /** On a host with one process that is what the process contributes. */
  lemma {:induction false} OneContribution<E>(job: Job<E>, h: nat)
    requires ValidJob(job) && h < |job.local| && |job.local[h]| == 1
    ensures job.local[h][0] < |job.xs| && Arrays(job)[h] == job.xs[job.local[h][0]]
  {
    hide IsPlacement;
    PlacedRanks(job.local, |job.xs|, h);
    ArraysExist(job);
    var r := job.local[h][0];
    var v := Arrays(job)[h];
    assert |job.xs[r]| == job.m && |v| == job.m;
    forall i | 0 <= i < job.m
      ensures v[i] == job.xs[r][i]
    {
      assert Column(Select(job.xs, job.local[h]), job.m, i) == [job.xs[r][i]];
    }
  }

  ghost function Total<E>(job: Job<E>): (v: seq<E>)
    requires ValidJob(job)
    ensures |v| == job.m
  {
    FoldVec(job.f, job.xs, job.m)
  }

  /** Before block b: a host that has reduced still has its array from there on, the root has the result up to there. */
  ghost predicate HostReady<E>(job: Job<E>, buf: seq<E>, before: seq<E>, h: nat, b: nat)
    requires ValidJob(job) && h < |job.local|
  {
    && |buf| == |before| >= job.m && |Arrays(job)[h]| == job.m
    && (|job.local[h]| > 1 ==> forall i :: b * Size(job) <= i < job.m ==> buf[i] == Arrays(job)[h][i])
    && (h == job.rootHost ==>
          && (forall i :: 0 <= i < job.m && i < b * Size(job) ==> buf[i] == Total(job)[i])
          && (forall i :: job.m <= i < |buf| ==> buf[i] == before[i]))
  }

  ghost predicate Ready<E>(job: Job<E>, hosts: seq<Node<E>>, before: seq<seq<E>>, b: nat)
    requires ValidJob(job)
  {
    |hosts| == |before| == |job.local| &&
    forall h :: 0 <= h < |hosts| ==> HostReady(job, hosts[h].shared, before[h], h, b)
  }

  lemma {:induction false} BlockInside<E>(job: Job<E>, b: nat)
    requires ValidJob(job) && b < Blocks(job)
    ensures var seg := SegmentOf(job, b); seg.len > 0 && seg.off + seg.len <= job.m
  {
    hide IsPlacement, BlockSegment, NumBlocks;
    BlockWithin(job.m, Size(job), |job.local|, b);
  }

  lemma {:induction false} ReadPiece<E>(buf: seq<E>, w: seq<E>, b: nat, size: nat)
    requires |buf| >= |w| && PieceLen(|w|, b, size) > 0
    requires forall i :: b * size <= i < |w| ==> buf[i] == w[i]
    ensures Read(buf, Segment(b * size, PieceLen(|w|, b, size))) == Piece(w, b, size)
  {
  }

  lemma {:induction false} WritePieceAt<E>(buf: seq<E>, w: seq<E>, b: nat, size: nat)
    requires |buf| >= |w| && PieceLen(|w|, b, size) > 0
    ensures var seg, after := Segment(b * size, PieceLen(|w|, b, size)), Write(buf, b * size, Piece(w, b, size));
      Read(after, seg) == Piece(w, b, size) && SameOutside(after, buf, seg)
  {
    hide Read, Write, SameOutside;
    PieceIn(w, b, size);
    WriteIn(buf, b * size, Piece(w, b, size));
  }

  lemma {:induction false} PieceIn<E>(w: seq<E>, b: nat, size: nat)
    requires PieceLen(|w|, b, size) > 0
    ensures b * size + |Piece(w, b, size)| <= |w|
  {
  }

  /** After its own step every host has its block in place. */
  lemma {:induction false} BlockInPlace<E>(job: Job<E>, st: Node<E>, before: seq<E>, h: nat, b: nat)
    requires ValidJob(job) && h < |job.local| && b < Blocks(job) && HostReady(job, st.shared, before, h, b)
    ensures var buf := OwnStep(job, h, b, 0, st).shared;
      && Read(buf, SegmentOf(job, b)) == Piece(Arrays(job)[h], b, Size(job))
      && SameOutside(buf, st.shared, SegmentOf(job, b))
  {
    hide IsPlacement, Arrays, Total, Blocks, PieceLen, Piece, Read, Write;
    BlockInside(job, b);
    var w := Arrays(job)[h];
    if |job.local[h]| == 1 {
      OneContribution(job, h);
      WritePieceAt(st.shared, w, b, Size(job));
    } else {
      assert job.local[h] != [];
      ReadPiece(st.shared, w, b, Size(job));
    }
  }

  /** The messages of a block leave the next block ready. */
  lemma {:induction false} NextReady<E>(job: Job<E>, old0: seq<E>, buf: seq<E>, before: seq<E>, h: nat, b: nat)
    requires ValidJob(job) && h < |job.local| && HostReady(job, old0, before, h, b) && b < Blocks(job)
    requires SameOutside(buf, old0, SegmentOf(job, b))
    requires h == job.rootHost ==> Read(buf, SegmentOf(job, b)) == Piece(Total(job), b, Size(job))
    ensures HostReady(job, buf, before, h, b + 1)
  {
    hide IsPlacement, Arrays, Total, Blocks, BlockSegment;
    SegmentInside(job.m, Size(job), b);
    BlockInside(job, b);
    var seg := SegmentOf(job, b);
    if h == job.rootHost {
      forall i | 0 <= i < job.m && i < (b + 1) * Size(job)
        ensures buf[i] == Total(job)[i]
      {
        if seg.off <= i {
          PieceElementAt(job, buf, b, i);
        }
      }
    }
  }

  lemma {:induction false} PieceElementAt<E>(job: Job<E>, buf: seq<E>, b: nat, i: nat)
    requires ValidJob(job) && b < Blocks(job) && |buf| >= job.m && b * Size(job) <= i < (b + 1) * Size(job) && i < job.m
    requires Read(buf, SegmentOf(job, b)) == Piece(Total(job), b, Size(job))
    ensures buf[i] == Total(job)[i]
  {
    hide IsPlacement, Total, Blocks, Piece, PieceLen;
    SegmentInside(job.m, Size(job), b);
    BlockInside(job, b);
    PieceElement(Total(job), b, Size(job), i - b * Size(job));
  }

  // ---------------------------------------------------------------- all blocks

  /** `t` is the round-by-round run of all blocks. */
  ghost predicate BlockedRun<E>(job: Job<E>, init: seq<Node<E>>, t: seq<seq<Node<E>>>)
    requires ValidJob(job)
  {
    && RunOf(ReducePlan(job), init, t) && (forall r :: 0 <= r < |t| ==> |t[r]| == |job.local|)
    && AllConsistent(ReducePlan(job))
  }

  /** The receive buffers in the rounds of messages of block b. */
  ghost function BlockAt<E>(job: Job<E>, t: seq<seq<Node<E>>>, b: nat): (u: seq<seq<seq<E>>>)
    requires ValidJob(job) && b < Blocks(job) && Base(b + 1, Len(job)) < |t|
    requires forall r :: 0 <= r < |t| ==> |t[r]| == |job.local|
    ensures |u| == Len(job) + 1 && forall j :: 0 <= j < |u| ==> |u[j]| == |job.local|
    ensures forall j, h {:trigger u[j][h]} :: 0 <= j < |u| && 0 <= h < |job.local| ==>
      u[j][h] == t[Base(b, Len(job)) + 1 + j][h].shared
  {
    Slice(ReducePlan(job), t, b)
  }

  lemma {:induction false} OwnStepsOf<E>(job: Job<E>, init: seq<Node<E>>, t: seq<seq<Node<E>>>, b: nat, h: nat)
    requires ValidJob(job) && BlockedRun(job, init, t) && b < Blocks(job) && h < |job.local|
    requires Base(b + 1, Len(job)) < |t|
    ensures var u, at := BlockAt(job, t, b), Base(b, Len(job));
      && u[0][h] == OwnStep(job, h, b, 0, t[at][h]).shared
      && t[Base(b + 1, Len(job))][h].shared == u[Len(job)][h]
  {
    hide RunOf, AllConsistent, IsPlacement, IsPlan, Blocks, Len, Slice, Write;
    OwnSteps(ReducePlan(job), init, t, b, h);
  }

  lemma {:induction false} BlockIsRun<E>(job: Job<E>, init: seq<Node<E>>, t: seq<seq<Node<E>>>, before: seq<seq<E>>,
                                         b: nat)
    requires ValidJob(job) && BlockedRun(job, init, t) && b < Blocks(job) && Base(b + 1, Len(job)) < |t|
    requires Ready(job, t[Base(b, Len(job))], before, b)
    ensures BlockRun(job, b, BlockAt(job, t, b))
    ensures forall h :: 0 <= h < |job.local| ==>
      Read(BlockAt(job, t, b)[0][h], SegmentOf(job, b)) == Piece(Arrays(job)[h], b, Size(job)) &&
      SameOutside(BlockAt(job, t, b)[0][h], t[Base(b, Len(job))][h].shared, SegmentOf(job, b))
  {
    hide RunOf, AllConsistent, IsPlacement, Blocks, Len, Slice, HostReady, SegmentOf, Read, Piece, Arrays, IsTrace,
      Consistent, BlockScripts, OwnStep;
    var u, at := BlockAt(job, t, b), Base(b, Len(job));
    SliceIsTrace(ReducePlan(job), init, t, b);
    BlockNet(job, b);
    forall h | 0 <= h < |job.local|
      ensures Read(u[0][h], SegmentOf(job, b)) == Piece(Arrays(job)[h], b, Size(job))
      ensures SameOutside(u[0][h], t[at][h].shared, SegmentOf(job, b))
      ensures SegmentOf(job, b).off + SegmentOf(job, b).len <= |u[0][h]|
    {
      assert HostReady(job, t[at][h].shared, before[h], h, b);
      OwnStepsOf(job, init, t, b, h);
      BlockInPlace(job, t[at][h], before[h], h, b);
      BlockInside(job, b);
      BufferLength(job, t[at][h].shared, before[h], h, b);
    }
  }

  lemma {:induction false} BufferLength<E>(job: Job<E>, buf: seq<E>, before: seq<E>, h: nat, b: nat)
    requires ValidJob(job) && h < |job.local| && HostReady(job, buf, before, h, b)
    ensures |buf| == |before| >= job.m
  {
  }

  /** The root gets block b of the fold over all ranks. */
  lemma {:induction false} RootGetsBlock<E(!new)>(job: Job<E>, b: nat, u: seq<seq<seq<E>>>)
    requires ValidJob(job) && Associative(job.f) && Commutative(job.f) && BlockRun(job, b, u)
    requires |u| == Len(job) + 1 && |u[0]| == |u[Len(job)]| == |job.local|
    requires forall h :: 0 <= h < |job.local| ==>
      Read(u[0][h], SegmentOf(job, b)) == Piece(Arrays(job)[h], b, Size(job))
    ensures Read(u[Len(job)][job.rootHost], SegmentOf(job, b)) == Piece(Total(job), b, Size(job))
  {
    hide IsPlacement, Len, SegmentOf, Read, Piece, Arrays, BlockRun, Associative, Commutative, FoldVec, Zip, Fold,
      HostArrays;
    BlockAtRoot(job, b, u);
    assert Parts(u[0], SegmentOf(job, b)) == Pieces(Arrays(job), b, Size(job));
    BlockOfFold(job.f, Arrays(job), job.m, b, Size(job));
    ArraysFold(job.f, job.xs, job.m, job.local, Arrays(job));
  }

  lemma {:induction false} BlockDone<E(!new)>(job: Job<E>, init: seq<Node<E>>, t: seq<seq<Node<E>>>,
                                              before: seq<seq<E>>, b: nat)
    requires ValidJob(job) && Associative(job.f) && Commutative(job.f)
    requires BlockedRun(job, init, t) && b < Blocks(job) && Base(b + 1, Len(job)) < |t|
    requires Ready(job, t[Base(b, Len(job))], before, b)
    ensures Ready(job, t[Base(b + 1, Len(job))], before, b + 1)
  {
    hide RunOf, AllConsistent, IsPlacement, Blocks, Len, Slice, HostReady, SegmentOf, Read, Piece, Arrays, BlockRun,
      Associative, Commutative, Total, OwnStep;
    var u, at, next := BlockAt(job, t, b), Base(b, Len(job)), t[Base(b + 1, Len(job))];
    BlockIsRun(job, init, t, before, b);
    RootGetsBlock(job, b, u);
    BlockKeeps(job, b, u, Len(job));
    forall h | 0 <= h < |job.local|
      ensures HostReady(job, next[h].shared, before[h], h, b + 1)
    {
      OwnStepsOf(job, init, t, b, h);
      assert SameOutside(u[Len(job)][h], u[0][h], SegmentOf(job, b));
      assert HostReady(job, t[at][h].shared, before[h], h, b);
      NextReady(job, t[at][h].shared, next[h].shared, before[h], h, b);
    }
  }

  /** Every receive of a block is posted for as many elements as are sent. */
  lemma {:induction false} BlockAccepts<E>(job: Job<E>, init: seq<Node<E>>, t: seq<seq<Node<E>>>, before: seq<seq<E>>,
                                           b: nat)
    requires ValidJob(job) && BlockedRun(job, init, t) && b < Blocks(job) && Base(b + 1, Len(job)) < |t|
    requires Ready(job, t[Base(b, Len(job))], before, b)
    ensures Consistent(PhaseOf(ReducePlan(job), b))
    ensures InStep(ReducePlan(job).phases[b], |job.local|, Len(job))
    ensures PhaseAccepts(ReducePlan(job), t, b)
  {
    hide RunOf, AllConsistent, IsPlacement, Blocks, Len, SegmentOf, Piece, Arrays, Consistent, BlockScripts, Ready,
      BlockRun, RoundAt, FanInNet, IsPlan;
    BlockNet(job, b);
    SliceIsTrace(ReducePlan(job), init, t, b);
    BlockIsRun(job, init, t, before, b);
    var net, u := PhaseOf(ReducePlan(job), b), BlockAt(job, t, b);
    BlockShape(job, b, u);
    forall h, j: nat | 0 <= h < |job.local| && j < Len(job) && InAt(net, h, j).Some?
      ensures AcceptsIn(net, u, h, j)
    {
      Paired(net, h, j);
      var q := InAt(net, h, j).value.peer;
      BlockRound(job, b, h, j);
      BlockRound(job, b, q, j);
      BlockKeeps(job, b, u, j);
      assert SameOutside(u[j][q], u[0][q], SegmentOf(job, b));
    }
  }

  lemma {:induction false} AllBlocks<E(!new)>(job: Job<E>, init: seq<Node<E>>, t: seq<seq<Node<E>>>,
                                              before: seq<seq<E>>, b: nat)
    requires ValidJob(job) && Associative(job.f) && Commutative(job.f)
    requires BlockedRun(job, init, t) && b <= Blocks(job) && Ready(job, init, before, 0)
    ensures Base(b, Len(job)) < |t| && Ready(job, t[Base(b, Len(job))], before, b)
    decreases b
  {
    hide AllConsistent, ReducePlan, Ready, IsPlacement, Blocks, Len, Associative, Commutative;
    BaseMonotone(b, Blocks(job), Len(job));
    if b > 0 {
      AllBlocks(job, init, t, before, b - 1);
      BlockDone(job, init, t, before, b - 1);
    } else {
      TraceStart(PhaseNet(ReducePlan(job)), init, t);
    }
  }

  lemma {:induction false} RunIsBlocked<E>(job: Job<E>, init: seq<Node<E>>) returns (t: seq<seq<Node<E>>>)
    requires ValidJob(job) && |init| == |job.local|
    ensures BlockedRun(job, init, t) && Consistent(PhaseNet(ReducePlan(job)))
    ensures t == Trace(PhaseNet(ReducePlan(job)), init)
    ensures MaxLength(PhaseNet(ReducePlan(job)).scripts) == Base(Blocks(job), Len(job))
  {
    hide ReducePlan, IsPlacement, Consistent, IsTrace, Blocks, Len, InPlaceNet, BlockScripts;
    forall b | 0 <= b < Blocks(job)
      ensures Consistent(PhaseOf(ReducePlan(job), b))
    {
      BlockNet(job, b);
      BlockPairs(job, b);
    }
    t := TheRun(ReducePlan(job), init);
    forall r | 0 <= r < |t|
      ensures |t[r]| == |job.local|
    {
      TraceShape(PhaseNet(ReducePlan(job)), init, t, r);
    }
  }

  lemma {:induction false} BlockedRunReduces<E(!new)>(job: Job<E>, init: seq<Node<E>>, t: seq<seq<Node<E>>>,
                                                      before: seq<seq<E>>)
    requires ValidJob(job) && Associative(job.f) && Commutative(job.f) && |init| == |job.local|
    requires BlockedRun(job, init, t) && Ready(job, init, before, 0) && Consistent(PhaseNet(ReducePlan(job)))
    requires t == Trace(PhaseNet(ReducePlan(job)), init)
    requires MaxLength(PhaseNet(ReducePlan(job)).scripts) == Base(Blocks(job), Len(job))
    ensures Accepting(PhaseNet(ReducePlan(job)), init)
    ensures Base(Blocks(job), Len(job)) < |t| && Ready(job, t[Base(Blocks(job), Len(job))], before, Blocks(job))
  {
    hide AllConsistent, ReducePlan, IsPlacement, Consistent, RunOf, PhaseAccepts, Ready, Blocks, Len, Associative,
      Commutative;
    forall b | 0 <= b < Blocks(job)
      ensures Consistent(PhaseOf(ReducePlan(job), b))
      ensures InStep(ReducePlan(job).phases[b], |job.local|, Len(job))
      ensures Base(b, Len(job)) + Len(job) + 1 < |t|
      ensures PhaseAccepts(ReducePlan(job), t, b)
    {
      AllBlocks(job, init, t, before, b);
      AllBlocks(job, init, t, before, b + 1);
      BlockAccepts(job, init, t, before, b);
    }
    AllAccepted(ReducePlan(job), init, t);
    AllBlocks(job, init, t, before, Blocks(job));
  }

  // ---------------------------------------------------------------- the reductions on the hosts

  /** A run of the shared-memory reduction of one host, in blocks of `size` elements. */
  datatype HostRun<!E> = HostRun(reduction: IntrahostReduce.Job<seq<E>>, start: IntrahostReduce.State<seq<E>>,
                                 sched: seq<nat>, size: nat)

  /** All processes of the host have gone through all blocks of their arrays `vs`. */
  ghost predicate Reduced<E>(run: HostRun<E>, f: (E, E) -> E, vs: seq<seq<E>>, m: nat) {
    && IntrahostReduce.ValidJob(run.reduction) && IntrahostReduce.Initial(run.reduction, run.start)
    && run.reduction.op == Zip(f) && run.reduction.n == |vs|
    && (forall b :: 0 <= b < |run.reduction.x| ==> run.reduction.x[b] == Pieces(vs, b, run.size))
    && Covered(m, |run.reduction.x|, run.size)
    && IntrahostReduce.AllFinished(run.reduction, IntrahostReduce.Run(run.reduction, run.start, run.sched))
  }

  /** What the on-host root has copied out, one block behind the other. */
  ghost function CopiedOutBy<E>(run: HostRun<E>): seq<E>
    requires IntrahostReduce.ValidJob(run.reduction) && IntrahostReduce.Initial(run.reduction, run.start)
  {
    var out := IntrahostReduce.Run(run.reduction, run.start, run.sched).out;
    Flat(out, Ascending(|out|))
  }

  /** In whatever order its processes ran, the on-host root has the fold of the host's arrays. */
  lemma {:induction false} HostHasArray<E(!new)>(run: HostRun<E>, f: (E, E) -> E, vs: seq<seq<E>>, m: nat)
    requires Associative(f) && Commutative(f) && AllOfLength(vs, m) && Reduced(run, f, vs, m)
    ensures CopiedOutBy(run) == FoldVec(f, vs, m)
  {
    hide FoldVec, Associative, Commutative, Piece, Before, IntrahostReduce.AllFinished,
      IntrahostReduce.ValidJob, IntrahostReduce.Run, Flat, Zip;
    HostVector(f, run.reduction, run.start, run.sched, vs, m, run.size);
    var out, w := IntrahostReduce.Run(run.reduction, run.start, run.sched).out, FoldVec(f, vs, m);
    PiecesMakeWhole(out, w, run.size, |out|);
    PiecesJoin(w, |out|, run.size);
  }

  // ---------------------------------------------------------------- the collective

  /** Every host with several processes has run its reduction; the receive buffers were `before`. */
  ghost predicate OnHosts<E>(job: Job<E>, runs: seq<HostRun<E>>, before: seq<seq<E>>)
    requires ValidJob(job)
  {
    && |runs| == |before| == |job.local|
    && (forall h :: 0 <= h < |job.local| ==> |before[h]| >= job.m)
    && forall h :: 0 <= h < |job.local| && |job.local[h]| > 1 ==> HostReduced(job, runs[h], h)
  }

  ghost predicate HostReduced<E>(job: Job<E>, run: HostRun<E>, h: nat)
    requires ValidJob(job) && h < |job.local|
  {
    PlacedRanks(job.local, |job.xs|, h);
    Reduced(run, job.f, Select(job.xs, job.local[h]), job.m)
  }

  /** A representative's receive buffer before the interhost step. */
  ghost function BufferOf<E>(job: Job<E>, run: HostRun<E>, before: seq<E>, h: nat): seq<E>
    requires ValidJob(job) && h < |job.local| && (|job.local[h]| > 1 ==> HostReduced(job, run, h))
  {
    if |job.local[h]| > 1 then Write(before, 0, CopiedOutBy(run))
    else if |job.local| == 1 then PlacedRanks(job.local, |job.xs|, h); Write(before, 0, job.xs[job.local[h][0]])
    else before
  }

  ghost function Entering<E>(job: Job<E>, runs: seq<HostRun<E>>, before: seq<seq<E>>): (init: seq<Node<E>>)
    requires ValidJob(job) && OnHosts(job, runs, before)
    ensures |init| == |job.local|
    ensures forall h :: 0 <= h < |job.local| ==>
      (|job.local[h]| > 1 ==> HostReduced(job, runs[h], h)) && init[h] == Host(BufferOf(job, runs[h], before[h], h), ())
  {
    seq(|job.local|, h requires 0 <= h < |job.local| => Host(BufferOf(job, runs[h], before[h], h), ()))
  }

  lemma {:induction false} BufferIs<E(!new)>(job: Job<E>, run: HostRun<E>, before: seq<E>, h: nat)
    requires ValidJob(job) && Associative(job.f) && Commutative(job.f)
    requires h < |job.local| && (|job.local[h]| > 1 ==> HostReduced(job, run, h)) && |before| >= job.m
    ensures |job.local[h]| > 1 || |job.local| == 1 ==> BufferOf(job, run, before, h) == Write(before, 0, Arrays(job)[h])
    ensures HostReady(job, BufferOf(job, run, before, h), before, h, 0)
  {
    hide IsPlacement, Associative, Commutative, CopiedOutBy, Reduced, FoldVec;
    assert job.local[h] != [];
    ArraysExist(job);
    if |job.local[h]| > 1 {
      HostHasArray(run, job.f, Select(job.xs, job.local[h]), job.m);
    } else {
      OneContribution(job, h);
    }
  }

  lemma {:induction false} OneHost<E(!new)>(job: Job<E>)
    requires ValidJob(job) && Associative(job.f) && Commutative(job.f) && |job.local| == 1
    ensures Arrays(job)[0] == Total(job)
  {
    hide IsPlacement, Associative, Commutative, HostArrays, Arrays;
    ArraysFold(job.f, job.xs, job.m, job.local, Arrays(job));
    var w := Arrays(job);
    assert |w[0]| == job.m;
    forall i | 0 <= i < job.m
      ensures w[0][i] == FoldVec(job.f, w, job.m)[i]
    {
      assert Column(w, job.m, i) == [w[0][i]];
    }
  }

  /** When the last block is done, the root has it all. */
  lemma {:induction false} RootHasAll<E>(job: Job<E>, buf: seq<E>, before: seq<E>)
    requires ValidJob(job) && |job.local| > 1 && HostReady(job, buf, before, job.rootHost, Blocks(job))
    ensures buf == Write(before, 0, Total(job))
  {
    hide IsPlacement, Arrays, Total;
    if job.m > 0 {
      StripesOfOne(job.m, Size(job));
    }
  }

  lemma {:induction false} EnteringReady<E(!new)>(job: Job<E>, runs: seq<HostRun<E>>, before: seq<seq<E>>)
    requires ValidJob(job) && Associative(job.f) && Commutative(job.f) && OnHosts(job, runs, before)
    ensures Ready(job, Entering(job, runs, before), before, 0)
    ensures |job.local| == 1 ==> Entering(job, runs, before)[0].shared == Write(before[0], 0, Total(job))
  {
    hide IsPlacement, Associative, Commutative, HostReady, Arrays, Total, HostReduced, BufferOf, Write;
    var init := Entering(job, runs, before);
    forall h | 0 <= h < |job.local|
      ensures HostReady(job, init[h].shared, before[h], h, 0)
      ensures |job.local| == 1 ==> init[h].shared == Write(before[h], 0, Arrays(job)[h])
    {
      BufferIs(job, runs[h], before[h], h);
    }
    if |job.local| == 1 {
      OneHost(job);
    }
  }

  /**
   `ulm_reduce` with a commutative operation: whatever the placement of the ranks, the root's
   host, the number of elements and the block sizes on the hosts and between them, however the
   processes of a host interleave, and however the hosts' operations interleave, when all are
   performed the root's receive buffer has the element-by-element fold over all ranks, each
   counted once, and is otherwise as it was; until then some host can go on, even with
   synchronous sends.
   */
  lemma {:induction false} ReduceDelivers<E(!new)>(job: Job<E>, runs: seq<HostRun<E>>, before: seq<seq<E>>,
                                                   posted: seq<nat>)
    requires ValidJob(job) && Associative(job.f) && Commutative(job.f) && OnHosts(job, runs, before)
    ensures var net := PhaseNet(ReducePlan(job)); Consistent(net) && Addressed(PostedBy(net.scripts))
    ensures var net := PhaseNet(ReducePlan(job));
      var ops := PostedBy(net.scripts);
      var d := Perform(net, ops, Start(net, Entering(job, runs, before)), posted);
      if AllPerformed(ops, d)
      then d.local[job.rootHost].shared == Write(before[job.rootHost], 0, FoldVec(job.f, job.xs, job.m))
      else exists h :: CanAct(net, ops, d, h, true)
  {
    hide AllConsistent, ReducePlan, IsPlacement, Consistent, BlockedRun, Addressed, AllPerformed, CanAct, Perform,
      HostReady, OnHosts, Entering, Associative, Commutative, Write, FoldVec, Blocks, Len;
    var init := Entering(job, runs, before);
    EnteringReady(job, runs, before);
    var t := RunIsBlocked(job, init);
    BlockedRunReduces(job, init, t, before);
    PhasesRun(ReducePlan(job), init, posted);
    var last := t[Base(Blocks(job), Len(job))];
    assert HostReady(job, last[job.rootHost].shared, before[job.rootHost], job.rootHost, Blocks(job));
    if |job.local| > 1 {
      RootHasAll(job, last[job.rootHost].shared, before[job.rootHost]);
    } else {
      NoBlocks(job, init, t);
    }
  }

  lemma {:induction false} NoBlocks<E>(job: Job<E>, init: seq<Node<E>>, t: seq<seq<Node<E>>>)
    requires ValidJob(job) && |job.local| == 1 && |init| == 1 && Consistent(PhaseNet(ReducePlan(job)))
    requires t == Trace(PhaseNet(ReducePlan(job)), init)
    ensures Base(Blocks(job), Len(job)) == 0 && |t| > 0 && t[0] == init
  {
    hide IsPlacement, Consistent, ReducePlan;
  }

  // ---------------------------------------------------------------- the host's loop

  /** The source leaves its loop once it has sent; what it posts is that of the whole script. */
  lemma {:induction false} PostsBlock(script: seq<Round<()>>, seg: Segment, h: nat, root: nat, nhost: nat)
    requires h < nhost && root < nhost && ReduceInterhost.IsScript(script, h, root, nhost)
    ensures Active(OnSegment(script, seg)) == Active(OnSegment(FanInScript(h, root, nhost), seg))
  {
    hide ReduceInterhost.ReduceRound, FanInScript, Active, OnSegment;
    IsFanInScript(h, root, nhost);
    SamePosts(script, FanInScript(h, root, nhost), seg);
  }

  /** One block of the host's representative. */
  method BlockOps(host: nat, rootHost: nat, nhost: nat, seg: Segment) returns (ops: seq<Round<Segment>>)
    requires host < nhost && rootHost < nhost
    ensures ops == Active(OnSegment(FanInScript(host, rootHost, nhost), seg))
  {
    hide Active, FanInScript;
    var script := ReduceInterhost.ReduceScript(host, rootHost, nhost);
    PostsBlock(script, seg, host, rootHost, nhost);
    ops := Active(OnSegment(script, seg));
  }

  /** The blockwise loop of `ulm_reduce`, and the interhost step of each block. */
  method UlmReduce<E>(host: nat, rootHost: nat, nhost: nat, count0: nat, packedSize: nat, ghost job: Job<E>)
    returns (ops: seq<Round<Deed<Segment>>>)
    requires ValidJob(job) && nhost == |job.local| && rootHost == job.rootHost && count0 == job.m
    requires packedSize == job.packedSize && host < nhost
    ensures ops == PostedBy(PhaseNet(ReducePlan(job)).scripts)[host]
    ensures forall r, seg :: 0 <= r < |ops| && Carries(ops[r], seg) ==>
      && (seg.len == 1 || seg.len * packedSize <= 1048576)
      && (seg.off + seg.len == count0 || (seg.len + 1) * packedSize > 1048576)
  {
    hide FullBlocks, FullBlock, Carries, Active, Lift, FanInScript, IsPlacement, OnSegment, BlockSegment, ScriptUpto,
      PieceLen, Blocks, IntrahostReduce.Masks;
    ghost var len, phases := Len(job), BlocksOf(job);
    PostedFirst(phases, nhost, len, host);
    ops := [];
    NoBlockYet(count0, 1, packedSize, BLOCK_SIZE);
    if nhost > 1 {
      var blockCount := BLOCK_SIZE / packedSize;
      if blockCount == 0 {
        blockCount := 1;
      }
      var rp: nat, count: nat, block: nat := 0, count0, 0;
      while count > 0
        invariant Phased(phases, nhost, len) && block <= Blocks(job) && rp + count == count0
        invariant rp == if count0 <= block * blockCount then count0 else block * blockCount
        invariant ops == Active(ScriptUpto(phases, nhost, len, host, block))
        invariant FullBlocks(ops, count0, 1, packedSize, BLOCK_SIZE)
      {
        BlockOrEnd(job.m, blockCount, nhost, block, rp);
        var n := if blockCount < count then blockCount else count;
        var exchange := BlockOps(host, rootHost, nhost, Segment(rp, n));
        assert exchange == Active(phases[block][host]);
        BlockIsFull(rp, n, count, packedSize, BLOCK_SIZE);
        BlockJoins(ops, exchange, Segment(rp, n), FanInScript(host, rootHost, nhost), host, block, count0, 1,
                   packedSize, BLOCK_SIZE);
        ops := ops + [OwnRound(host, block, 0)] + Lift(exchange) + [OwnRound(host, block, 1)];
        PostedPhase(phases, nhost, len, host, block);
        count, rp, block := count - n, rp + n, block + 1;
      }
      BlockOrEnd(job.m, blockCount, nhost, block, rp);
    }
    InBlocks(ops, count0, packedSize);
  }

  lemma {:induction false} InBlocks(ops: seq<Round<Deed<Segment>>>, count0: nat, packedSize: nat)
    requires FullBlocks(ops, count0, 1, packedSize, BLOCK_SIZE)
    ensures forall r, seg :: 0 <= r < |ops| && Carries(ops[r], seg) ==>
      && (seg.len == 1 || seg.len * packedSize <= 1048576)
      && (seg.off + seg.len == count0 || (seg.len + 1) * packedSize > 1048576)
  {
    hide Carries;
    forall r, seg | 0 <= r < |ops| && Carries(ops[r], seg)
      ensures seg.len == 1 || seg.len * packedSize <= 1048576
      ensures seg.off + seg.len == count0 || (seg.len + 1) * packedSize > 1048576
    {
      assert FullBlock(seg, count0, 1, packedSize, BLOCK_SIZE);
    }
  }
}
